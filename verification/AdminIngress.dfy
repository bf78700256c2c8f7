/** The private interface contract of scripts/validate_admin_ingress_contract.py: from the
    text of `KEY=value` lines to the interfaces it declares. */
module AdminIngress {
  import opened Text
  import opened IngressRules

  datatype Complaint =
    | LineShapeInvalid | KeyUnsupported | ValueWhitespaceAmbiguous
    | ReviewFlagMissing | ReviewFlagDuplicate | ReviewFlagInvalid | ReviewIncomplete
    | InterfaceMissing | InterfaceDuplicate | InterfaceShapeInvalid | InterfaceClassForbidden | InterfaceLimitExceeded

  /** A token and the line it was found on; 0 where no line is named. */
  datatype Diagnostic = Diagnostic(complaint: Complaint, line: nat)

  const REVIEW_KEY := "ADMIN_INGRESS_REVIEWED"
  const INTERFACE_KEY := "ADMIN_INGRESS_INTERFACE"
  const INTERFACE_MIN_LENGTH := 2
  const INTERFACE_MAX_LENGTH := 15
  const MAX_INTERFACES := 16

  const FORBIDDEN_PREFIXES := [
    "bond", "br", "cali", "cni", "docker", "dummy", "en", "eth", "flannel",
    "kube", "lxc", "tap", "team", "tunl", "veth", "virbr", "vxlan", "wl"]

  predicate Lower(c: char) { 'a' <= c <= 'z' }

  predicate NameChar(c: char) { Lower(c) || '0' <= c <= '9' || c == '.' || c == '_' || c == '-' }

  predicate KeyChar(c: char) { 'A' <= c <= 'Z' || c == '_' }

  predicate Shaped(name: string) {
    INTERFACE_MIN_LENGTH <= |name| <= INTERFACE_MAX_LENGTH && Lower(name[0]) && forall c :: c in name ==> NameChar(c)
  }

  predicate Forbidden(name: string) {
    name == "lo" || exists p :: p in FORBIDDEN_PREFIXES && p <= name
  }

  predicate Allowed(name: string) {
    Shaped(name) && !Forbidden(name)
  }

  /** `interface_errors`. */
  function InterfaceErrors(name: string, n: nat): seq<Diagnostic> {
    if !Shaped(name) then [Diagnostic(InterfaceShapeInvalid, n)]
    else if Forbidden(name) then [Diagnostic(InterfaceClassForbidden, n)]
    else []
  }

  /** What one line says before the lines above it are taken into account. */
  datatype Line = Silent | Bad(complaint: Complaint) | Review(value: string) | Interface(value: string)

  function Find(s: string, c: char): (i: nat)
    ensures i <= |s| && c !in s[..i]
    ensures i < |s| ==> s[i] == c
  {
    if s == "" || s[0] == c then 0
    else
      var i := 1 + Find(s[1..], c);
      assert s[..i] == [s[0]] + s[1..][..i - 1];
      i
  }

  function ReadLine(line: string): Line {
    if line == "" || Starts(line, '#') then Silent
    else if line != Trim(line) || (exists c :: c in line && c < ' ') then Bad(LineShapeInvalid)
    else
      var i := Find(line, '=');
      if i == |line| || i == 0 || i + 1 == |line| then Bad(LineShapeInvalid) else Assign(line[..i], line[i + 1..])
  }

  /** A line of the form `key=value`. */
  function Assign(key: string, value: string): Line {
    if exists c :: c in key && !KeyChar(c) then Bad(LineShapeInvalid)
    else if key != REVIEW_KEY && key != INTERFACE_KEY then Bad(KeyUnsupported)
    else if exists c :: c in value && IsSpace(c) then Bad(ValueWhitespaceAmbiguous)
    else if key == REVIEW_KEY then Review(value)
    else Interface(value)
  }

  datatype Contract = Contract(errors: seq<Diagnostic>, reviews: seq<string>, interfaces: seq<string>)

  function Enter(s: Contract, read: Line, n: nat): Contract {
    match read
    case Silent => s
    case Bad(complaint) => Complain(s, complaint, n)
    case Review(value) =>
      if s.reviews != [] then Complain(s, ReviewFlagDuplicate, n)
      else if value != "yes" && value != "no" then Complain(s, ReviewFlagInvalid, n)
      else s.(reviews := [value])
    case Interface(value) =>
      if InterfaceErrors(value, n) != [] then s.(errors := s.errors + InterfaceErrors(value, n))
      else if value in s.interfaces then Complain(s, InterfaceDuplicate, n)
      else if |s.interfaces| >= MAX_INTERFACES then Complain(s, InterfaceLimitExceeded, n)
      else s.(interfaces := s.interfaces + [value])
  }

  function Complain(s: Contract, complaint: Complaint, n: nat): Contract {
    s.(errors := s.errors + [Diagnostic(complaint, n)])
  }

  function Reads(lines: seq<string>): (read: seq<Line>)
    ensures |read| == |lines| && forall i :: 0 <= i < |lines| ==> read[i] == ReadLine(lines[i])
  {
    seq(|lines|, i requires 0 <= i < |lines| => ReadLine(lines[i]))
  }

  function Steps(read: seq<Line>): Contract {
    if read == [] then Contract([], [], []) else Enter(Steps(read[..|read| - 1]), read[|read| - 1], |read|)
  }

  function Closing(s: Contract): seq<Diagnostic> {
    var errors :=
      if s.reviews == [] then s.errors + [Diagnostic(ReviewFlagMissing, 0)]
      else if s.reviews[0] != "yes" then s.errors + [Diagnostic(ReviewIncomplete, 0)]
      else s.errors;
    if s.interfaces == [] then errors + [Diagnostic(InterfaceMissing, 0)] else errors
  }

  function ReadContract(text: string): Result<seq<string>, seq<Diagnostic>> {
    var s := Steps(Reads(Split(text, '\n')));
    if Closing(s) != [] then Err(Closing(s)) else Ok(s.interfaces)
  }

  /** `parse_contract_text`. */
  method ParseContractText(text: string) returns (r: Result<seq<string>, seq<Diagnostic>>)
    ensures r == ReadContract(text)
  {
    var errors: seq<Diagnostic>, reviews: seq<string>, interfaces: seq<string> := [], [], [];
    var seen: set<string> := {};
    var lines := Split(text, '\n');
    ghost var all := Reads(lines);
    for n := 0 to |lines|
      invariant Steps(all[..n]) == Contract(errors, reviews, interfaces)
      invariant seen == set i | i in interfaces
    {
      assert all[..n + 1][..n] == all[..n];
      var read := ReadLine(lines[n]);
      assert all[n] == read;
      match read {
        case Silent => {}
        case Bad(complaint) => errors := errors + [Diagnostic(complaint, n + 1)];
        case Review(value) =>
          if reviews != [] {
            errors := errors + [Diagnostic(ReviewFlagDuplicate, n + 1)];
          } else if value != "yes" && value != "no" {
            errors := errors + [Diagnostic(ReviewFlagInvalid, n + 1)];
          } else {
            reviews := reviews + [value];
          }
        case Interface(value) =>
          var shape := InterfaceErrors(value, n + 1);
          if shape != [] {
            errors := errors + shape;
          } else if value in seen {
            errors := errors + [Diagnostic(InterfaceDuplicate, n + 1)];
          } else if |interfaces| >= MAX_INTERFACES {
            errors := errors + [Diagnostic(InterfaceLimitExceeded, n + 1)];
          } else {
            seen := seen + {value};
            interfaces := interfaces + [value];
          }
      }
    }
    assert all[..|lines|] == all;
    if reviews == [] {
      errors := errors + [Diagnostic(ReviewFlagMissing, 0)];
    } else if reviews[0] != "yes" {
      errors := errors + [Diagnostic(ReviewIncomplete, 0)];
    }
    if interfaces == [] { errors := errors + [Diagnostic(InterfaceMissing, 0)]; }
    r := if errors != [] then Err(errors) else Ok(interfaces);
  }

  // --------------------------------------------------------------------------
  // The accepted texts

  /** Characters a value may hold. */
  predicate Clean(value: string) {
    forall c :: c in value ==> !IsSpace(c) && c >= ' '
  }

  lemma {:induction false} FindAfter(key: string, value: string)
    requires '=' !in key
    ensures Find(key + "=" + value, '=') == |key|
  {
    var line := key + "=" + value;
    if key != "" {
      assert line[0] == key[0] && line[1..] == key[1..] + "=" + value;
      FindAfter(key[1..], value);
    }
  }

  predicate Keyed(line: string, key: string) {
    |key| < |line| && line[..|key|] == key && line[|key|] == '='
  }

  /** What a line assigns to a key, if it does. */
  function ValueOf(line: string, key: string): seq<string> {
    if Keyed(line, key) then [line[|key| + 1..]] else []
  }

  lemma KeysDiffer(line: string)
    ensures !(Keyed(line, REVIEW_KEY) && Keyed(line, INTERFACE_KEY))
    ensures Inert(line) ==> !Keyed(line, REVIEW_KEY) && !Keyed(line, INTERFACE_KEY)
  {
    assert REVIEW_KEY[14] == 'R' && INTERFACE_KEY[14] == 'I' && REVIEW_KEY[0] == INTERFACE_KEY[0] == 'A';
    if Keyed(line, REVIEW_KEY) { assert line[14] == line[..|REVIEW_KEY|][14] && line[0] == line[..|REVIEW_KEY|][0]; }
    if Keyed(line, INTERFACE_KEY) {
      assert line[14] == line[..|INTERFACE_KEY|][14] && line[0] == line[..|INTERFACE_KEY|][0];
    }
  }

  lemma KeyedForm(line: string, key: string)
    requires Keyed(line, key)
    ensures line == key + "=" + line[|key| + 1..]
  {
  }

  lemma KeyedLine(key: string, value: string)
    requires key != "" && forall c :: c in key ==> KeyChar(c)
    requires value != "" && Clean(value)
    ensures ReadLine(key + "=" + value) == Assign(key, value)
  {
    var line := key + "=" + value;
    FindAfter(key, value);
    assert KeyChar(line[0]) by { assert line[0] == key[0]; }
    assert line[|line| - 1] == value[|value| - 1];
    TrimExact(line);
    assert line[..|key|] == key && line[|key| + 1..] == value;
    forall c | c in line ensures c >= ' ' {
      assert c in key || c == '=' || c in value;
    }
  }

  lemma KeysSpelled()
    ensures forall c :: c in REVIEW_KEY || c in INTERFACE_KEY ==> KeyChar(c)
    ensures REVIEW_KEY != INTERFACE_KEY
  {
    assert REVIEW_KEY[14] == 'R' && INTERFACE_KEY[14] == 'I';
  }

  lemma ReadKeyed(line: string)
    requires ReadLine(line).Review? || ReadLine(line).Interface?
    ensures var read := ReadLine(line);
      var key := if read.Review? then REVIEW_KEY else INTERFACE_KEY;
      Keyed(line, key) && line[|key| + 1..] == read.value && read.value != "" && Clean(read.value)
  {
    var i := Find(line, '=');
    forall c | c in line[i + 1..] ensures c >= ' ' && !IsSpace(c) {
      assert c in line;
    }
  }

  lemma AssignedReads(line: string, value: string)
    requires value != "" && Clean(value)
    ensures ValueOf(line, REVIEW_KEY) == [value] ==> ReadLine(line) == Review(value)
    ensures ValueOf(line, INTERFACE_KEY) == [value] ==> ReadLine(line) == Interface(value)
  {
    KeysSpelled();
    if ValueOf(line, REVIEW_KEY) == [value] {
      KeyedForm(line, REVIEW_KEY);
      KeyedLine(REVIEW_KEY, value);
    }
    if ValueOf(line, INTERFACE_KEY) == [value] {
      KeyedForm(line, INTERFACE_KEY);
      KeyedLine(INTERFACE_KEY, value);
    }
  }

  /** The lines that carry a key: exactly the key, one equals sign, and a clean value. */
  lemma ReadLineExact(line: string, value: string)
    ensures ReadLine(line) == Review(value) <==> ValueOf(line, REVIEW_KEY) == [value] && value != "" && Clean(value)
    ensures ReadLine(line) == Interface(value) <==>
      ValueOf(line, INTERFACE_KEY) == [value] && value != "" && Clean(value)
  {
    if ReadLine(line).Review? || ReadLine(line).Interface? { ReadKeyed(line); }
    if value != "" && Clean(value) { AssignedReads(line, value); }
  }

  // Names and lines, by their characters

  /** Small letters, digits, dots, underscores and dashes, a letter first, two to fifteen of them. */
  predicate NameText(name: string) {
    && 2 <= |name| <= 15 && 'a' <= name[0] <= 'z'
    && forall i :: 0 <= i < |name| ==>
         'a' <= name[i] <= 'z' || '0' <= name[i] <= '9' || name[i] == '.' || name[i] == '_' || name[i] == '-'
  }

  predicate Begins(name: string, prefix: string) {
    |prefix| <= |name| && name[..|prefix|] == prefix
  }

  /** The loopback device, or of an interface class that is the cluster's or the uplink's. */
  ghost predicate Reserved(name: string) {
    name == "lo" || exists k :: 0 <= k < |FORBIDDEN_PREFIXES| && Begins(name, FORBIDDEN_PREFIXES[k])
  }

  /** Allowed are exactly the well-shaped names outside the reserved classes. */
  lemma AllowedExact(name: string)
    ensures Allowed(name) <==> NameText(name) && !Reserved(name)
  {
    if k :| 0 <= k < |FORBIDDEN_PREFIXES| && Begins(name, FORBIDDEN_PREFIXES[k]) {
      assert FORBIDDEN_PREFIXES[k] in FORBIDDEN_PREFIXES && FORBIDDEN_PREFIXES[k] <= name;
    }
    if p :| p in FORBIDDEN_PREFIXES && p <= name {
      var k :| 0 <= k < |FORBIDDEN_PREFIXES| && FORBIDDEN_PREFIXES[k] == p;
      assert Begins(name, FORBIDDEN_PREFIXES[k]);
    }
    assert Shaped(name) <==> NameText(name) by { ShapeExact(name); }
  }

  lemma ShapeExact(name: string)
    ensures Shaped(name) <==> NameText(name)
  {
    if NameText(name) {
      forall c | c in name ensures NameChar(c) {
        var i :| 0 <= i < |name| && name[i] == c;
      }
    }
    if Shaped(name) {
      forall i | 0 <= i < |name| ensures NameChar(name[i]) {
        assert name[i] in name;
      }
    }
  }

  /** No white space at its ends and no control character. */
  predicate Tight(line: string) {
    line != "" && !IsSpace(line[0]) && !IsSpace(line[|line| - 1]) && forall i :: 0 <= i < |line| ==> line[i] >= ' '
  }

  predicate Capitals(key: string) {
    forall i :: 0 <= i < |key| ==> 'A' <= key[i] <= 'Z' || key[i] == '_'
  }

  /** A key of capitals and underscores, an equals sign, and a value. */
  predicate PairIs(line: string, key: string, value: string) {
    line == key + "=" + value && key != "" && value != "" && Capitals(key)
  }

  predicate Spaceless(value: string) {
    forall i :: 0 <= i < |value| ==> !IsSpace(value[i])
  }

  ghost predicate SomePair(line: string) {
    exists key, value :: PairIs(line, key, value)
  }

  ghost predicate UnknownPair(line: string) {
    exists key, value :: PairIs(line, key, value) && key != REVIEW_KEY && key != INTERFACE_KEY
  }

  ghost predicate SpacedPair(line: string) {
    exists value :: Spaced(line, value)
  }

  predicate Spaced(line: string, value: string) {
    (PairIs(line, REVIEW_KEY, value) || PairIs(line, INTERFACE_KEY, value)) && !Spaceless(value)
  }

  /** What a line that is neither empty nor a comment must be to be refused so. */
  ghost predicate RefusedAs(line: string, complaint: Complaint) {
    match complaint
    case LineShapeInvalid => !(Tight(line) && SomePair(line))
    case KeyUnsupported => Tight(line) && UnknownPair(line)
    case ValueWhitespaceAmbiguous => Tight(line) && SpacedPair(line)
    case _ => false
  }

  /** What a line must be to be read so. */
  ghost predicate LineIs(line: string, read: Line) {
    match read
    case Silent => Inert(line)
    case Bad(complaint) => !Inert(line) && RefusedAs(line, complaint)
    case Review(value) => Tight(line) && PairIs(line, REVIEW_KEY, value) && Spaceless(value)
    case Interface(value) => Tight(line) && PairIs(line, INTERFACE_KEY, value) && Spaceless(value)
  }

  lemma CapitalsExact(key: string)
    ensures (exists c :: c in key && !KeyChar(c)) <==> !Capitals(key)
  {
    if c :| c in key && !KeyChar(c) {
      var i :| 0 <= i < |key| && key[i] == c;
    }
    if !Capitals(key) {
      var i :| 0 <= i < |key| && !('A' <= key[i] <= 'Z' || key[i] == '_');
      assert key[i] in key && !KeyChar(key[i]);
    }
  }

  lemma SpacelessExact(value: string)
    ensures (exists c :: c in value && IsSpace(c)) <==> !Spaceless(value)
  {
    if c :| c in value && IsSpace(c) {
      var i :| 0 <= i < |value| && value[i] == c;
    }
    if i :| 0 <= i < |value| && IsSpace(value[i]) {
      assert value[i] in value;
    }
  }

  lemma TightExact(line: string)
    requires line != ""
    ensures line != Trim(line) || (exists c :: c in line && c < ' ') <==> !Tight(line)
  {
    if line == Trim(line) {
      assert TrimLeft(line) != "";
      TrimmedEnds(line);
    }
    if !IsSpace(line[0]) && !IsSpace(line[|line| - 1]) { TrimExact(line); }
    if c :| c in line && c < ' ' {
      var i :| 0 <= i < |line| && line[i] == c;
    }
    if i :| 0 <= i < |line| && line[i] < ' ' {
      assert line[i] in line;
    }
  }

  lemma TrimmedEnds(line: string)
    requires line != "" && Trim(line) == line
    ensures !IsSpace(line[0]) && !IsSpace(line[|line| - 1])
  {
    var n := TrimRightBlank(TrimLeft(line));
    var k := TrimLeftBlank(line);
    assert |TrimLeft(line)| <= |line|;
    assert TrimLeft(line) == line;
  }

  /** The first equals sign decides what the pair is. */
  lemma PairPlace(line: string, key: string, value: string)
    requires PairIs(line, key, value)
    ensures var i := Find(line, '=');
            0 < i < |line| - 1 && line[..i] == key && line[i + 1..] == value
  {
    assert '=' !in key;
    FindAfter(key, value);
  }

  lemma CutAt(line: string, i: nat)
    requires i < |line| && line[i] == '='
    ensures line == line[..i] + "=" + line[i + 1..]
  {
  }

  lemma PairRead(line: string, i: nat)
    requires i == Find(line, '=')
    ensures SomePair(line) <==> 0 < i < |line| - 1 && Capitals(line[..i])
    ensures SomePair(line) ==> PairIs(line, line[..i], line[i + 1..])
  {
    if 0 < i < |line| - 1 && Capitals(line[..i]) {
      CutAt(line, i);
      assert PairIs(line, line[..i], line[i + 1..]);
    }
    if key, value :| PairIs(line, key, value) { PairPlace(line, key, value); }
  }

  /** The reading of a line, exactly: each outcome told from the characters of the line. */
  lemma ReadLineIs(line: string, read: Line)
    ensures ReadLine(line) == read <==> LineIs(line, read)
  {
    if !Inert(line) {
      var i := Find(line, '=');
      TightExact(line);
      PairRead(line, i);
      if Tight(line) && SomePair(line) {
        PairAssigned(line, line[..i], line[i + 1..]);
        AssignIs(line, line[..i], line[i + 1..], read);
      } else if i + 1 < |line| && i > 0 {
        CapitalsExact(line[..i]);
      }
    }
  }

  lemma PairAssigned(line: string, key: string, value: string)
    requires Tight(line) && !Inert(line) && PairIs(line, key, value)
    ensures ReadLine(line) == Assign(key, value)
  {
    TightExact(line);
    PairPlace(line, key, value);
  }

  lemma AssignIs(line: string, key: string, value: string, read: Line)
    requires Tight(line) && !Inert(line) && PairIs(line, key, value)
    ensures Assign(key, value) == read <==> LineIs(line, read)
  {
    CapitalsExact(key);
    SpacelessExact(value);
    KeysSpelled();
    forall k, v | PairIs(line, k, v) ensures k == key && v == value {
      PairPlace(line, k, v);
      PairPlace(line, key, value);
    }
    assert Spaced(line, value) <==> (key == REVIEW_KEY || key == INTERFACE_KEY) && !Spaceless(value);
  }

  predicate Inert(line: string) { line == "" || line[0] == '#' }

  /** A line of a contract without errors. */
  predicate GoodLine(line: string) {
    || Inert(line)
    || ValueOf(line, REVIEW_KEY) == ["yes"]
    || ValueOf(line, REVIEW_KEY) == ["no"]
    || (Keyed(line, INTERFACE_KEY) && Allowed(line[|INTERFACE_KEY| + 1..]))
  }

  predicate GoodRead(read: Line) {
    read.Silent? || (read.Review? && read.value in ["yes", "no"]) || (read.Interface? && Allowed(read.value))
  }

  function ReviewIn(read: Line): seq<string> { if read.Review? then [read.value] else [] }

  function InterfaceIn(read: Line): seq<string> { if read.Interface? then [read.value] else [] }

  lemma AllowedClean(name: string)
    ensures Allowed(name) ==> Clean(name) && name != ""
    ensures Clean("yes") && Clean("no")
  {
  }

  lemma LineMeans(line: string)
    ensures GoodLine(line) <==> GoodRead(ReadLine(line))
    ensures GoodLine(line) ==>
      ReviewIn(ReadLine(line)) == ValueOf(line, REVIEW_KEY)
        && InterfaceIn(ReadLine(line)) == ValueOf(line, INTERFACE_KEY)
  {
    var read := ReadLine(line);
    KeysDiffer(line);
    AllowedClean("yes");
    if read.Interface? || read.Review? { ReadLineExact(line, read.value); }
    if Keyed(line, REVIEW_KEY) { ReadLineExact(line, line[|REVIEW_KEY| + 1..]); }
    if Keyed(line, INTERFACE_KEY) {
      AllowedClean(line[|INTERFACE_KEY| + 1..]);
      ReadLineExact(line, line[|INTERFACE_KEY| + 1..]);
    }
    assert read.Silent? <==> Inert(line);
  }

  /** What the lines assign to a key, from the top. */
  function Values(lines: seq<string>, key: string): seq<string> {
    if lines == [] then [] else Values(lines[..|lines| - 1], key) + ValueOf(lines[|lines| - 1], key)
  }

  predicate GoodCounts(reviews: seq<string>, interfaces: seq<string>) {
    |reviews| <= 1 && Distinct(interfaces) && |interfaces| <= MAX_INTERFACES
  }

  lemma EnterMeans(s: Contract, read: Line, n: nat)
    requires s.errors == [] ==> GoodCounts(s.reviews, s.interfaces)
    ensures Enter(s, read, n).errors == [] <==>
      s.errors == [] && GoodRead(read) && GoodCounts(s.reviews + ReviewIn(read), s.interfaces + InterfaceIn(read))
    ensures Enter(s, read, n).errors == [] ==>
      Enter(s, read, n) == Contract([], s.reviews + ReviewIn(read), s.interfaces + InterfaceIn(read))
  {
    if read.Interface? {
      AppendDistinct(s.interfaces, read.value);
    } else {
      assert s.interfaces + InterfaceIn(read) == s.interfaces;
      if !read.Review? { assert s.reviews + ReviewIn(read) == s.reviews; }
    }
  }

  predicate GoodLines(lines: seq<string>) {
    (forall line :: line in lines ==> GoodLine(line)) &&
    GoodCounts(Values(lines, REVIEW_KEY), Values(lines, INTERFACE_KEY))
  }

  lemma CountsBefore(reviews: seq<string>, r: seq<string>, interfaces: seq<string>, i: seq<string>)
    requires GoodCounts(reviews + r, interfaces + i)
    ensures GoodCounts(reviews, interfaces)
  {
    var all := interfaces + i;
    assert forall k :: 0 <= k < |interfaces| ==> all[k] == interfaces[k];
  }

  /** What a line that was read so assigns. */
  predicate Meant(line: string, read: Line) {
    && (GoodLine(line) <==> GoodRead(read))
    && (GoodLine(line) ==>
          ReviewIn(read) == ValueOf(line, REVIEW_KEY) && InterfaceIn(read) == ValueOf(line, INTERFACE_KEY))
  }

  predicate AllMeant(lines: seq<string>, read: seq<Line>) {
    |lines| == |read| && forall i :: 0 <= i < |lines| ==> Meant(lines[i], read[i])
  }

  /** The state after lines without errors. */
  predicate Summed(s: Contract, lines: seq<string>) {
    && (s.errors == [] <==> GoodLines(lines))
    && (GoodLines(lines) ==> s == Contract([], Values(lines, REVIEW_KEY), Values(lines, INTERFACE_KEY)))
  }

  lemma {:induction false} StepsMean(lines: seq<string>, read: seq<Line>)
    requires AllMeant(lines, read)
    ensures Summed(Steps(read), lines)
  {
    if lines != [] {
      var last := |lines| - 1;
      StepsMean(lines[..last], read[..last]);
      assert Meant(lines[last], read[last]);
      StepMeans(lines, lines[..last], lines[last], read[last], Steps(read[..last]));
    }
  }

  lemma StepMeans(lines: seq<string>, front: seq<string>, line: string, read: Line, s: Contract)
    requires lines == front + [line] && Meant(line, read) && Summed(s, front)
    ensures Summed(Enter(s, read, |lines|), lines)
  {
    assert lines[..|lines| - 1] == front;
    EnterMeans(s, read, |lines|);
    if GoodLines(lines) {
      CountsBefore(
        Values(front, REVIEW_KEY), ValueOf(line, REVIEW_KEY),
        Values(front, INTERFACE_KEY), ValueOf(line, INTERFACE_KEY));
      assert forall x :: x in front ==> x in lines;
      assert GoodLines(front);
    }
  }

  lemma ContractMeans(lines: seq<string>)
    ensures Summed(Steps(Reads(lines)), lines)
  {
    var read := Reads(lines);
    forall i | 0 <= i < |lines| ensures Meant(lines[i], read[i]) { LineMeans(lines[i]); }
    StepsMean(lines, read);
  }

  /** A line an accepted contract may hold. */
  predicate AcceptedLine(line: string) {
    || Inert(line)
    || ValueOf(line, REVIEW_KEY) == ["yes"]
    || (Keyed(line, INTERFACE_KEY) && Allowed(line[|INTERFACE_KEY| + 1..]))
  }

  predicate AllAccepted(lines: seq<string>) {
    forall line :: line in lines ==> AcceptedLine(line)
  }

  lemma GoodAndReviewed(lines: seq<string>)
    ensures (forall line :: line in lines ==> GoodLine(line)) && Values(lines, REVIEW_KEY) == ["yes"] <==>
            AllAccepted(lines) && Values(lines, REVIEW_KEY) == ["yes"]
  {
    assert "no"[0] != "yes"[0];
    if Values(lines, REVIEW_KEY) == ["yes"] {
      forall line | line in lines ensures ValueOf(line, REVIEW_KEY) != ["no"] {
        if ValueOf(line, REVIEW_KEY) == ["no"] { ValueListed(lines, REVIEW_KEY, line); }
      }
    }
  }

  /** The contract is accepted exactly when every line is inert, the review line, or the
      declaration of an allowed interface; the review line says yes and stands once; and
      the declared interfaces, between one and sixteen, are distinct. */
  lemma AcceptedExact(text: string, interfaces: seq<string>)
    ensures ReadContract(text) == Ok(interfaces) <==>
      var lines := Split(text, '\n');
      && AllAccepted(lines) && Values(lines, REVIEW_KEY) == ["yes"] && interfaces == Values(lines, INTERFACE_KEY)
      && Distinct(interfaces) && 1 <= |interfaces| <= MAX_INTERFACES
  {
    var lines := Split(text, '\n');
    ContractMeans(lines);
    GoodAndReviewed(lines);
    var reviews := Values(lines, REVIEW_KEY);
    assert |reviews| == 1 && reviews[0] == "yes" <==> reviews == ["yes"];
  }

  lemma {:induction false} ValueListed(lines: seq<string>, key: string, line: string)
    requires line in lines && Keyed(line, key)
    ensures line[|key| + 1..] in Values(lines, key)
  {
    var last := |lines| - 1;
    assert lines == lines[..last] + [lines[last]];
    if line != lines[last] {
      ValueListed(lines[..last], key, line);
    } else {
      assert ValueOf(line, key)[0] in Values(lines, key);
    }
  }

  lemma {:induction false} ValuesFrom(lines: seq<string>, key: string, name: string)
    requires name in Values(lines, key)
    ensures exists line :: line in lines && ValueOf(line, key) == [name]
  {
    var last := |lines| - 1;
    assert lines == lines[..last] + [lines[last]];
    if name in Values(lines[..last], key) {
      ValuesFrom(lines[..last], key, name);
      var line :| line in lines[..last] && ValueOf(line, key) == [name];
      assert line in lines;
    } else {
      assert lines[last] in lines;
    }
  }

  /** What the ruleset verifier relies on: distinct allowed interfaces. */
  lemma AcceptedInterfaces(text: string)
    requires ReadContract(text).Ok?
    ensures var names := ReadContract(text).value;
      1 <= |names| <= MAX_INTERFACES && Distinct(names) && forall name :: name in names ==> Allowed(name)
  {
    var names := ReadContract(text).value;
    var lines := Split(text, '\n');
    AcceptedExact(text, names);
    forall name | name in names ensures Allowed(name) {
      ValuesFrom(lines, INTERFACE_KEY, name);
      var line :| line in lines && ValueOf(line, INTERFACE_KEY) == [name];
      KeysDiffer(line);
      assert AcceptedLine(line);
    }
  }

  function Declaration(name: string): string {
    INTERFACE_KEY + "=" + name
  }

  function Written(names: seq<string>): seq<string> {
    if names == [] then [REVIEW_KEY + "=yes"] else Written(names[..|names| - 1]) + [Declaration(names[|names| - 1])]
  }

  lemma Assignment(key: string, value: string)
    ensures ValueOf(key + "=" + value, key) == [value]
  {
    var line := key + "=" + value;
    assert line[..|key|] == key && line[|key| + 1..] == value;
  }

  lemma ReviewLine()
    ensures ValueOf(REVIEW_KEY + "=yes", REVIEW_KEY) == ["yes"]
    ensures ValueOf(REVIEW_KEY + "=yes", INTERFACE_KEY) == []
  {
    assert REVIEW_KEY + "=yes" == REVIEW_KEY + "=" + "yes";
    Assignment(REVIEW_KEY, "yes");
    KeysDiffer(REVIEW_KEY + "=yes");
  }

  predicate AcceptedLines(lines: seq<string>) {
    forall line :: line in lines ==> AcceptedLine(line) && '\n' !in line
  }

  lemma DeclarationReads(front: seq<string>, names: seq<string>, name: string)
    requires Allowed(name) && AcceptedLines(front)
    requires Values(front, INTERFACE_KEY) == names && Values(front, REVIEW_KEY) == ["yes"]
    ensures var lines := front + [Declaration(name)];
      AcceptedLines(lines) && Values(lines, INTERFACE_KEY) == names + [name] && Values(lines, REVIEW_KEY) == ["yes"]
  {
    var line := Declaration(name);
    var lines := front + [line];
    assert lines[..|front|] == front;
    Assignment(INTERFACE_KEY, name);
    KeysDiffer(line);
    assert '\n' !in line by {
      assert !NameChar('\n') && !KeyChar('\n');
      KeysSpelled();
      assert forall c :: c in line ==> c in INTERFACE_KEY || c == '=' || c in name;
    }
    assert AcceptedLine(line);
  }

  lemma NothingWritten(names: seq<string>)
    requires names == []
    ensures Values(Written(names), INTERFACE_KEY) == names && Values(Written(names), REVIEW_KEY) == ["yes"]
    ensures AcceptedLines(Written(names))
  {
    ReviewLine();
    var none: seq<string> := [];
    assert Written(names)[..0] == none;
  }

  lemma {:induction false} WrittenReads(names: seq<string>)
    requires forall name :: name in names ==> Allowed(name)
    ensures Values(Written(names), INTERFACE_KEY) == names && Values(Written(names), REVIEW_KEY) == ["yes"]
    ensures AcceptedLines(Written(names))
  {
    if names == [] {
      NothingWritten(names);
    } else {
      var last := |names| - 1;
      WrittenReads(names[..last]);
      DeclarationReads(Written(names[..last]), names[..last], names[last]);
      assert names == names[..last] + [names[last]];
    }
  }

  lemma AcceptedLinesRead(body: seq<string>, names: seq<string>)
    requires Distinct(names) && 1 <= |names| <= MAX_INTERFACES
    requires Values(body, INTERFACE_KEY) == names && Values(body, REVIEW_KEY) == ["yes"] && AcceptedLines(body)
    ensures ReadContract(Join(body + [""], '\n')) == Ok(names)
  {
    var lines := body + [""];
    forall i | 0 <= i < |lines| ensures '\n' !in lines[i] {
      assert i < |body| ==> lines[i] in body;
    }
    SplitJoin(lines, '\n');
    assert lines[..|body|] == body && lines[|body|] == "";
    AcceptedExact(Join(lines, '\n'), names);
  }

  /** Every list of interfaces the rules admit can be declared: the review line and one line
      an interface, each ended by a newline, reads back as that list. */
  lemma WrittenContractReads(names: seq<string>)
    requires Distinct(names) && 1 <= |names| <= MAX_INTERFACES && forall name :: name in names ==> Allowed(name)
    ensures ReadContract(Join(Written(names) + [""], '\n')) == Ok(names)
  {
    WrittenReads(names);
    AcceptedLinesRead(Written(names), names);
  }
}
