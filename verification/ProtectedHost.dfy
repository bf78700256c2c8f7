/** Mount topology and archive roots of the protected-host contract
    (scripts/validate_protected_host_contract.py).

    A `Path` is what pathlib calls `parts`: the root element, "/" or "//", and
    then the components. Containment of paths is then the prefix order. */
module ProtectedHost {
  import opened Text

  type Path = p: seq<string> | |p| > 0 witness ["/"]

  // --------------------------------------------------------------------------
  // Paths as text

  predicate Component(s: string) {
    s != "" && s != "." && s != ".." && '/' !in s
  }

  predicate Components(parts: seq<string>) {
    forall i :: 0 <= i < |parts| ==> Component(parts[i])
  }

  /** An absolute path equal to its own `posixpath.normpath`, as its parts.
      POSIX keeps exactly two leading slashes apart from one. */
  function ParsePath(s: string): (r: Option<Path>)
    ensures r.Some? ==> Components(r.value[1..])
  {
    if s == "/" || s == "//" then Some([s])
    else
      var root := if |s| > 1 && s[..2] == "//" then "//" else "/";
      if !(root <= s) then None
      else
        var parts := Split(s[|root|..], '/');
        if Components(parts) then
          assert ([root] + parts)[1..] == parts;
          Some([root] + parts)
        else None
  }

  /** `str(PurePosixPath)`. */
  function RenderPath(p: Path): string {
    p[0] + Join(p[1..], '/')
  }

  lemma ParsePathRenders(s: string)
    requires ParsePath(s).Some?
    ensures RenderPath(ParsePath(s).value) == s
  {
    if s != "/" && s != "//" {
      var root := if |s| > 1 && s[..2] == "//" then "//" else "/";
      var parts := Split(s[|root|..], '/');
      JoinSplit(s[|root|..], '/');
      assert ([root] + parts)[1..] == parts;
      assert s == root + s[|root|..];
    }
  }

  lemma RenderPathParses(p: Path)
    requires p[0] == "/" || p[0] == "//"
    requires Components(p[1..])
    ensures ParsePath(RenderPath(p)) == Some(p)
  {
    var parts := p[1..];
    assert p == [p[0]] + parts;
    if parts == [] {
      assert RenderPath(p) == p[0] + "" == p[0];
      assert p == [p[0]];
    } else {
      SplitJoin(parts, '/');
      var body := Join(parts, '/');
      var s := p[0] + body;
      assert Component(parts[0]);
      assert parts[0][0] in parts[0];
      assert |s| > |p[0]| && s[|p[0]|] == parts[0][0] != '/';
      assert s[|p[0]|..] == body;
      assert (s[..2] == "//") <==> p[0] == "//";
      assert p[0] <= s;
    }
  }

  // --------------------------------------------------------------------------
  // Octal escapes of mountinfo fields

  predicate Escaped(c: char) {
    c == ' ' || c == '\t' || c == '\n' || c == '\\'
  }

  function EscapeCode(c: char): string
    requires Escaped(c)
  {
    match c
    case ' ' => "040"
    case '\t' => "011"
    case '\n' => "012"
    case _ => "134"
  }

  /** What the kernel writes for a path. */
  function Escape(path: string): string {
    if path == "" then ""
    else (if Escaped(path[0]) then "\\" + EscapeCode(path[0]) else [path[0]]) + Escape(path[1..])
  }

  function DecodeCode(code: string): Option<char> {
    if code == "040" then Some(' ')
    else if code == "011" then Some('\t')
    else if code == "012" then Some('\n')
    else if code == "134" then Some('\\')
    else None
  }

  /** `_mountinfo_unescape`: any other use of a backslash refuses the value. */
  function Unescape(value: string): Option<string> {
    if value == "" then Some("")
    else if value[0] != '\\' then
      match Unescape(value[1..])
      case Some(rest) => Some([value[0]] + rest)
      case None => None
    else if |value| >= 4 && DecodeCode(value[1..4]).Some? then
      match Unescape(value[4..])
      case Some(rest) => Some([DecodeCode(value[1..4]).value] + rest)
      case None => None
    else None
  }

  /** Unescaping inverts the kernel's escaping on every path... */
  lemma {:induction false} UnescapeEscape(path: string)
    ensures Unescape(Escape(path)) == Some(path)
  {
    if path != "" {
      UnescapeEscape(path[1..]);
      var rest := Escape(path[1..]);
      assert path == [path[0]] + path[1..];
      if Escaped(path[0]) {
        var code := EscapeCode(path[0]);
        var head := "\\" + code;
        assert Escape(path) == head + rest;
        assert (head + rest)[1..4] == code;
        assert (head + rest)[4..] == rest;
      } else {
        assert ([path[0]] + rest)[1..] == rest;
      }
    }
  }

  /** ...and, on a field that `split` left without raw separators, accepts
      nothing but the kernel's own spelling of the path. */
  lemma {:induction false} UnescapeExact(value: string, path: string)
    requires forall i :: 0 <= i < |value| ==> value[i] !in " \t\n"
    ensures Unescape(value) == Some(path) <==> value == Escape(path)
  {
    UnescapeEscape(path);
    if Unescape(value) == Some(path) && value != "" {
      if value[0] == '\\' {
        UnescapeExact(value[4..], path[1..]);
        CodeSpelled(value, path);
      } else {
        UnescapeExact(value[1..], path[1..]);
        assert value == [value[0]] + value[1..];
      }
    }
  }

  lemma CodeSpelled(value: string, path: string)
    requires value != "" && value[0] == '\\' && Unescape(value) == Some(path)
    requires value[4..] == Escape(path[1..])
    ensures value == Escape(path)
  {
    assert value == value[..1] + value[1..4] + value[4..];
    assert EscapeCode(path[0]) == value[1..4];
  }

  // --------------------------------------------------------------------------
  // Selecting the one mount that carries an archive

  datatype MountRecord = MountRecord(
    mountId: int, parentId: int, device: string,
    root: Path, mountPoint: Path, filesystem: string)

  datatype Refusal =
    | DuplicateIds | Stacked | DescendantMount
    | NoMount | UnsupportedFilesystem | ExternalAlias

  datatype Selection = Mounted(record: MountRecord) | Refused(reason: Refusal)

  const DURABLE_FILESYSTEMS: set<string> := {"btrfs", "ext4", "f2fs", "xfs", "zfs"}

  predicate DistinctIds(records: seq<MountRecord>) {
    forall i, j :: 0 <= i < j < |records| ==> records[i].mountId != records[j].mountId
  }

  /** `_paths_overlap`. */
  predicate Overlap(first: Path, second: Path) {
    first <= second || second <= first
  }

  function Filter<T(!new)>(s: seq<T>, keep: T -> bool): (r: seq<T>)
    ensures forall x :: x in r <==> x in s && keep(x)
  {
    if s == [] then []
    else if keep(s[0]) then [s[0]] + Filter(s[1..], keep)
    else Filter(s[1..], keep)
  }

  predicate DistinctPoints(records: seq<MountRecord>) {
    forall i, j :: 0 <= i < j < |records| ==> records[i].mountPoint != records[j].mountPoint
  }

  /** `max(candidates, key=lambda item: len(item.mount_point.parts))`: the first longest. */
  function Deepest(candidates: seq<MountRecord>): (r: MountRecord)
    requires candidates != []
    ensures r in candidates
    ensures forall c :: c in candidates ==> |c.mountPoint| <= |r.mountPoint|
  {
    if |candidates| == 1 then candidates[0]
    else
      var best := Deepest(candidates[1..]);
      if |candidates[0].mountPoint| >= |best.mountPoint| then candidates[0] else best
  }

  function Relevant(target: Path, records: seq<MountRecord>): seq<MountRecord> {
    Filter(records, (r: MountRecord) => Overlap(r.mountPoint, target))
  }

  /** `_mount_record_from_records`. */
  function Select(target: Path, records: seq<MountRecord>): Selection {
    if !DistinctIds(records) then Refused(DuplicateIds)
    else
      var relevant := Relevant(target, records);
      if !DistinctPoints(relevant) then Refused(Stacked)
      else if exists r :: r in relevant && target < r.mountPoint then Refused(DescendantMount)
      else
        var candidates := Filter(relevant, (r: MountRecord) => r.mountPoint <= target);
        if candidates == [] then Refused(NoMount)
        else
          var selected := Deepest(candidates);
          if selected.filesystem !in DURABLE_FILESYSTEMS then Refused(UnsupportedFilesystem)
          else
            var archiveRoot := selected.root + target[|selected.mountPoint|..];
            if exists r :: r in records && r.mountId != selected.mountId &&
                           r.device == selected.device && Overlap(r.root, archiveRoot)
            then Refused(ExternalAlias)
            else Mounted(selected)
  }

  // --------------------------------------------------------------------------
  // What path resolution means

  predicate Carries(r: MountRecord, p: Path) {
    r.mountPoint <= p
  }

  /** Where `p` lands inside the filesystem when it is resolved through `r`. */
  function FilePath(r: MountRecord, p: Path): Path
    requires Carries(r, p)
  {
    r.root + p[|r.mountPoint|..]
  }

  /** The kernel resolves `p` through the deepest mount on the way to it. */
  ghost predicate ResolvesThrough(records: seq<MountRecord>, m: MountRecord, p: Path) {
    && m in records && Carries(m, p)
    && forall r :: r in records && Carries(r, p) ==> r == m || |r.mountPoint| < |m.mountPoint|
  }

  /** Some path under `r`'s mount point leads into the subtree at `top`. */
  ghost predicate Reaches(r: MountRecord, device: string, top: Path) {
    r.device == device && exists p: Path :: Carries(r, p) && top <= FilePath(r, p)
  }

  /** The mounts around `target` sit at pairwise different mount points. */
  ghost predicate Unstacked(target: Path, records: seq<MountRecord>) {
    forall r, s :: r in records && s in records && r.mountId != s.mountId &&
                   Overlap(r.mountPoint, target) && Overlap(s.mountPoint, target)
                   ==> r.mountPoint != s.mountPoint
  }

  ghost predicate CarriesWholeTree(records: seq<MountRecord>, m: MountRecord, target: Path) {
    forall p: Path :: target <= p ==> ResolvesThrough(records, m, p)
  }

  ghost predicate SoleReach(records: seq<MountRecord>, m: MountRecord, target: Path)
    requires Carries(m, target)
  {
    forall r :: r in records && r.mountId != m.mountId ==> !Reaches(r, m.device, FilePath(m, target))
  }

  lemma SameIdSameRecord(records: seq<MountRecord>, r: MountRecord, s: MountRecord)
    requires DistinctIds(records) && r in records && s in records && r.mountId == s.mountId
    ensures r == s
  {
  }

  /** Overlap of a record's root with a subtree is exactly reaching into it. */
  lemma OverlapIsReach(r: MountRecord, device: string, top: Path)
    ensures Reaches(r, device, top) <==> r.device == device && Overlap(r.root, top)
  {
    if r.device == device && Overlap(r.root, top) {
      var rest := if r.root <= top then top[|r.root|..] else [];
      var p: Path := r.mountPoint + rest;
      assert p[|r.mountPoint|..] == rest;
      assert top <= FilePath(r, p);
    }
    if Reaches(r, device, top) {
      var p: Path :| Carries(r, p) && top <= FilePath(r, p);
      assert r.root <= FilePath(r, p);
      if |r.root| <= |top| {
        assert r.root == FilePath(r, p)[..|r.root|] == top[..|r.root|];
      } else {
        assert top == FilePath(r, p)[..|top|] == r.root[..|top|];
      }
    }
  }

  lemma {:induction false} FilterKeepsDistinct(records: seq<MountRecord>, keep: MountRecord -> bool)
    requires DistinctIds(records)
    ensures DistinctIds(Filter(records, keep))
  {
    if records != [] {
      FilterKeepsDistinct(records[1..], keep);
      var rest := Filter(records[1..], keep);
      forall r | r in rest ensures r.mountId != records[0].mountId {
        assert r in records[1..];
      }
    }
  }

  lemma UnstackedIsDistinctPoints(target: Path, records: seq<MountRecord>)
    requires DistinctIds(records)
    ensures Unstacked(target, records) <==> DistinctPoints(Relevant(target, records))
  {
    var keep := (r: MountRecord) => Overlap(r.mountPoint, target);
    var relevant := Filter(records, keep);
    FilterKeepsDistinct(records, keep);
    assert forall r :: r in relevant <==> r in records && Overlap(r.mountPoint, target);
    if Unstacked(target, records) {
      forall i, j | 0 <= i < j < |relevant|
        ensures relevant[i].mountPoint != relevant[j].mountPoint
      {
        assert relevant[i] in records && relevant[j] in records;
      }
    }
  }

  /** A record holding a path below `target` but nothing at `target` shows itself at its own
      mount point, so carrying the whole tree means: deepest at `target`, none below it. */
  lemma CarriesWholeTreeMeans(records: seq<MountRecord>, m: MountRecord, target: Path)
    ensures CarriesWholeTree(records, m, target) <==>
            ResolvesThrough(records, m, target) &&
            forall r :: r in records ==> !(target < r.mountPoint)
  {
    if CarriesWholeTree(records, m, target) {
      assert ResolvesThrough(records, m, target);
      forall r | r in records && target < r.mountPoint ensures false {
        assert ResolvesThrough(records, m, r.mountPoint);
        assert Carries(r, r.mountPoint);
      }
    }
    if ResolvesThrough(records, m, target) && forall r :: r in records ==> !(target < r.mountPoint) {
      forall p: Path | target <= p ensures ResolvesThrough(records, m, p) {
        forall r | r in records && Carries(r, p) ensures r == m || |r.mountPoint| < |m.mountPoint| {
          if |r.mountPoint| <= |target| {
            assert r.mountPoint == p[..|r.mountPoint|] == target[..|r.mountPoint|];
            assert Carries(r, target);
          }
        }
      }
    }
  }

  lemma AliasScanMeans(records: seq<MountRecord>, m: MountRecord, target: Path)
    requires Carries(m, target)
    ensures SoleReach(records, m, target) <==>
            !exists r :: r in records && r.mountId != m.mountId &&
                         r.device == m.device && Overlap(r.root, FilePath(m, target))
  {
    forall r: MountRecord
      ensures Reaches(r, m.device, FilePath(m, target)) <==>
              r.device == m.device && Overlap(r.root, FilePath(m, target))
    {
      OverlapIsReach(r, m.device, FilePath(m, target));
    }
  }

  /** The mount chosen once no mount lies below the target. */
  lemma DeepestResolves(target: Path, records: seq<MountRecord>, m: MountRecord)
    requires DistinctIds(records) && Unstacked(target, records)
    ensures var candidates := Filter(Relevant(target, records), (r: MountRecord) => r.mountPoint <= target);
            ResolvesThrough(records, m, target) <==> candidates != [] && Deepest(candidates) == m
  {
    var keep := (r: MountRecord) => r.mountPoint <= target;
    var candidates := Filter(Relevant(target, records), keep);
    assert forall r :: r in candidates <==> r in records && r.mountPoint <= target;
    if ResolvesThrough(records, m, target) {
      assert m in candidates;
      assert Deepest(candidates) in candidates;
    }
    if candidates != [] && Deepest(candidates) == m {
      assert m in candidates;
      forall r | r in records && Carries(r, target) ensures r == m || |r.mountPoint| < |m.mountPoint| {
        assert r in candidates;
        if |r.mountPoint| == |m.mountPoint| {
          assert r.mountPoint == target[..|r.mountPoint|] == m.mountPoint;
          if r.mountId == m.mountId {
            SameIdSameRecord(records, r, m);
          }
        }
      }
    }
  }

  /** A mount is returned exactly when the record identifiers are distinct, no two mounts
      around the target are stacked, every path at or below the target resolves through that
      mount, its filesystem is durable, and no other record reaches the archive's files. */
  lemma SelectExact(target: Path, records: seq<MountRecord>, m: MountRecord)
    ensures Select(target, records) == Mounted(m) <==>
            && DistinctIds(records)
            && Unstacked(target, records)
            && CarriesWholeTree(records, m, target)
            && Carries(m, target)
            && m.filesystem in DURABLE_FILESYSTEMS
            && SoleReach(records, m, target)
  {
    if DistinctIds(records) && Unstacked(target, records) {
      UnstackedIsDistinctPoints(target, records);
      CarriesWholeTreeMeans(records, m, target);
      DeepestResolves(target, records, m);
      var relevant := Relevant(target, records);
      assert (exists r :: r in relevant && target < r.mountPoint) <==>
             (exists r :: r in records && target < r.mountPoint);
      if Carries(m, target) {
        AliasScanMeans(records, m, target);
      }
    } else if DistinctIds(records) {
      UnstackedIsDistinctPoints(target, records);
    }
  }

  /** Paths below one mount point are nested as what they lead to. */
  lemma PrefixBelow(root: Path, point: Path, target: Path, p: Path)
    requires point <= target && point <= p && root + target[|point|..] <= root + p[|point|..]
    ensures target <= p
  {
    var inner, rest := target[|point|..], p[|point|..];
    assert rest[..|inner|] == (root + rest)[|root|..|root| + |inner|] == inner;
    assert target == point + inner && p == point + rest;
  }

  /** Alias freedom: below an accepted target everything resolves through its mount, and a
      path that any record at all leads to one of the archive's files is itself below the
      target and resolves through that same mount. */
  lemma AliasFreedom(target: Path, records: seq<MountRecord>, r: MountRecord, p: Path)
    requires Select(target, records).Mounted?
    requires r in records && Carries(r, p)
    ensures var m := Select(target, records).record;
            && Carries(m, target)
            && (target <= p ==> ResolvesThrough(records, m, p))
            && (r.device == m.device && FilePath(m, target) <= FilePath(r, p) ==> target <= p && r == m)
  {
    var m := Select(target, records).record;
    SelectExact(target, records, m);
    if r.device == m.device && FilePath(m, target) <= FilePath(r, p) {
      assert Reaches(r, m.device, FilePath(m, target));
      assert ResolvesThrough(records, m, target);
      SameIdSameRecord(records, r, m);
      PrefixBelow(m.root, m.mountPoint, target, p);
    }
  }

  // --------------------------------------------------------------------------
  // The archive roots of a contract

  predicate RootCharacter(c: char) {
    'A' <= c <= 'Z' || 'a' <= c <= 'z' || '0' <= c <= '9' || c in "_@+~.-"
  }

  predicate RootSegment(s: string) {
    s != "" && s != "." && s != ".." && forall i :: 0 <= i < |s| ==> RootCharacter(s[i])
  }

  /** The canonical absolute path a declaration names, if it names one. */
  function ParseRoot(value: string): Option<Path> {
    if value == "" || value[0] != '/' then None
    else
      var parts := Split(value[1..], '/');
      if forall i :: 0 <= i < |parts| ==> RootSegment(parts[i]) then Some(["/"] + parts) else None
  }

  /** Fewest path parts, counting the leading "/", below each operator-data hierarchy. */
  function MinimumParts(hierarchy: string): Option<nat> {
    if hierarchy == "home" then Some(4)
    else if hierarchy in {"media", "mnt", "opt", "srv"} then Some(3)
    else None
  }

  predicate Dedicated(root: Path) {
    var minimum := MinimumParts(if |root| > 1 then root[1] else "");
    minimum.Some? && |root| >= minimum.value
  }

  datatype RootError = Duplicate(at: nat) | NotCanonical(at: nat) | TooBroad(at: nat) | Overlaps(at: nat)

  ghost predicate OverlapsEarlier(roots: seq<Option<Path>>, at: nat)
    requires at < |roots|
  {
    roots[at].Some? &&
    exists k :: 0 <= k < at && roots[k].Some? &&
                (roots[at].value < roots[k].value || roots[k].value < roots[at].value)
  }

  /** The errors that declaration `at` deserves. */
  ghost predicate Deserves(values: seq<string>, roots: seq<Option<Path>>, e: RootError)
    requires |values| == |roots| && e.at < |values|
  {
    match e
    case Duplicate(at) => values[at] in values[..at]
    case NotCanonical(at) => roots[at] == None
    case TooBroad(at) => roots[at].Some? && !Dedicated(roots[at].value)
    case Overlaps(at) => OverlapsEarlier(roots, at)
  }

  ghost predicate ErrorsAre(values: seq<string>, roots: seq<Option<Path>>, errors: set<RootError>)
    requires |values| == |roots|
  {
    forall e: RootError :: e in errors <==> e.at < |values| && Deserves(values, roots, e)
  }

  ghost function ParsedRoots(values: seq<string>): (roots: seq<Option<Path>>)
    ensures |roots| == |values|
  {
    seq(|values|, i requires 0 <= i < |values| => ParseRoot(values[i]))
  }

  /** The archive-root part of `validate_entries`. The report holds an error for a
      declaration exactly when the declaration deserves it. */
  method CheckRoots(values: seq<string>) returns (errors: seq<RootError>, roots: seq<Option<Path>>)
    ensures roots == ParsedRoots(values)
    ensures ErrorsAre(values, roots, set e | e in errors)
  {
    errors := [];
    var seen: set<string> := {};
    for i := 0 to |values|
      invariant seen == set v | v in values[..i]
      invariant forall e: RootError :: e in errors <==> e.Duplicate? && e.at < i && values[e.at] in values[..e.at]
    {
      if values[i] in seen {
        errors := errors + [Duplicate(i)];
      }
      seen := seen + {values[i]};
      assert values[..i + 1] == values[..i] + [values[i]];
    }
    roots := [];
    for i := 0 to |values|
      invariant roots == ParsedRoots(values)[..i]
      invariant forall e: RootError :: e in errors <==>
        || (e.Duplicate? && e.at < |values| && values[e.at] in values[..e.at])
        || (!e.Duplicate? && !e.Overlaps? && e.at < i && Deserves(values[..i], roots, e))
    {
      var parsed := ParseRoot(values[i]);
      ghost var before := roots;
      roots := roots + [parsed];
      if parsed == None {
        errors := errors + [NotCanonical(i)];
      } else if !Dedicated(parsed.value) {
        errors := errors + [TooBroad(i)];
      }
      assert forall k :: 0 <= k < i ==> roots[k] == before[k];
    }
    assert values[..|values|] == values;
    ghost var before := errors;
    for i := 0 to |roots|
      invariant forall e: RootError :: e in errors <==>
        e in before || (e.Overlaps? && e.at < i && OverlapsEarlier(roots, e.at))
    {
      if roots[i] == None { continue; }
      var k := 0;
      while k < i
        invariant 0 <= k <= i
        invariant forall j :: 0 <= j < k && roots[j].Some? ==>
          !(roots[i].value < roots[j].value) && !(roots[j].value < roots[i].value)
        invariant forall e: RootError :: e in errors <==>
          e in before || (e.Overlaps? && e.at < i && OverlapsEarlier(roots, e.at))
      {
        if roots[k].Some? && (roots[i].value < roots[k].value || roots[k].value < roots[i].value) {
          errors := errors + [Overlaps(i)];
          break;
        }
        k := k + 1;
      }
    }
  }

  /** What an error-free report says about the declarations. */
  ghost predicate RootsAccepted(values: seq<string>) {
    ErrorsAre(values, ParsedRoots(values), {})
  }

  lemma {:induction false} ParseRootInjective(v: string, w: string)
    requires ParseRoot(v).Some? && ParseRoot(v) == ParseRoot(w)
    ensures v == w
  {
    JoinSplit(v[1..], '/');
    JoinSplit(w[1..], '/');
    assert (["/"] + Split(v[1..], '/'))[1..] == Split(v[1..], '/');
    assert (["/"] + Split(w[1..], '/'))[1..] == Split(w[1..], '/');
    assert v == [v[0]] + v[1..] && w == [w[0]] + w[1..];
  }

  /** An accepted declaration is an absolute path in POSIX normal form, deep enough in a
      dedicated hierarchy, and no two accepted declarations are nested or equal. */
  lemma AcceptedRootsApart(values: seq<string>, i: nat, j: nat)
    requires RootsAccepted(values) && i < j < |values|
    ensures ParseRoot(values[i]).Some? && ParseRoot(values[i]) == ParsePath(values[i])
    ensures Dedicated(ParseRoot(values[i]).value)
    ensures ParseRoot(values[j]).Some?
    ensures !Overlap(ParseRoot(values[i]).value, ParseRoot(values[j]).value)
  {
    var roots := ParsedRoots(values);
    assert !Deserves(values, roots, NotCanonical(i)) && !Deserves(values, roots, NotCanonical(j));
    assert !Deserves(values, roots, TooBroad(i));
    assert !Deserves(values, roots, Overlaps(j));
    assert !Deserves(values, roots, Duplicate(j));
    assert values[i] == values[..j][i];
    if roots[i] == roots[j] {
      ParseRootInjective(values[i], values[j]);
    }
    assert !(roots[j].value < roots[i].value) && !(roots[i].value < roots[j].value);
    assert roots[i].value != roots[j].value;
    var parts := Split(values[i][1..], '/');
    assert forall k :: 0 <= k < |parts| ==> RootSegment(parts[k]) && Component(parts[k]);
    ParseRootNormal(values[i]);
  }

  lemma ParseRootNormal(value: string)
    requires ParseRoot(value).Some?
    ensures ParsePath(value) == ParseRoot(value)
  {
    var parts := Split(value[1..], '/');
    assert forall k :: 0 <= k < |parts| ==> RootSegment(parts[k]) && Component(parts[k]);
    assert RootSegment(parts[0]);
    JoinSplit(value[1..], '/');
    assert |value| > 1 && value[1] == parts[0][0];
    assert RootCharacter(parts[0][0]);
    assert value[1] != '/';
    assert "/" <= value;
    assert value[|"/"|..] == value[1..];
  }

  lemma PrefixesOverlap(first: Path, second: Path, p: Path)
    ensures first <= p && second <= p ==> Overlap(first, second)
  {
    if first <= p && second <= p {
      assert first == p[..|first|] && second == p[..|second|];
    }
  }

  /** Storage disjointness: two accepted roots that one mount table both locates share no
      file, although each mount was checked against its own root only. */
  lemma StorageDisjoint(values: seq<string>, records: seq<MountRecord>, i: nat, j: nat, p: Path, q: Path)
    requires RootsAccepted(values) && i < j < |values|
    requires ParseRoot(values[i]).Some? && Select(ParseRoot(values[i]).value, records).Mounted?
    requires ParseRoot(values[j]).Some? && Select(ParseRoot(values[j]).value, records).Mounted?
    requires ParseRoot(values[i]).value <= p && ParseRoot(values[j]).value <= q
    ensures var m := Select(ParseRoot(values[i]).value, records).record;
            var n := Select(ParseRoot(values[j]).value, records).record;
            && ResolvesThrough(records, m, p) && ResolvesThrough(records, n, q)
            && (m.device, FilePath(m, p)) != (n.device, FilePath(n, q))
  {
    var first, second := ParseRoot(values[i]).value, ParseRoot(values[j]).value;
    var m, n := Select(first, records).record, Select(second, records).record;
    AcceptedRootsApart(values, i, j);
    SelectExact(first, records, m);
    SelectExact(second, records, n);
    assert ResolvesThrough(records, m, p) && ResolvesThrough(records, n, q);
    assert FilePath(m, first) <= FilePath(m, p);
    AliasFreedom(first, records, n, q);
    PrefixesOverlap(first, second, q);
  }
}
