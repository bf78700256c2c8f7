/** The rule model of scripts/validate_ingress_guard.py: the expected rules, the classifier
    of parsed rule sequences, and what such a sequence does to packets. */
module IngressRules {
  import opened Text

  datatype Verdict = Accept | Drop

  datatype Rule = Rule(interface: string, port: int, verdict: Verdict)

  datatype Token =
    | RulesetJsonInvalid | SchemaVersionUnsupported
    | RuleGrammarUnsupported | MatchInversionUnsupported | SetIndirectionUnsupported
    | WildcardUnsupported | CounterMissing | VerdictUnsupported
    | SshPreservationViolated | DenyWideningAccept | InterfaceOverreach
    | CoverageDuplicate | CoverageIncomplete | RuleOrderInvalid
    | ChainNameCollision | ForeignObjectInOwnedTable
    | TableMissing | TableDuplicate | TableGrammarUnsupported | TableFamilyInvalid
    | ChainMissing | ChainUnexpected | ChainGrammarUnsupported | ChainTypeInvalid | HookInvalid
    | PriorityInvalid | PolicyInvalid
    | RulePlacementInvalid | RuleHandleDuplicate
    | PreexistingOwnedTable

  const SSH_PORT := 22

  const DENIED_PORTS := [2379, 2380, 6443, 10250]

  /** The rules of one interface. */
  function Block(interface: string): seq<Rule> {
    [Rule(interface, 22, Accept),
     Rule(interface, 2379, Drop), Rule(interface, 2380, Drop),
     Rule(interface, 6443, Drop), Rule(interface, 10250, Drop)]
  }

  function Expected(interfaces: seq<string>): seq<Rule> {
    if interfaces == [] then []
    else Expected(interfaces[..|interfaces| - 1]) + Block(interfaces[|interfaces| - 1])
  }

  /** `expected_sequence`. */
  method ExpectedSequence(interfaces: seq<string>) returns (sequence: seq<Rule>)
    ensures sequence == Expected(interfaces)
  {
    sequence := [];
    for i := 0 to |interfaces|
      invariant sequence == Expected(interfaces[..i])
    {
      assert interfaces[..i + 1][..i] == interfaces[..i];
      ghost var before, block := sequence, Block(interfaces[i]);
      BlockRules(interfaces[i]);
      sequence := sequence + [Rule(interfaces[i], SSH_PORT, Accept)];
      for j := 0 to |DENIED_PORTS|
        invariant sequence == before + block[..j + 1]
      {
        sequence := sequence + [Rule(interfaces[i], DENIED_PORTS[j], Drop)];
      }
      assert block[..5] == block;
    }
    assert interfaces[..|interfaces|] == interfaces;
  }

  lemma BlockRules(interface: string)
    ensures |DENIED_PORTS| == 4 && |Block(interface)| == 5 && Block(interface)[0] == Rule(interface, SSH_PORT, Accept)
    ensures forall j :: 0 <= j < |DENIED_PORTS| ==> Block(interface)[j + 1] == Rule(interface, DENIED_PORTS[j], Drop)
  {
    assert DENIED_PORTS[0] == 2379 && DENIED_PORTS[1] == 2380 && DENIED_PORTS[2] == 6443 && DENIED_PORTS[3] == 10250;
  }

  /** A rule the model expects for some interface. */
  predicate InModel(r: Rule) {
    (r.port == SSH_PORT && r.verdict == Accept) || (r.port in DENIED_PORTS && r.verdict == Drop)
  }

  lemma {:induction false} ExpectedMembers(interfaces: seq<string>, r: Rule)
    ensures r in Expected(interfaces) <==> r.interface in interfaces && InModel(r)
  {
    if interfaces != [] {
      var last := |interfaces| - 1;
      ExpectedMembers(interfaces[..last], r);
      assert interfaces == interfaces[..last] + [interfaces[last]];
      assert r in Block(interfaces[last]) <==> r.interface == interfaces[last] && InModel(r);
    }
  }

  lemma {:induction false} ExpectedDistinct(interfaces: seq<string>)
    requires Distinct(interfaces)
    ensures Distinct(Expected(interfaces))
  {
    if interfaces != [] {
      var last := |interfaces| - 1;
      var front, block := Expected(interfaces[..last]), Block(interfaces[last]);
      ExpectedDistinct(interfaces[..last]);
      forall r | r in front ensures r !in block {
        ExpectedMembers(interfaces[..last], r);
        var i :| 0 <= i < last && interfaces[i] == r.interface;
        assert interfaces[i] != interfaces[last];
      }
      assert Distinct(block);
      DistinctSum(front, block);
    }
  }

  lemma DistinctSum<T>(a: seq<T>, b: seq<T>)
    requires Distinct(a) && Distinct(b) && forall x :: x in a ==> x !in b
    ensures Distinct(a + b)
  {
    forall i, j | 0 <= i < j < |a + b| ensures (a + b)[i] != (a + b)[j] {
      if i < |a| <= j {
        assert a[i] in a && b[j - |a|] in b;
      }
    }
  }

  // --------------------------------------------------------------------------
  // The classifier

  function Note(errors: seq<Token>, token: Token, when: bool): seq<Token> {
    if when && token !in errors then errors + [token] else errors
  }

  /** The four checks of one parsed rule. */
  function NoteRule(errors: seq<Token>, r: Rule, interfaces: seq<string>): seq<Token> {
    var e1 := Note(errors, SshPreservationViolated, r.port == SSH_PORT && r.verdict == Drop);
    var e2 := Note(e1, DenyWideningAccept, r.port in DENIED_PORTS && r.verdict == Accept);
    var e3 := Note(e2, RuleGrammarUnsupported, r.port != SSH_PORT && r.port !in DENIED_PORTS);
    Note(e3, InterfaceOverreach, r.interface !in interfaces)
  }

  function NoteRules(errors: seq<Token>, parsed: seq<Rule>, interfaces: seq<string>): seq<Token> {
    if parsed == [] then errors
    else NoteRule(NoteRules(errors, parsed[..|parsed| - 1], interfaces), parsed[|parsed| - 1], interfaces)
  }

  function NoteDuplicates(errors: seq<Token>, parsed: seq<Rule>): seq<Token> {
    if parsed == [] then errors
    else
      var last := |parsed| - 1;
      Note(NoteDuplicates(errors, parsed[..last]), CoverageDuplicate, parsed[last] in parsed[..last])
  }

  function NoteMissing(errors: seq<Token>, expected: seq<Rule>, parsed: seq<Rule>): seq<Token> {
    if expected == [] then errors
    else
      var last := |expected| - 1;
      Note(NoteMissing(errors, expected[..last], parsed), CoverageIncomplete, expected[last] !in parsed)
  }

  function Classify(parsed: seq<Rule>, interfaces: seq<string>): seq<Token> {
    var expected := Expected(interfaces);
    if parsed == expected then []
    else
      var noted := NoteMissing(NoteDuplicates(NoteRules([], parsed, interfaces), parsed), expected, parsed);
      if noted == [] then [RuleOrderInvalid] else noted
  }

  /** `_classify_sequence`, called with no errors yet. */
  method ClassifySequence(parsed: seq<Rule>, interfaces: seq<string>) returns (errors: seq<Token>)
    ensures errors == Classify(parsed, interfaces)
  {
    var expected := ExpectedSequence(interfaces);
    errors := [];
    if parsed == expected { return; }
    for i := 0 to |parsed|
      invariant errors == NoteRules([], parsed[..i], interfaces)
    {
      assert parsed[..i + 1][..i] == parsed[..i];
      var r := parsed[i];
      errors := Note(errors, SshPreservationViolated, r.port == SSH_PORT && r.verdict == Drop);
      errors := Note(errors, DenyWideningAccept, r.port in DENIED_PORTS && r.verdict == Accept);
      errors := Note(errors, RuleGrammarUnsupported, r.port != SSH_PORT && r.port !in DENIED_PORTS);
      errors := Note(errors, InterfaceOverreach, r.interface !in interfaces);
    }
    assert parsed[..|parsed|] == parsed;
    ghost var noted := errors;
    var seen: set<Rule> := {};
    for i := 0 to |parsed|
      invariant seen == set r | r in parsed[..i]
      invariant errors == NoteDuplicates(noted, parsed[..i])
    {
      assert parsed[..i + 1][..i] == parsed[..i];
      errors := Note(errors, CoverageDuplicate, parsed[i] in seen);
      seen := seen + {parsed[i]};
    }
    ghost var duplicates := errors;
    for i := 0 to |expected|
      invariant errors == NoteMissing(duplicates, expected[..i], parsed)
    {
      assert expected[..i + 1][..i] == expected[..i];
      errors := Note(errors, CoverageIncomplete, expected[i] !in seen);
    }
    assert expected[..|expected|] == expected;
    if errors == [] { errors := [RuleOrderInvalid]; }
  }

  lemma NoteRuleEmpty(errors: seq<Token>, r: Rule, interfaces: seq<string>)
    ensures NoteRule(errors, r, interfaces) == [] <==> errors == [] && InModel(r) && r.interface in interfaces
    ensures RuleOrderInvalid in NoteRule(errors, r, interfaces) ==> RuleOrderInvalid in errors
  {
  }

  predicate AllInModel(parsed: seq<Rule>, interfaces: seq<string>) {
    forall r :: r in parsed ==> InModel(r) && r.interface in interfaces
  }

  lemma {:induction false} NoteRulesEmpty(parsed: seq<Rule>, interfaces: seq<string>)
    ensures NoteRules([], parsed, interfaces) == [] <==> AllInModel(parsed, interfaces)
    ensures RuleOrderInvalid !in NoteRules([], parsed, interfaces)
  {
    if parsed != [] {
      var front, r := parsed[..|parsed| - 1], parsed[|parsed| - 1];
      NoteRulesEmpty(front, interfaces);
      NoteRuleEmpty(NoteRules([], front, interfaces), r, interfaces);
      assert parsed == front + [r];
      assert AllInModel(parsed, interfaces) <==>
        AllInModel(front, interfaces) && InModel(r) && r.interface in interfaces;
    }
  }

  lemma {:induction false} NoteDuplicatesEmpty(errors: seq<Token>, parsed: seq<Rule>)
    ensures NoteDuplicates(errors, parsed) == [] <==> errors == [] && Distinct(parsed)
    ensures RuleOrderInvalid in NoteDuplicates(errors, parsed) ==> RuleOrderInvalid in errors
  {
    if parsed != [] {
      var last := |parsed| - 1;
      var front := parsed[..last];
      NoteDuplicatesEmpty(errors, front);
      assert parsed[last] in front <==> exists i :: 0 <= i < last && parsed[i] == parsed[last];
      if Distinct(parsed) { assert Distinct(front); }
    }
  }

  lemma {:induction false} NoteMissingEmpty(errors: seq<Token>, expected: seq<Rule>, parsed: seq<Rule>)
    ensures NoteMissing(errors, expected, parsed) == [] <==> errors == [] && forall r :: r in expected ==> r in parsed
    ensures RuleOrderInvalid in NoteMissing(errors, expected, parsed) ==> RuleOrderInvalid in errors
  {
    if expected != [] {
      var last := |expected| - 1;
      NoteMissingEmpty(errors, expected[..last], parsed);
      assert expected == expected[..last] + [expected[last]];
    }
  }

  lemma {:induction false} CountDistinct<T>(s: seq<T>, x: T)
    requires Distinct(s)
    ensures multiset(s)[x] == if x in s then 1 else 0
  {
    if s != [] {
      var last := |s| - 1;
      assert s == s[..last] + [s[last]];
      CountDistinct(s[..last], x);
    }
  }

  lemma {:induction false} CountTwice<T>(s: seq<T>, i: nat, j: nat)
    requires i < j < |s| && s[i] == s[j]
    ensures multiset(s)[s[i]] >= 2
  {
    assert s == s[..j] + [s[j]] + s[j + 1..];
    assert s[..j][i] == s[i];
    assert s[i] in s[..j];
  }

  /** Two lists without repetitions are permutations of one another exactly when they have
      the same members; a permutation of one has none either. */
  lemma PermutationMeans<T>(a: seq<T>, b: seq<T>)
    requires Distinct(b)
    ensures multiset(a) == multiset(b) <==> Distinct(a) && forall x :: x in a <==> x in b
  {
    if multiset(a) == multiset(b) {
      forall x ensures x in a <==> x in b {
        assert x in multiset(a) <==> x in multiset(b);
      }
      forall i, j | 0 <= i < j < |a| ensures a[i] != a[j] {
        if a[i] == a[j] {
          CountTwice(a, i, j);
          CountDistinct(b, a[i]);
        }
      }
    }
    if Distinct(a) && forall x :: x in a <==> x in b {
      forall x ensures multiset(a)[x] == multiset(b)[x] {
        CountDistinct(a, x);
        CountDistinct(b, x);
      }
    }
  }

  lemma NotedEmpty(parsed: seq<Rule>, expected: seq<Rule>, interfaces: seq<string>)
    ensures var noted := NoteMissing(NoteDuplicates(NoteRules([], parsed, interfaces), parsed), expected, parsed);
      && (noted == [] <==>
            AllInModel(parsed, interfaces) && Distinct(parsed) && forall r :: r in expected ==> r in parsed)
      && RuleOrderInvalid !in noted
  {
    var rules := NoteRules([], parsed, interfaces);
    var duplicates := NoteDuplicates(rules, parsed);
    NoteRulesEmpty(parsed, interfaces);
    NoteDuplicatesEmpty(rules, parsed);
    NoteMissingEmpty(duplicates, expected, parsed);
  }

  lemma PermutationInModel(parsed: seq<Rule>, expected: seq<Rule>, interfaces: seq<string>)
    requires Distinct(expected) && forall r :: r in expected <==> r.interface in interfaces && InModel(r)
    ensures multiset(parsed) == multiset(expected) <==>
            AllInModel(parsed, interfaces) && Distinct(parsed) && forall r :: r in expected ==> r in parsed
  {
    PermutationMeans(parsed, expected);
  }

  /** Classification is exact: no error means the expected sequence itself, and the order
      error alone means exactly a permutation of it that is not the sequence itself. */
  lemma ClassifyExact(parsed: seq<Rule>, interfaces: seq<string>)
    requires Distinct(interfaces)
    ensures Classify(parsed, interfaces) == [] <==> parsed == Expected(interfaces)
    ensures Classify(parsed, interfaces) == [RuleOrderInvalid] <==>
            parsed != Expected(interfaces) && multiset(parsed) == multiset(Expected(interfaces))
  {
    var expected := Expected(interfaces);
    ExpectedDistinct(interfaces);
    forall r ensures r in expected <==> r.interface in interfaces && InModel(r) {
      ExpectedMembers(interfaces, r);
    }
    PermutationInModel(parsed, expected, interfaces);
    NotedEmpty(parsed, expected, interfaces);
  }

  /** What a rule is called out for by itself. */
  predicate Offends(r: Rule, token: Token, interfaces: seq<string>) {
    match token
    case SshPreservationViolated => r.port == 22 && r.verdict == Drop
    case DenyWideningAccept => r.port in {2379, 2380, 6443, 10250} && r.verdict == Accept
    case RuleGrammarUnsupported => r.port !in {22, 2379, 2380, 6443, 10250}
    case InterfaceOverreach => r.interface !in interfaces
    case _ => false
  }

  lemma RuleNoted(errors: seq<Token>, r: Rule, interfaces: seq<string>, token: Token)
    ensures token in NoteRule(errors, r, interfaces) <==> token in errors || Offends(r, token, interfaces)
  {
    assert r.port in DENIED_PORTS <==> r.port in {2379, 2380, 6443, 10250};
  }

  lemma {:induction false} RulesNoted(parsed: seq<Rule>, interfaces: seq<string>, token: Token)
    ensures token in NoteRules([], parsed, interfaces) <==> exists r :: r in parsed && Offends(r, token, interfaces)
  {
    if parsed != [] {
      var front, last := parsed[..|parsed| - 1], parsed[|parsed| - 1];
      assert parsed == front + [last];
      RulesNoted(front, interfaces, token);
      RuleNoted(NoteRules([], front, interfaces), last, interfaces, token);
    }
  }

  lemma {:induction false} DuplicatesNoted(errors: seq<Token>, parsed: seq<Rule>, token: Token)
    ensures token in NoteDuplicates(errors, parsed) <==>
            token in errors || (token == CoverageDuplicate && !Distinct(parsed))
  {
    if parsed != [] {
      var front, last := parsed[..|parsed| - 1], parsed[|parsed| - 1];
      assert parsed == front + [last];
      DuplicatesNoted(errors, front, token);
      AppendDistinct(front, last);
    }
  }

  lemma {:induction false} MissingNoted(errors: seq<Token>, expected: seq<Rule>, parsed: seq<Rule>, token: Token)
    ensures token in NoteMissing(errors, expected, parsed) <==>
            token in errors || (token == CoverageIncomplete && exists r :: r in expected && r !in parsed)
  {
    if expected != [] {
      var front, last := expected[..|expected| - 1], expected[|expected| - 1];
      assert expected == front + [last];
      MissingNoted(errors, front, parsed, token);
    }
  }

  /** A rule that some declared interface lacks. */
  ghost predicate Lacking(parsed: seq<Rule>, interfaces: seq<string>) {
    exists r :: InModel(r) && r.interface in interfaces && r !in parsed
  }

  /** Each error is reported exactly for its own cause, and the order error for a permutation. */
  lemma ClassifiedExact(parsed: seq<Rule>, interfaces: seq<string>, token: Token)
    requires Distinct(interfaces)
    ensures token in Classify(parsed, interfaces) <==>
            match token
            case CoverageDuplicate => !Distinct(parsed)
            case CoverageIncomplete => Lacking(parsed, interfaces)
            case RuleOrderInvalid =>
              parsed != Expected(interfaces) && multiset(parsed) == multiset(Expected(interfaces))
            case _ => exists r :: r in parsed && Offends(r, token, interfaces)
  {
    var expected := Expected(interfaces);
    ClassifyExact(parsed, interfaces);
    RulesNoted(parsed, interfaces, token);
    DuplicatesNoted(NoteRules([], parsed, interfaces), parsed, token);
    MissingNoted(NoteDuplicates(NoteRules([], parsed, interfaces), parsed), expected, parsed, token);
    forall r ensures r in expected <==> r.interface in interfaces && InModel(r) {
      ExpectedMembers(interfaces, r);
    }
    NotedEmpty(parsed, expected, interfaces);
    if parsed == expected {
      ExpectedClean(parsed, interfaces, token);
    }
  }

  lemma ExpectedClean(parsed: seq<Rule>, interfaces: seq<string>, token: Token)
    requires Distinct(interfaces) && parsed == Expected(interfaces)
    ensures Distinct(parsed) && !Lacking(parsed, interfaces)
    ensures forall r :: r in parsed ==> !Offends(r, token, interfaces)
  {
    ExpectedDistinct(interfaces);
    forall r ensures r in parsed <==> r.interface in interfaces && InModel(r) {
      ExpectedMembers(interfaces, r);
    }
    assert forall r: Rule :: r.port in DENIED_PORTS <==> r.port in {2379, 2380, 6443, 10250};
  }

  // --------------------------------------------------------------------------
  // Packets

  /** First match over the rules; the chain's policy accepts the rest. */
  function Decide(rules: seq<Rule>, interface: string, port: int): Verdict {
    if rules == [] then Accept
    else if rules[0].interface == interface && rules[0].port == port then rules[0].verdict
    else Decide(rules[1..], interface, port)
  }

  lemma {:induction false} DecideByMembers(rules: seq<Rule>, interface: string, port: int)
    requires forall r :: r in rules ==> InModel(r)
    ensures Decide(rules, interface, port) == Drop <==> Rule(interface, port, Drop) in rules
  {
    if rules != [] {
      assert InModel(rules[0]);
      assert rules == [rules[0]] + rules[1..];
      DecideByMembers(rules[1..], interface, port);
      if rules[0].interface == interface && rules[0].port == port && rules[0].verdict == Accept {
        assert port == SSH_PORT;
        assert !InModel(Rule(interface, port, Drop));
      }
    }
  }

  lemma PermutedMember(rules: seq<Rule>, interfaces: seq<string>, r: Rule)
    requires multiset(rules) == multiset(Expected(interfaces))
    ensures r in rules <==> r.interface in interfaces && InModel(r)
  {
    ExpectedMembers(interfaces, r);
    assert r in rules <==> r in multiset(rules);
    assert r in Expected(interfaces) <==> r in multiset(Expected(interfaces));
  }

  /** Any permutation of the expected rules, in whatever order, drops exactly the denied
      ports on the declared interfaces and accepts everything else. */
  lemma PermutationsDecideAlike(rules: seq<Rule>, interfaces: seq<string>, interface: string, port: int)
    requires multiset(rules) == multiset(Expected(interfaces))
    ensures Decide(rules, interface, port) == if interface in interfaces && port in DENIED_PORTS then Drop else Accept
  {
    forall r ensures r in rules <==> r.interface in interfaces && InModel(r) {
      PermutedMember(rules, interfaces, r);
    }
    DecideByMembers(rules, interface, port);
  }

  /** The expected sequence determines the interfaces, in order. */
  lemma {:induction false} ExpectedInjective(a: seq<string>, b: seq<string>)
    requires Expected(a) == Expected(b)
    ensures a == b
  {
    if a == [] || b == [] {
      assert |Expected(a)| == 0 || |Expected(b)| == 0;
    } else {
      var i, j := |a| - 1, |b| - 1;
      var s := Expected(a);
      var front, back := Expected(a[..i]), Expected(b[..j]);
      assert s[|s| - 1] == Block(a[i])[4] == Block(b[j])[4];
      assert front == s[..|s| - 5] == back;
      ExpectedInjective(a[..i], b[..j]);
      assert a == a[..i] + [a[i]] && b == b[..j] + [b[j]];
    }
  }
}
