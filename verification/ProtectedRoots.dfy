/** The verdicts on archive roots, told from the text of the declarations and from the mounts. */
module ProtectedRoots {
  import opened ProtectedHost
  import opened Text

  // --------------------------------------------------------------------------
  // Declarations

  /** Letters, digits and the marks of plain file names. */
  predicate NameCharacter(c: char) {
    || 'A' <= c <= 'Z' || 'a' <= c <= 'z' || '0' <= c <= '9'
    || c == '_' || c == '@' || c == '+' || c == '~' || c == '.' || c == '-'
  }

  predicate NamePart(s: string) {
    s != "" && s != "." && s != ".." && forall i :: 0 <= i < |s| ==> NameCharacter(s[i])
  }

  /** One slash, and parts with one slash between them. */
  predicate Spells(value: string, root: Path) {
    && root[0] == "/" && |root| > 1 && (forall i :: 1 <= i < |root| ==> NamePart(root[i]))
    && value == "/" + Join(root[1..], '/')
  }

  lemma NamePartExact(s: string)
    ensures RootSegment(s) <==> NamePart(s)
  {
    forall i | 0 <= i < |s| ensures RootCharacter(s[i]) <==> NameCharacter(s[i]) {
    }
  }

  lemma PartsExact(parts: seq<string>, root: Path)
    requires root == ["/"] + parts
    ensures (forall i :: 0 <= i < |parts| ==> RootSegment(parts[i])) <==>
            forall i :: 1 <= i < |root| ==> NamePart(root[i])
  {
    forall i | 0 <= i < |parts| ensures RootSegment(parts[i]) <==> NamePart(root[i + 1]) {
      NamePartExact(parts[i]);
    }
    if forall i :: 0 <= i < |parts| ==> RootSegment(parts[i]) {
      forall i | 1 <= i < |root| ensures NamePart(root[i]) {
        assert RootSegment(parts[i - 1]);
      }
    }
  }

  /** A declaration names a root exactly when it is its text. */
  lemma RootExact(value: string, root: Path)
    ensures ParseRoot(value) == Some(root) <==> Spells(value, root)
  {
    if ParseRoot(value) == Some(root) {
      var parts := Split(value[1..], '/');
      JoinSplit(value[1..], '/');
      PartsExact(parts, root);
      assert root[1..] == parts && value == [value[0]] + value[1..];
    }
    if Spells(value, root) {
      var parts := root[1..];
      assert root == ["/"] + parts;
      PartsExact(parts, root);
      forall i | 0 <= i < |parts| ensures '/' !in parts[i] {
        assert NamePart(root[i + 1]);
      }
      SplitJoin(parts, '/');
      assert value[1..] == Join(parts, '/');
    }
  }

  /** Two parts below `/home`, and one below `/media`, `/mnt`, `/opt` and `/srv`. */
  predicate DeepEnough(root: Path) {
    || (|root| >= 4 && root[1] == "home")
    || (|root| >= 3 && (root[1] == "media" || root[1] == "mnt" || root[1] == "opt" || root[1] == "srv"))
  }

  lemma DedicatedExact(root: Path)
    ensures Dedicated(root) <==> DeepEnough(root)
  {
  }

  /** One of the two lies inside the other. */
  predicate Nested(first: Path, second: Path) {
    || (|first| < |second| && second[..|first|] == first)
    || (|second| < |first| && first[..|second|] == second)
  }

  ghost predicate NestedEarlier(values: seq<string>, root: Path, at: nat)
    requires at <= |values|
  {
    exists k, other :: 0 <= k < at && Spells(values[k], other) && Nested(root, other)
  }

  /** What a declaration is reported for: standing there before, naming no root, one that is too
      broad, or one that is nested with an earlier one. */
  ghost predicate Deserved(values: seq<string>, e: RootError) {
    && e.at < |values|
    && match e
       case Duplicate(at) => exists k :: 0 <= k < at && values[k] == values[at]
       case NotCanonical(at) => forall root :: !Spells(values[at], root)
       case TooBroad(at) => exists root :: Spells(values[at], root) && !DeepEnough(root)
       case Overlaps(at) => exists root :: Spells(values[at], root) && NestedEarlier(values, root, at)
  }

  lemma NestedExact(first: Path, second: Path)
    ensures first < second || second < first <==> Nested(first, second)
  {
  }

  lemma OverlapsExact(values: seq<string>, at: nat)
    requires at < |values|
    ensures OverlapsEarlier(ParsedRoots(values), at) <==> Deserved(values, Overlaps(at))
  {
    var roots := ParsedRoots(values);
    if OverlapsEarlier(roots, at) {
      var k :| 0 <= k < at && roots[k].Some?
               && (roots[at].value < roots[k].value || roots[k].value < roots[at].value);
      RootExact(values[at], roots[at].value);
      RootExact(values[k], roots[k].value);
      NestedExact(roots[at].value, roots[k].value);
      assert NestedEarlier(values, roots[at].value, at);
    }
    if root :| Spells(values[at], root) && NestedEarlier(values, root, at) {
      var k, other :| 0 <= k < at && Spells(values[k], other) && Nested(root, other);
      RootExact(values[at], root);
      RootExact(values[k], other);
      NestedExact(root, other);
      assert roots[k] == Some(other);
    }
  }

  /** The report holds an error exactly when the declarations deserve it. */
  lemma DeservedExact(values: seq<string>, e: RootError)
    ensures e.at < |values| && Deserves(values, ParsedRoots(values), e) <==> Deserved(values, e)
  {
    if e.at < |values| {
      var roots, at := ParsedRoots(values), e.at;
      assert roots[at] == ParseRoot(values[at]);
      if roots[at].Some? {
        RootExact(values[at], roots[at].value);
        DedicatedExact(roots[at].value);
      }
      forall root ensures ParseRoot(values[at]) == Some(root) <==> Spells(values[at], root) {
        RootExact(values[at], root);
      }
      OverlapsExact(values, at);
      EarlierExact(values, at);
    }
  }

  lemma EarlierExact(values: seq<string>, at: nat)
    requires at < |values|
    ensures values[at] in values[..at] <==> exists k :: 0 <= k < at && values[k] == values[at]
  {
    if values[at] in values[..at] {
      var k :| 0 <= k < at && values[..at][k] == values[at];
      assert values[k] == values[at];
    }
    if k :| 0 <= k < at && values[k] == values[at] {
      assert values[..at][k] == values[at];
    }
  }

  // --------------------------------------------------------------------------
  // Refused targets

  ghost predicate Below(records: seq<MountRecord>, target: Path) {
    exists r :: r in records && |target| < |r.mountPoint| && r.mountPoint[..|target|] == target
  }

  ghost predicate SettledUpTo(records: seq<MountRecord>, target: Path) {
    DistinctIds(records) && Unstacked(target, records) && !Below(records, target)
  }

  predicate Durable(filesystem: string) {
    || filesystem == "btrfs" || filesystem == "ext4" || filesystem == "f2fs" || filesystem == "xfs"
    || filesystem == "zfs"
  }

  /** What a target is refused for, in the order of the checks. */
  ghost predicate RefusedFor(records: seq<MountRecord>, target: Path, reason: Refusal) {
    match reason
    case DuplicateIds => !DistinctIds(records)
    case Stacked => DistinctIds(records) && !Unstacked(target, records)
    case DescendantMount => DistinctIds(records) && Unstacked(target, records) && Below(records, target)
    case NoMount => SettledUpTo(records, target) && forall m :: !ResolvesThrough(records, m, target)
    case UnsupportedFilesystem =>
      SettledUpTo(records, target) && exists m :: ResolvesThrough(records, m, target) && !Durable(m.filesystem)
    case ExternalAlias =>
      && SettledUpTo(records, target)
      && exists m :: ResolvesThrough(records, m, target) && Durable(m.filesystem) && !SoleReach(records, m, target)
  }

  lemma BelowExact(records: seq<MountRecord>, target: Path)
    ensures (exists r :: r in Relevant(target, records) && target < r.mountPoint) <==> Below(records, target)
  {
    if r :| r in Relevant(target, records) && target < r.mountPoint {
      assert r in records && r.mountPoint[..|target|] == target;
    }
    if r :| r in records && |target| < |r.mountPoint| && r.mountPoint[..|target|] == target {
      assert target < r.mountPoint && Overlap(r.mountPoint, target);
    }
  }

  /** The refusals of a target whose surroundings are settled. */
  lemma SettledRefusal(records: seq<MountRecord>, target: Path, m: MountRecord, reason: Refusal)
    requires SettledUpTo(records, target) && ResolvesThrough(records, m, target)
    ensures forall n :: ResolvesThrough(records, n, target) ==> n == m
    ensures Select(target, records) == Refused(reason) <==> RefusedFor(records, target, reason)
  {
    UnstackedIsDistinctPoints(target, records);
    BelowExact(records, target);
    DeepestResolves(target, records, m);
    forall n | ResolvesThrough(records, n, target) ensures n == m {
      DeepestResolves(target, records, n);
    }
    AliasScanMeans(records, m, target);
  }

  lemma UnmountedRefusal(records: seq<MountRecord>, target: Path, reason: Refusal)
    requires SettledUpTo(records, target) && forall m :: !ResolvesThrough(records, m, target)
    ensures Select(target, records) == Refused(reason) <==> RefusedFor(records, target, reason)
  {
    UnstackedIsDistinctPoints(target, records);
    BelowExact(records, target);
    var candidates := Filter(Relevant(target, records), (r: MountRecord) => r.mountPoint <= target);
    if candidates != [] { DeepestResolves(target, records, Deepest(candidates)); }
  }

  /** A target is refused with a reason exactly when that is the first check it fails. */
  lemma RefusalExact(records: seq<MountRecord>, target: Path, reason: Refusal)
    ensures Select(target, records) == Refused(reason) <==> RefusedFor(records, target, reason)
  {
    if SettledUpTo(records, target) {
      if m :| ResolvesThrough(records, m, target) {
        SettledRefusal(records, target, m, reason);
      } else {
        UnmountedRefusal(records, target, reason);
      }
    } else if DistinctIds(records) {
      UnstackedIsDistinctPoints(target, records);
      BelowExact(records, target);
    }
  }
}
