/** The closed release identities of scripts/ci/platform_release_epoch.py: tags and
    versions, the four epochs, and the chains of publications they allow. */
module ReleaseEpoch {
  import opened Numerals
  import opened Text

  // --------------------------------------------------------------------------
  // Tags

  /** Semantic Versioning 2.0.0, section 2. */
  datatype Version = Version(major: nat, minor: nat, patch: nat)

  function Show(v: Version): string {
    "v" + Join([Decimal(v.major), Decimal(v.minor), Decimal(v.patch)], '.')
  }

  const MAX_TAG := 64

  /** `version`. */
  function Parse(tag: string): Option<Version> {
    if |tag| > MAX_TAG || tag == "" || tag[0] != 'v' then None
    else
      var parts := Split(tag[1..], '.');
      if |parts| == 3 && Canonical(parts[0]) && Canonical(parts[1]) && Canonical(parts[2]) then
        Some(Version(Number(parts[0]), Number(parts[1]), Number(parts[2])))
      else None
  }

  function Bump(v: Version): Version {
    v.(patch := v.patch + 1)
  }

  /** `next_tag`. */
  function NextTag(tag: string): Option<string> {
    match Parse(tag)
    case None => None
    case Some(v) => Some(Show(Bump(v)))
  }

  /** Reading a tag is exact: the only tag of a version is its rendering, when that fits. */
  lemma ParseExact(tag: string, v: Version)
    ensures Parse(tag) == Some(v) <==> tag == Show(v) && |tag| <= MAX_TAG
  {
    var numbers := [Decimal(v.major), Decimal(v.minor), Decimal(v.patch)];
    DecimalNumber(v.major);
    DecimalNumber(v.minor);
    DecimalNumber(v.patch);
    SplitJoin(numbers, '.');
    assert Show(v)[1..] == Join(numbers, '.');
    if Parse(tag) == Some(v) {
      var parts := Split(tag[1..], '.');
      NumberDecimal(parts[0]);
      NumberDecimal(parts[1]);
      NumberDecimal(parts[2]);
      JoinSplit(tag[1..], '.');
      assert parts == numbers;
      assert tag == "v" + tag[1..];
    }
  }

  /** No two tags read as one version. */
  lemma ParseInjective(a: string, b: string)
    requires Parse(a).Some? && Parse(a) == Parse(b)
    ensures a == b
  {
    ParseExact(a, Parse(a).value);
    ParseExact(b, Parse(b).value);
  }

  /** The next tag of an accepted tag reads as the next patch version exactly when it fits. */
  lemma NextTagReads(tag: string)
    requires Parse(tag).Some?
    ensures NextTag(tag).Some?
    ensures Parse(NextTag(tag).value) == Some(Bump(Parse(tag).value)) <==> |NextTag(tag).value| <= MAX_TAG
    ensures |NextTag(tag).value| > MAX_TAG ==> Parse(NextTag(tag).value) == None
  {
    ParseExact(NextTag(tag).value, Bump(Parse(tag).value));
  }

  function Nines(n: nat): string {
    if n == 0 then "" else Nines(n - 1) + "9"
  }

  lemma {:induction false} NinesCanonical(n: nat)
    requires n > 0
    ensures |Nines(n)| == n && Canonical(Nines(n)) && Nines(n)[0] == '9'
  {
    if n > 1 { NinesCanonical(n - 1); } else { assert Nines(0) == ""; }
  }

  lemma {:induction false} NinesNumber(n: nat)
    requires n > 0
    ensures Canonical(Nines(n)) && Decimal(Number(Nines(n))) == Nines(n) && |Nines(n)| == n
    ensures |Decimal(Number(Nines(n)) + 1)| == n + 1
  {
    NinesCanonical(n);
    NumberDecimal(Nines(n));
    if n > 1 {
      NinesNumber(n - 1);
      NextDigit(Nines(n - 1), Nines(n));
    } else {
      assert Nines(0) == "" && Nines(n) == "9" && "9"[..0] == "";
      assert Number("9") == 9;
      assert Decimal(10) == Decimal(1) + [Digit(0)];
    }
  }

  lemma NextDigit(front: string, all: string)
    requires Digits(front) && all == front + "9"
    ensures Digits(all) && Number(all) == Number(front) * 10 + 9
    ensures |Decimal(Number(all) + 1)| == |Decimal(Number(front) + 1)| + 1
  {
    assert all[..|all| - 1] == front;
    var m := Number(front);
    assert (m * 10 + 10) / 10 == m + 1;
  }

  /** The limit is reached: there is an accepted tag whose next tag is not accepted. */
  lemma SomeTagIsLast() returns (tag: string)
    ensures Parse(tag).Some? && NextTag(tag).Some? && Parse(NextTag(tag).value) == None
  {
    var n := 59;
    NinesNumber(n);
    var v := Version(0, 0, Number(Nines(n)));
    tag := Show(v);
    ShowLength(v);
    ShowLength(Bump(v));
    ParseExact(tag, v);
    NextTagReads(tag);
  }

  lemma JoinThree(a: string, b: string, c: string)
    ensures Join([a, b, c], '.') == a + "." + b + "." + c
  {
    assert [a, b, c][1..] == [b, c] && [b, c][1..] == [c];
    assert Join([c], '.') == c;
    assert Join([b, c], '.') == b + "." + Join([c], '.');
    assert Join([a, b, c], '.') == a + "." + Join([b, c], '.');
  }

  lemma ShowLength(v: Version)
    ensures |Show(v)| == 3 + |Decimal(v.major)| + |Decimal(v.minor)| + |Decimal(v.patch)|
  {
    JoinThree(Decimal(v.major), Decimal(v.minor), Decimal(v.patch));
  }

  // --------------------------------------------------------------------------
  // The pinned releases

  const OLD_REPOSITORY := "snaraj/website-infrastructure"
  const NEW_REPOSITORY := "snaraj/platform"
  const REPOSITORY_ID := 1327645656

  /** Every pinned tag is a patch of 0.1. */
  function Patch(n: nat): Version { Version(0, 1, n) }

  const CHECKPOINT := 68
  const TERMINAL_V1 := 69
  const FIRST_V2 := 70
  const TERMINAL_V2 := 77
  const FIRST_V3 := 78
  const TERMINAL_V3 := 80
  const FIRST_V4 := 81

  const CHECKPOINT_TAG := Show(Patch(CHECKPOINT))
  const TERMINAL_V1_TAG := Show(Patch(TERMINAL_V1))
  const TERMINAL_V2_TAG := Show(Patch(TERMINAL_V2))
  const FIRST_V3_TAG := Show(Patch(FIRST_V3))
  const TERMINAL_V3_TAG := Show(Patch(TERMINAL_V3))

  const CHECKPOINT_SOURCE := "b4bf0ac19038b1bca43651b601a348f8a84e7163"
  const TERMINAL_V2_SOURCE := "7b768d56a50f258ff893410c90e0cfd4401441c0"
  const TERMINAL_V3_SOURCE := "4f9b29339fec6ff06b37ecc0024b48cbe857f96f"

  /** One published source and the source it stands on. */
  datatype Historical = Historical(source: string, parent: string)

  const FIRST_SOURCE := "060c9678e130487b27cdaec395b0f1c5d74b9240"
  const SECOND_SOURCE := "9cd79f1e69cfa00eb5467822831056101629c8f8"
  const THIRD_SOURCE := "3b7a0532ba5fe2f10037023f3e26ec5876f8d191"

  const HISTORICAL_RELEASES := [
    Historical(FIRST_SOURCE, TERMINAL_V3_SOURCE),
    Historical(SECOND_SOURCE, FIRST_SOURCE),
    Historical(THIRD_SOURCE, SECOND_SOURCE)]

  lemma ShortDecimals(n: nat)
    ensures n < 10 ==> Decimal(n) == [Digit(n)]
    ensures 10 <= n < 100 ==> Decimal(n) == [Digit(n / 10), Digit(n % 10)]
  {
  }

  lemma ShowPatch(n: nat)
    requires 10 <= n < 100
    ensures Show(Patch(n)) == "v0.1." + [Digit(n / 10), Digit(n % 10)]
    ensures Parse(Show(Patch(n))) == Some(Patch(n))
  {
    ShortDecimals(0);
    ShortDecimals(1);
    ShortDecimals(n);
    JoinThree(Decimal(0), Decimal(1), Decimal(n));
    assert Show(Patch(n)) == "v0.1." + Decimal(n);
    ParseExact(Show(Patch(n)), Patch(n));
  }

  lemma PatchReads(n: nat)
    requires 10 <= n < 99
    ensures Parse(Show(Patch(n))) == Some(Patch(n)) && NextTag(Show(Patch(n))) == Some(Show(Patch(n + 1)))
  {
    ShowPatch(n);
  }

  lemma Spelled(n: nat, tag: string)
    requires 10 <= n < 100 && tag == "v0.1." + [Digit(n / 10), Digit(n % 10)]
    ensures Show(Patch(n)) == tag
  {
    ShowPatch(n);
  }

  /** The spelling of the pinned tags. */
  lemma PinnedTagsSpelled()
    ensures CHECKPOINT_TAG == "v0.1.68" && TERMINAL_V2_TAG == "v0.1.77" && FIRST_V3_TAG == "v0.1.78"
    ensures TERMINAL_V3_TAG == "v0.1.80"
  {
    Spelled(CHECKPOINT, "v0.1.68");
    Spelled(TERMINAL_V2, "v0.1.77");
    Spelled(FIRST_V3, "v0.1.78");
    Spelled(TERMINAL_V3, "v0.1.80");
  }

  /** The pinned tags read as the pinned versions, and the derived ones follow them. */
  lemma PinnedTags()
    ensures Parse(CHECKPOINT_TAG) == Some(Patch(CHECKPOINT)) && NextTag(CHECKPOINT_TAG) == Some(TERMINAL_V1_TAG)
    ensures Parse(TERMINAL_V1_TAG) == Some(Patch(TERMINAL_V1))
      && NextTag(TERMINAL_V1_TAG) == Some(Show(Patch(FIRST_V2)))
    ensures Parse(TERMINAL_V2_TAG) == Some(Patch(TERMINAL_V2)) && NextTag(TERMINAL_V2_TAG) == Some(FIRST_V3_TAG)
    ensures Parse(FIRST_V3_TAG) == Some(Patch(FIRST_V3))
    ensures Parse(TERMINAL_V3_TAG) == Some(Patch(TERMINAL_V3))
      && NextTag(TERMINAL_V3_TAG) == Some(Show(Patch(FIRST_V4)))
  {
    PatchReads(CHECKPOINT);
    PatchReads(TERMINAL_V1);
    PatchReads(TERMINAL_V2);
    PatchReads(FIRST_V3);
    PatchReads(TERMINAL_V3);
  }

  predicate Less(a: Version, b: Version) {
    a.major < b.major
    || (a.major == b.major && (a.minor < b.minor || (a.minor == b.minor && a.patch < b.patch)))
  }

  function Epoch(v: Version): (n: nat)
    ensures 1 <= n <= 4
  {
    if Less(v, Patch(FIRST_V2)) then 1
    else if Less(v, Patch(FIRST_V3)) then 2
    else if Less(v, Patch(FIRST_V4)) then 3
    else 4
  }

  /** `historical_release`, from a candidate tag on. */
  function HistoricalFrom(tag: string, candidate: Option<string>, releases: seq<Historical>): Option<Historical>
    decreases |releases|
  {
    if releases == [] || candidate.None? then None
    else if tag == candidate.value then Some(releases[0])
    else HistoricalFrom(tag, NextTag(candidate.value), releases[1..])
  }

  function HistoricalRelease(tag: string): Option<Historical> {
    HistoricalFrom(tag, NextTag(TERMINAL_V3_TAG), HISTORICAL_RELEASES)
  }

  lemma {:induction false} HistoricalAt(tag: string, n: nat, releases: seq<Historical>, v: Version)
    requires 10 <= n && n + |releases| < 99 && Parse(tag) == Some(v)
    ensures HistoricalFrom(tag, Some(Show(Patch(n))), releases)
         == if v.major == 0 && v.minor == 1 && n <= v.patch < n + |releases| then Some(releases[v.patch - n]) else None
    decreases |releases|
  {
    if releases != [] {
      ShowPatch(n);
      ParseExact(tag, v);
      HistoricalAt(tag, n + 1, releases[1..], v);
      if tag == Show(Patch(n)) { ParseInjective(tag, Show(Patch(n))); }
      assert v == Patch(n) ==> tag == Show(Patch(n));
    }
  }

  /** The historical tags are the first three of the fourth epoch. */
  lemma HistoricalExact(tag: string, v: Version)
    requires Parse(tag) == Some(v)
    ensures HistoricalRelease(tag)
         == if v.major == 0 && v.minor == 1 && FIRST_V4 <= v.patch < FIRST_V4 + 3
            then Some(HISTORICAL_RELEASES[v.patch - FIRST_V4]) else None
  {
    PinnedTags();
    HistoricalAt(tag, FIRST_V4, HISTORICAL_RELEASES, v);
  }

  // --------------------------------------------------------------------------
  // Identities and publications

  /** What an identity pins: the repository name, the epoch, whether the frozen selector is
      named, and whether the recovery workflow publishes. */
  datatype Identity = Identity(repository: string, epoch: nat, frozenSelector: bool, recovering: bool)

  /** `identity`. */
  function IdentityOf(tag: string): Option<Identity> {
    match Parse(tag)
    case None => None
    case Some(v) =>
      var epoch := Epoch(v);
      Some(Identity(if epoch == 1 then OLD_REPOSITORY else NEW_REPOSITORY, epoch, epoch < 3,
                    epoch == 4 && HistoricalRelease(tag).Some?))
  }

  predicate HexDigit(c: char) { IsDigit(c) || 'a' <= c <= 'f' }

  predicate Sha(s: string) {
    |s| == 40 && forall i :: 0 <= i < |s| ==> HexDigit(s[i])
  }

  predicate FourthEpochSource(tag: string, baseSha: string, source: Option<string>) {
    && source.Some? && Sha(source.value)
    && match HistoricalRelease(tag) {
         case Some(frozen) => source.value == frozen.source && baseSha == frozen.parent
         case None => forall i :: 0 <= i < |HISTORICAL_RELEASES| ==> source.value != HISTORICAL_RELEASES[i].source
       }
  }

  /** `publication`. */
  function Publication(
    name: string, id: Option<int>, tag: string, baseTag: string, baseSha: string, source: Option<string>)
    : Option<Identity>
  {
    if (name != OLD_REPOSITORY && name != NEW_REPOSITORY) || id != Some(REPOSITORY_ID) then None
    else if !Sha(baseSha) then None
    else
      match IdentityOf(tag)
      case None => None
      case Some(selected) =>
        if selected.repository != name || NextTag(baseTag) != Some(tag) then None
        else if name == OLD_REPOSITORY
          && (tag, baseTag, baseSha) != (TERMINAL_V1_TAG, CHECKPOINT_TAG, CHECKPOINT_SOURCE) then None
        else if tag == FIRST_V3_TAG && (baseTag, baseSha) != (TERMINAL_V2_TAG, TERMINAL_V2_SOURCE) then None
        else if selected.epoch == 4 && !FourthEpochSource(tag, baseSha, source) then None
        else Some(selected)
  }

  // What may be published, by versions

  /** Before the patch `n` of 0.1. */
  predicate Before(v: Version, n: nat) {
    v.major == 0 && (v.minor == 0 || (v.minor == 1 && v.patch < n))
  }

  predicate IsPatch(v: Version, n: nat) {
    v.major == 0 && v.minor == 1 && v.patch == n
  }

  /** The names and markers of a version. */
  predicate IdentityIs(id: Identity, v: Version) {
    && id.repository == (if Before(v, 70) then OLD_REPOSITORY else NEW_REPOSITORY)
    && id.epoch == (if Before(v, 70) then 1 else if Before(v, 78) then 2 else if Before(v, 81) then 3 else 4)
    && (id.frozenSelector <==> Before(v, 78))
    && (id.recovering <==> IsPatch(v, 81) || IsPatch(v, 82) || IsPatch(v, 83))
  }

  lemma IdentityExact(tag: string, id: Identity)
    ensures IdentityOf(tag) == Some(id) <==> Parse(tag).Some? && IdentityIs(id, Parse(tag).value)
  {
    if Parse(tag).Some? {
      var v := Parse(tag).value;
      HistoricalExact(tag, v);
      assert Less(v, Patch(70)) <==> Before(v, 70);
      assert Less(v, Patch(78)) <==> Before(v, 78);
      assert Less(v, Patch(81)) <==> Before(v, 81);
    }
  }

  /** Forty hexadecimal digits in small letters. */
  predicate CommitText(s: string) {
    |s| == 40 && forall i :: 0 <= i < |s| ==> '0' <= s[i] <= '9' || 'a' <= s[i] <= 'f'
  }

  /** The sources that the fourth epoch allows at a version. */
  predicate FourthSource(v: Version, baseSha: string, source: Option<string>) {
    && source.Some? && CommitText(source.value)
    && (IsPatch(v, 81) ==> source.value == FIRST_SOURCE && baseSha == TERMINAL_V3_SOURCE)
    && (IsPatch(v, 82) ==> source.value == SECOND_SOURCE && baseSha == FIRST_SOURCE)
    && (IsPatch(v, 83) ==> source.value == THIRD_SOURCE && baseSha == SECOND_SOURCE)
    && (!IsPatch(v, 81) && !IsPatch(v, 82) && !IsPatch(v, 83) ==>
          source.value != FIRST_SOURCE && source.value != SECOND_SOURCE && source.value != THIRD_SOURCE)
  }

  lemma FourthSourceExact(tag: string, v: Version, baseSha: string, source: Option<string>)
    requires Parse(tag) == Some(v)
    ensures FourthEpochSource(tag, baseSha, source) <==> FourthSource(v, baseSha, source)
  {
    HistoricalExact(tag, v);
    var all := HISTORICAL_RELEASES;
    assert all[0].source == FIRST_SOURCE && all[1].source == SECOND_SOURCE && all[2].source == THIRD_SOURCE;
  }

  /** A tag on the tag before it, under the name of its version, with the sources it fixes. */
  predicate Publishable(name: string, id: Option<int>, tag: string, baseTag: string, baseSha: string,
                        source: Option<string>, base: Version, v: Version) {
    && Parse(baseTag) == Some(base) && Parse(tag) == Some(v)
    && v == Version(base.major, base.minor, base.patch + 1)
    && id == Some(REPOSITORY_ID) && CommitText(baseSha)
    && (if Before(v, 70) then name == OLD_REPOSITORY && IsPatch(v, 69) && baseSha == CHECKPOINT_SOURCE
        else name == NEW_REPOSITORY)
    && (IsPatch(v, 78) ==> baseSha == TERMINAL_V2_SOURCE)
    && (!Before(v, 81) ==> FourthSource(v, baseSha, source))
  }

  lemma TagsAre(tag: string, v: Version, baseTag: string, base: Version)
    requires Parse(tag) == Some(v) && Parse(baseTag) == Some(base) && v == Bump(base)
    ensures tag == TERMINAL_V1_TAG && baseTag == CHECKPOINT_TAG <==> IsPatch(v, 69)
    ensures tag == FIRST_V3_TAG <==> IsPatch(v, 78)
    ensures tag == FIRST_V3_TAG ==> baseTag == TERMINAL_V2_TAG
    ensures NextTag(baseTag) == Some(tag)
  {
    PinnedTags();
    ParseExact(tag, v);
    TagIs(tag, TERMINAL_V1_TAG);
    TagIs(baseTag, CHECKPOINT_TAG);
    TagIs(tag, FIRST_V3_TAG);
    TagIs(baseTag, TERMINAL_V2_TAG);
  }

  lemma ShaExact(s: string)
    ensures Sha(s) <==> CommitText(s)
  {
  }

  /** A publication is granted exactly on these terms. */
  lemma PublicationExact(name: string, id: Option<int>, tag: string, baseTag: string, baseSha: string,
                         source: Option<string>)
    ensures Publication(name, id, tag, baseTag, baseSha, source).Some? <==>
            exists base, v :: Publishable(name, id, tag, baseTag, baseSha, source, base, v)
    ensures Publication(name, id, tag, baseTag, baseSha, source).Some? ==>
            Publication(name, id, tag, baseTag, baseSha, source) == IdentityOf(tag)
  {
    if Parse(tag).Some? && Parse(baseTag).Some? {
      var v, base := Parse(tag).value, Parse(baseTag).value;
      if NextTag(baseTag) == Some(tag) {
        ParseExact(tag, v);
        ParseExact(tag, Bump(base));
      }
      if v == Bump(base) { PublicationAt(name, id, tag, baseTag, baseSha, source, base, v); }
    }
  }

  lemma PublicationAt(name: string, id: Option<int>, tag: string, baseTag: string, baseSha: string,
                      source: Option<string>, base: Version, v: Version)
    requires Parse(tag) == Some(v) && Parse(baseTag) == Some(base) && v == Bump(base)
    ensures Publication(name, id, tag, baseTag, baseSha, source).Some? <==>
            Publishable(name, id, tag, baseTag, baseSha, source, base, v)
  {
    NamesDiffer();
    TagsAre(tag, v, baseTag, base);
    IdentityExact(tag, IdentityOf(tag).value);
    ShaExact(baseSha);
    FourthSourceExact(tag, v, baseSha, source);
  }

  /** A release: its tag and its source. */
  datatype Release = Release(tag: string, source: string)

  /** How an edge was asked for: under which name and object, and whether with its source. */
  datatype Request = Request(name: string, id: Option<int>, withSource: bool)

  predicate Published(q: Request, base: Release, r: Release) {
    Publication(q.name, q.id, r.tag, base.tag, base.source, if q.withSource then Some(r.source) else None).Some?
  }

  /** A chain: every release after the first was published on the one before it. */
  predicate Chain(releases: seq<Release>, requests: seq<Request>) {
    |releases| == |requests| + 1 && forall i :: 0 <= i < |requests| ==>
      Published(requests[i], releases[i], releases[i + 1])
  }

  /** One edge: the version rises by one patch, and everything the edge pins. */
  predicate GoodEdge(q: Request, base: Release, r: Release) {
    && Parse(base.tag).Some? && Parse(r.tag) == Some(Bump(Parse(base.tag).value))
    && q.id == Some(REPOSITORY_ID)
    && (q.name == OLD_REPOSITORY <==> r.tag == TERMINAL_V1_TAG)
    && (q.name != OLD_REPOSITORY ==> q.name == NEW_REPOSITORY && Epoch(Parse(r.tag).value) >= 2)
    && (base.tag == CHECKPOINT_TAG ==> base.source == CHECKPOINT_SOURCE)
    && (base.tag == TERMINAL_V2_TAG ==> base.source == TERMINAL_V2_SOURCE)
    && (base.tag == TERMINAL_V3_TAG ==> base.source == TERMINAL_V3_SOURCE)
  }

  lemma NamesDiffer()
    ensures OLD_REPOSITORY != NEW_REPOSITORY
  {
    assert OLD_REPOSITORY[7] == 'w' && NEW_REPOSITORY[7] == 'p';
  }

  lemma EdgeVersions(q: Request, base: Release, r: Release)
    requires Published(q, base, r)
    ensures Parse(base.tag).Some? && Parse(r.tag) == Some(Bump(Parse(base.tag).value))
    ensures r.tag == TERMINAL_V1_TAG <==> base.tag == CHECKPOINT_TAG
    ensures r.tag == FIRST_V3_TAG <==> base.tag == TERMINAL_V2_TAG
    ensures Parse(r.tag) == Some(Patch(FIRST_V4)) <==> base.tag == TERMINAL_V3_TAG
  {
    var v := Parse(base.tag).value;
    assert r.tag == Show(Bump(v));
    ParseExact(r.tag, Bump(v));
    ParseExact(r.tag, Parse(r.tag).value);
    PinnedTags();
    ParseExact(base.tag, v);
    PatchTags(base.tag, v, r.tag);
  }

  lemma FollowingTag(baseTag: string, v: Version, tag: string, n: nat)
    requires Parse(baseTag) == Some(v) && Parse(tag) == Some(Bump(v)) && 10 <= n < 99
    ensures tag == Show(Patch(n + 1)) <==> baseTag == Show(Patch(n))
    ensures Parse(tag) == Some(Patch(n + 1)) <==> baseTag == Show(Patch(n))
  {
    ShowPatch(n);
    ShowPatch(n + 1);
    TagIs(tag, Show(Patch(n + 1)));
    TagIs(baseTag, Show(Patch(n)));
  }

  lemma PatchTags(baseTag: string, v: Version, tag: string)
    requires Parse(baseTag) == Some(v) && Parse(tag) == Some(Bump(v))
    ensures tag == TERMINAL_V1_TAG <==> baseTag == CHECKPOINT_TAG
    ensures tag == FIRST_V3_TAG <==> baseTag == TERMINAL_V2_TAG
    ensures Parse(tag) == Some(Patch(FIRST_V4)) <==> baseTag == TERMINAL_V3_TAG
  {
    FollowingTag(baseTag, v, tag, CHECKPOINT);
    FollowingTag(baseTag, v, tag, TERMINAL_V2);
    FollowingTag(baseTag, v, tag, TERMINAL_V3);
  }

  lemma TagIs(a: string, b: string)
    requires Parse(a).Some? && Parse(b).Some?
    ensures a == b <==> Parse(a) == Parse(b)
  {
    if Parse(a) == Parse(b) { ParseInjective(a, b); }
  }

  lemma EdgeExact(q: Request, base: Release, r: Release)
    requires Published(q, base, r)
    ensures GoodEdge(q, base, r)
  {
    EdgeVersions(q, base, r);
    NamesDiffer();
    PinnedTags();
    var v := Parse(r.tag).value;
    HistoricalExact(r.tag, v);
    if r.tag == TERMINAL_V1_TAG { assert v == Patch(TERMINAL_V1) && Epoch(v) == 1; }
    if base.tag == TERMINAL_V3_TAG { assert v == Patch(FIRST_V4) && Epoch(v) == 4; }
  }

  function Later(v: Version, n: nat): Version {
    v.(patch := v.patch + n)
  }

  /** The second tag reads as the patch after the first. */
  predicate Follows(a: string, b: string) {
    Parse(a).Some? && Parse(b) == Some(Bump(Parse(a).value))
  }

  predicate Rising(tags: seq<string>) {
    forall k :: 0 <= k < |tags| - 1 ==> Follows(tags[k], tags[k + 1])
  }

  function Tags(releases: seq<Release>): seq<string> {
    seq(|releases|, k requires 0 <= k < |releases| => releases[k].tag)
  }

  lemma ChainRises(releases: seq<Release>, requests: seq<Request>)
    requires Chain(releases, requests)
    ensures Rising(Tags(releases))
  {
    forall k | 0 <= k < |requests| ensures Follows(releases[k].tag, releases[k + 1].tag) {
      EdgeVersions(requests[k], releases[k], releases[k + 1]);
    }
  }

  lemma {:induction false} RisingVersions(tags: seq<string>, i: nat, j: nat, v: Version)
    requires Rising(tags) && i <= j < |tags| && Parse(tags[i]) == Some(v)
    ensures Parse(tags[j]) == Some(Later(v, j - i))
    decreases j - i
  {
    if i < j {
      RisingVersions(tags, i, j - 1, v);
      assert Follows(tags[j - 1], tags[j - 1 + 1]);
    }
  }

  /** Along a chain the versions rise by exactly one patch a step. */
  lemma ChainVersions(releases: seq<Release>, requests: seq<Request>, i: nat, j: nat, v: Version)
    requires Chain(releases, requests) && i <= j < |releases| && Parse(releases[i].tag) == Some(v)
    ensures Parse(releases[j].tag) == Some(Later(v, j - i))
  {
    ChainRises(releases, requests);
    RisingVersions(Tags(releases), i, j, v);
  }

  lemma RisingEpochs(tags: seq<string>, i: nat, j: nat)
    requires Rising(tags) && i < j < |tags|
    ensures Parse(tags[i]).Some? && Parse(tags[j]).Some?
    ensures Epoch(Parse(tags[i]).value) <= Epoch(Parse(tags[j]).value)
    ensures tags[i] != tags[j]
  {
    assert Follows(tags[i], tags[i + 1]);
    RisingVersions(tags, i, j, Parse(tags[i]).value);
  }

  /** Along a chain the epochs never fall, and no release is published twice. */
  lemma ChainEpochs(releases: seq<Release>, requests: seq<Request>, i: nat, j: nat)
    requires Chain(releases, requests) && i < j < |releases|
    ensures Parse(releases[i].tag).Some? && Parse(releases[j].tag).Some?
    ensures Epoch(Parse(releases[i].tag).value) <= Epoch(Parse(releases[j].tag).value)
    ensures releases[i].tag != releases[j].tag
  {
    ChainRises(releases, requests);
    RisingEpochs(Tags(releases), i, j);
  }

  /** The old name appears only on the edge from the checkpoint to the terminal release of
      the first epoch. */
  lemma OldNameEdge(releases: seq<Release>, requests: seq<Request>, i: nat)
    requires Chain(releases, requests) && i < |requests|
    ensures requests[i].name == OLD_REPOSITORY <==> releases[i + 1].tag == TERMINAL_V1_TAG
    ensures requests[i].name == OLD_REPOSITORY ==> releases[i] == Release(CHECKPOINT_TAG, CHECKPOINT_SOURCE)
  {
    EdgeExact(requests[i], releases[i], releases[i + 1]);
    EdgeVersions(requests[i], releases[i], releases[i + 1]);
  }

  /** So a chain uses the old name at most once. */
  lemma OldNameOnce(releases: seq<Release>, requests: seq<Request>, i: nat, j: nat)
    requires Chain(releases, requests) && i < |requests| && j < |requests|
    requires requests[i].name == OLD_REPOSITORY && requests[j].name == OLD_REPOSITORY
    ensures i == j
  {
    OldNameEdge(releases, requests, i);
    OldNameEdge(releases, requests, j);
    if i < j { ChainEpochs(releases, requests, i + 1, j + 1); }
    if j < i { ChainEpochs(releases, requests, j + 1, i + 1); }
  }

  lemma SourcesDistinct()
    ensures FIRST_SOURCE != SECOND_SOURCE && SECOND_SOURCE != THIRD_SOURCE && FIRST_SOURCE != THIRD_SOURCE
  {
    assert FIRST_SOURCE[0] == '0' && SECOND_SOURCE[0] == '9' && THIRD_SOURCE[0] == '3';
  }

  lemma EdgeSource(q: Request, base: Release, r: Release, v: Version)
    requires Published(q, base, r) && Parse(r.tag) == Some(v) && Epoch(v) == 4
    ensures FourthEpochSource(r.tag, base.source, Some(r.source))
  {
  }

  predicate SourceAt(r: Release, base: Release, v: Version, k: nat)
    requires k < |HISTORICAL_RELEASES|
  {
    && (r.source == HISTORICAL_RELEASES[k].source <==> v == Patch(FIRST_V4 + k))
    && (r.source == HISTORICAL_RELEASES[k].source ==> base.source == HISTORICAL_RELEASES[k].parent)
  }

  lemma SourcePlaced(base: Release, r: Release, v: Version)
    requires Parse(r.tag) == Some(v) && FourthEpochSource(r.tag, base.source, Some(r.source))
    ensures SourceAt(r, base, v, 0) && SourceAt(r, base, v, 1) && SourceAt(r, base, v, 2)
  {
    HistoricalExact(r.tag, v);
    SourcesDistinct();
    var all := HISTORICAL_RELEASES;
    assert all[0].source == FIRST_SOURCE && all[1].source == SECOND_SOURCE && all[2].source == THIRD_SOURCE;
  }

  /** In the fourth epoch each historical source is published at its one tag and nowhere
      else, and on its own parent. */
  lemma HistoricalSources(releases: seq<Release>, requests: seq<Request>, i: nat, k: nat)
    requires Chain(releases, requests) && i < |requests| && k < |HISTORICAL_RELEASES|
    requires Parse(releases[i + 1].tag).Some? && Epoch(Parse(releases[i + 1].tag).value) == 4
    ensures SourceAt(releases[i + 1], releases[i], Parse(releases[i + 1].tag).value, k)
  {
    var v := Parse(releases[i + 1].tag).value;
    EdgeSource(requests[i], releases[i], releases[i + 1], v);
    SourcePlaced(releases[i], releases[i + 1], v);
    assert k == 0 || k == 1 || k == 2;
  }

  // --------------------------------------------------------------------------
  // Which sources a chain pins

  /** The source pinned for a tag. */
  function PinnedSource(n: nat): Option<string> {
    if n == CHECKPOINT then Some(CHECKPOINT_SOURCE)
    else if n == TERMINAL_V2 then Some(TERMINAL_V2_SOURCE)
    else if n == TERMINAL_V3 then Some(TERMINAL_V3_SOURCE)
    else if FIRST_V4 <= n < FIRST_V4 + 3 then Some(HISTORICAL_RELEASES[n - FIRST_V4].source)
    else None
  }

  /** A tag is pinned as the base of the edge out of it, or, if historical, by the edge into
      it. The last historical tag has no successor that names it. */
  predicate Forced(n: nat, i: nat, edges: nat) {
    || (n in {CHECKPOINT, TERMINAL_V2, TERMINAL_V3, FIRST_V4, FIRST_V4 + 1} && i < edges)
    || (FIRST_V4 <= n < FIRST_V4 + 3 && i > 0)
  }

  function Resourced(releases: seq<Release>, i: nat, source: string): seq<Release>
    requires i < |releases|
  {
    releases[i := Release(releases[i].tag, source)]
  }

  lemma HistoricalHere(n: nat)
    requires FIRST_V4 <= n < FIRST_V4 + 3
    ensures Parse(Show(Patch(n))) == Some(Patch(n)) && Epoch(Patch(n)) == 4
    ensures HistoricalRelease(Show(Patch(n))) == Some(HISTORICAL_RELEASES[n - FIRST_V4])
  {
    ShowPatch(n);
    HistoricalExact(Show(Patch(n)), Patch(n));
  }

  lemma HistoricalEdge(q: Request, base: Release, r: Release, v: Version, frozen: Historical)
    requires Published(q, base, r) && Parse(r.tag) == Some(v) && Epoch(v) == 4
    requires HistoricalRelease(r.tag) == Some(frozen)
    ensures r.source == frozen.source && base.source == frozen.parent
  {
  }

  lemma FourthEdge(q: Request, base: Release, r: Release, n: nat)
    requires Published(q, base, r) && r.tag == Show(Patch(n)) && FIRST_V4 <= n < FIRST_V4 + 3
    ensures r.source == HISTORICAL_RELEASES[n - FIRST_V4].source
    ensures base.source == HISTORICAL_RELEASES[n - FIRST_V4].parent
  {
    HistoricalHere(n);
    HistoricalEdge(q, base, r, Patch(n), HISTORICAL_RELEASES[n - FIRST_V4]);
  }

  lemma ParentPinned(q: Request, base: Release, r: Release, n: nat)
    requires Published(q, base, r) && base.tag == Show(Patch(n)) && FIRST_V4 <= n < FIRST_V4 + 2
    ensures base.source == HISTORICAL_RELEASES[n - FIRST_V4].source
  {
    PatchReads(n);
    FourthEdge(q, base, r, n + 1);
  }

  lemma BasePinned(q: Request, base: Release, r: Release, n: nat, pinned: string)
    requires Published(q, base, r) && base.tag == Show(Patch(n)) && PinnedSource(n) == Some(pinned)
    requires n != FIRST_V4 + 2
    ensures base.source == pinned
  {
    if n < FIRST_V4 {
      EdgeExact(q, base, r);
    } else {
      ParentPinned(q, base, r, n);
    }
  }

  lemma ForcedSource(releases: seq<Release>, requests: seq<Request>, i: nat, n: nat, pinned: string)
    requires Chain(releases, requests) && i < |releases| && releases[i].tag == Show(Patch(n))
    requires PinnedSource(n) == Some(pinned) && Forced(n, i, |requests|)
    ensures releases[i].source == pinned
  {
    if FIRST_V4 <= n && i > 0 {
      FourthEdge(requests[i - 1], releases[i - 1], releases[i], n);
    } else {
      BasePinned(requests[i], releases[i], releases[i + 1], n, pinned);
    }
  }

  /** Before the fourth epoch the edge into a release does not look at its source. */
  lemma FreeInto(q: Request, base: Release, r: Release, v: Version, source: string)
    requires Published(q, base, r) && Parse(r.tag) == Some(v) && Epoch(v) < 4
    ensures Published(q, base, Release(r.tag, source))
  {
  }

  lemma TagsDiffer(m: nat, n: nat)
    requires 10 <= m < 100 && 10 <= n < 100 && m != n
    ensures Show(Patch(m)) != Show(Patch(n))
  {
    ShowPatch(m);
    ShowPatch(n);
  }

  lemma LaterTag(n: nat)
    requires FIRST_V4 + 2 <= n < 98
    ensures NextTag(Show(Patch(n))) == Some(Show(Patch(n + 1))) && Parse(Show(Patch(n + 1))) == Some(Patch(n + 1))
    ensures HistoricalRelease(Show(Patch(n + 1))) == None
    ensures Show(Patch(n + 1)) != FIRST_V3_TAG && Show(Patch(n + 1)) != TERMINAL_V1_TAG
  {
    PatchReads(n);
    TagsDiffer(n + 1, FIRST_V3);
    TagsDiffer(n + 1, TERMINAL_V1);
    NoneHistorical(n + 1);
  }

  lemma NoneHistorical(n: nat)
    requires FIRST_V4 + 3 <= n < 100
    ensures Parse(Show(Patch(n))) == Some(Patch(n)) && HistoricalRelease(Show(Patch(n))) == None
  {
    ShowPatch(n);
    HistoricalExact(Show(Patch(n)), Patch(n));
  }

  /** After the historical tags the edge out of a release looks only at the form of its source. */
  lemma FreeOut(q: Request, base: Release, r: Release, source: string)
    requires Published(q, base, r) && NextTag(base.tag) == Some(r.tag) && Sha(source)
    requires HistoricalRelease(r.tag) == None && r.tag != FIRST_V3_TAG && r.tag != TERMINAL_V1_TAG
    ensures Published(q, Release(base.tag, source), r)
  {
  }

  /** Nothing can be published at the checkpoint. */
  lemma CheckpointStarts(q: Request, base: Release, r: Release)
    requires Published(q, base, r)
    ensures r.tag != CHECKPOINT_TAG
  {
    PinnedTags();
    EdgeExact(q, base, r);
  }

  lemma FreeBefore(q: Request, base: Release, r: Release, n: nat, source: string)
    requires Published(q, base, r) && r.tag == Show(Patch(n)) && PinnedSource(n).Some? && n < FIRST_V4
    ensures n != CHECKPOINT && Published(q, base, Release(r.tag, source))
  {
    CheckpointStarts(q, base, r);
    ShowPatch(n);
    FreeInto(q, base, r, Patch(n), source);
  }

  lemma FreeAfter(q: Request, base: Release, r: Release, n: nat, source: string)
    requires Published(q, base, r) && base.tag == Show(Patch(n)) && n == FIRST_V4 + 2 && Sha(source)
    ensures Published(q, Release(base.tag, source), r)
  {
    LaterTag(n);
    PatchReads(n);
    EdgeVersions(q, base, r);
    ParseExact(r.tag, Patch(n + 1));
    FreeOut(q, base, r, source);
  }

  /** Replacing one element where the two edges beside it allow that. */
  lemma ReplaceOne(
    edge: (Request, Release, Release) -> bool, releases: seq<Release>, requests: seq<Request>, i: nat, r: Release)
    requires |releases| == |requests| + 1 && i < |releases|
    requires forall k :: 0 <= k < |requests| ==> edge(requests[k], releases[k], releases[k + 1])
    requires i > 0 ==> edge(requests[i - 1], releases[i - 1], r)
    requires i < |requests| ==> edge(requests[i], r, releases[i + 1])
    ensures forall k :: 0 <= k < |requests| ==> edge(requests[k], releases[i := r][k], releases[i := r][k + 1])
  {
  }

  lemma UnforcedFree(releases: seq<Release>, requests: seq<Request>, i: nat, n: nat, source: string)
    requires Chain(releases, requests) && i < |releases| && releases[i].tag == Show(Patch(n))
    requires PinnedSource(n).Some? && !Forced(n, i, |requests|) && Sha(source)
    ensures Chain(Resourced(releases, i, source), requests)
  {
    if i > 0 {
      FreeBefore(requests[i - 1], releases[i - 1], releases[i], n, source);
    } else if i < |requests| {
      FreeAfter(requests[i], releases[i], releases[i + 1], n, source);
    }
    ReplaceOne(Published, releases, requests, i, Release(releases[i].tag, source));
  }

  function Forty(c: char): string { seq(40, _ => c) }

  lemma FortyUnpinned(c: char, n: nat, pinned: string)
    requires (c == '1' || c == '2') && PinnedSource(n) == Some(pinned)
    ensures Sha(Forty(c)) && Forty(c) != pinned
  {
    assert Forty(c)[0] == c;
    assert CHECKPOINT_SOURCE[0] == 'b' && TERMINAL_V2_SOURCE[0] == '7' && TERMINAL_V3_SOURCE[0] == '4';
    assert FIRST_SOURCE[0] == '0' && SECOND_SOURCE[0] == '9' && THIRD_SOURCE[0] == '3';
  }

  /** In every chain a release at a pinned tag is forced to its pinned source exactly when it
      is not the last release and something else is published on its own source, or when it
      is historical and not the first; everywhere else any source could stand in its place. */
  lemma PinnedExact(releases: seq<Release>, requests: seq<Request>, i: nat, n: nat, pinned: string)
    requires Chain(releases, requests) && i < |releases| && releases[i].tag == Show(Patch(n))
    requires PinnedSource(n) == Some(pinned)
    ensures Forced(n, i, |requests|) ==> releases[i].source == pinned
    ensures Forced(n, i, |requests|) <==>
      forall source :: Chain(Resourced(releases, i, source), requests) ==> source == pinned
    ensures !Forced(n, i, |requests|) ==>
      forall source :: Sha(source) ==> Chain(Resourced(releases, i, source), requests)
  {
    if Forced(n, i, |requests|) {
      ForcedSource(releases, requests, i, n, pinned);
      forall source | Chain(Resourced(releases, i, source), requests) ensures source == pinned {
        ForcedSource(Resourced(releases, i, source), requests, i, n, pinned);
      }
    } else {
      forall source | Sha(source) ensures Chain(Resourced(releases, i, source), requests) {
        UnforcedFree(releases, requests, i, n, source);
      }
      FortyUnpinned('1', n, pinned);
    }
  }

  predicate UnknownSource(source: string) {
    Sha(source) && source != FIRST_SOURCE && source != SECOND_SOURCE && source != THIRD_SOURCE
  }

  lemma LaterEdge(q: Request, base: Release, r: Release, v: Version)
    requires NextTag(base.tag) == Some(r.tag) && Parse(r.tag) == Some(v) && Epoch(v) == 4
    requires HistoricalRelease(r.tag) == None && r.tag != FIRST_V3_TAG
    requires q == Request(NEW_REPOSITORY, Some(REPOSITORY_ID), true) && Sha(base.source) && UnknownSource(r.source)
    ensures Published(q, base, r)
  {
    NamesDiffer();
    assert FourthEpochSource(r.tag, base.source, Some(r.source));
  }

  lemma MiddleEdge(q: Request, base: Release, r: Release, v: Version)
    requires NextTag(base.tag) == Some(r.tag) && Parse(r.tag) == Some(v) && 2 <= Epoch(v) < 4
    requires r.tag != FIRST_V3_TAG && Sha(base.source)
    requires q == Request(NEW_REPOSITORY, Some(REPOSITORY_ID), true)
    ensures Published(q, base, r)
  {
    NamesDiffer();
  }

  lemma MiddleTag(n: nat)
    requires FIRST_V2 <= n < TERMINAL_V3 && n != TERMINAL_V2
    ensures NextTag(Show(Patch(n))) == Some(Show(Patch(n + 1))) && Parse(Show(Patch(n + 1))) == Some(Patch(n + 1))
    ensures 2 <= Epoch(Patch(n + 1)) < 4 && Show(Patch(n + 1)) != FIRST_V3_TAG
  {
    PatchReads(n);
    PatchReads(n + 1);
    PatchReads(FIRST_V3);
    TagIs(Show(Patch(n + 1)), FIRST_V3_TAG);
  }

  lemma OneEdge(q: Request, base: Release, r: Release)
    requires Published(q, base, r)
    ensures Chain([base, r], [q])
  {
  }

  lemma LaterWitness(n: nat, pinned: string) returns (releases: seq<Release>, requests: seq<Request>)
    requires PinnedSource(n) == Some(pinned) && FIRST_V4 + 2 <= n
    ensures Chain(releases, requests) && |requests| == 1
    ensures releases[0].tag == Show(Patch(n)) && releases[0].source != pinned
  {
    FortyUnpinned('1', n, pinned);
    FortyUnpinned('2', FIRST_V4, FIRST_SOURCE);
    FortyUnpinned('2', FIRST_V4 + 1, SECOND_SOURCE);
    FortyUnpinned('2', FIRST_V4 + 2, THIRD_SOURCE);
    LaterTag(n);
    var base, r := Release(Show(Patch(n)), Forty('1')), Release(Show(Patch(n + 1)), Forty('2'));
    var q := Request(NEW_REPOSITORY, Some(REPOSITORY_ID), true);
    LaterEdge(q, base, r, Patch(n + 1));
    OneEdge(q, base, r);
    releases, requests := [base, r], [q];
  }

  lemma MiddleWitness(n: nat, pinned: string) returns (releases: seq<Release>, requests: seq<Request>)
    requires PinnedSource(n) == Some(pinned) && n in {TERMINAL_V2, TERMINAL_V3}
    ensures Chain(releases, requests) && |requests| == 1
    ensures releases[1].tag == Show(Patch(n)) && releases[1].source != pinned
  {
    FortyUnpinned('1', n, pinned);
    MiddleTag(n - 1);
    var base, r := Release(Show(Patch(n - 1)), Forty('1')), Release(Show(Patch(n)), Forty('1'));
    var q := Request(NEW_REPOSITORY, Some(REPOSITORY_ID), true);
    MiddleEdge(q, base, r, Patch(n));
    OneEdge(q, base, r);
    releases, requests := [base, r], [q];
  }

  /** Every unforced place is there: a chain of the given length, at most one edge, with a
      foreign source at the pinned tag. */
  lemma UnforcedWitness(n: nat, i: nat, edges: nat, pinned: string)
    returns (releases: seq<Release>, requests: seq<Request>)
    requires PinnedSource(n) == Some(pinned) && !Forced(n, i, edges) && i <= edges <= 1
    requires n == CHECKPOINT ==> i == 0
    ensures Chain(releases, requests) && |requests| == edges
    ensures releases[i].tag == Show(Patch(n)) && releases[i].source != pinned
  {
    if edges == 0 {
      FortyUnpinned('1', n, pinned);
      releases, requests := [Release(Show(Patch(n)), Forty('1'))], [];
    } else if i == 0 {
      releases, requests := LaterWitness(n, pinned);
    } else {
      releases, requests := MiddleWitness(n, pinned);
    }
  }
}
