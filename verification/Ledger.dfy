/** The reservation ledger of scripts/validate_reserved_storage_evidence.py and what it
    guarantees for every later run of allocations. */
module Ledger {
  import Numerals
  import opened Text
  import opened Extents

  /** The two inventories: what is expected of a key, and what was observed of it. */
  datatype Expected = Expected(identity: Identity, reserved: int)

  datatype Observed = Observed(identity: Identity, allocatedBefore: int, allocatedAfter: int)

  /** One reservation, both sides of it. */
  datatype Reservation = Reservation(
    identity: Identity, reserved: int,
    observed: Identity, allocatedBefore: int, allocatedAfter: int)

  datatype PoolIdentity = PoolIdentity(uuid: string, device: string, node: string)

  /** The pool: what is expected of it and what was observed. */
  datatype Pool = Pool(
    expected: PoolIdentity, observed: PoolIdentity, filesystem: string, inventoryComplete: bool,
    capacity: int, before: int, after: int, hostReserve: int,
    inodesBefore: int, inodesAfter: int, inodeReserve: int)

  predicate TextCharacter(c: char) {
    'A' <= c <= 'Z' || 'a' <= c <= 'z' || Numerals.IsDigit(c) || c in "_./:+-"
  }

  /** `text`. */
  predicate TextForm(s: string) {
    0 < |s| <= 256 && forall i :: 0 <= i < |s| ==> TextCharacter(s[i])
  }

  /** The device of an identity: two plain numbers around a colon. */
  predicate DeviceForm(s: string) {
    var parts := Split(s, ':');
    |parts| == 2 && Numerals.Canonical(parts[0]) && Numerals.Canonical(parts[1])
  }

  function Paired(e: Expected, o: Observed): Reservation {
    Reservation(e.identity, e.reserved, o.identity, o.allocatedBefore, o.allocatedAfter)
  }

  predicate KeysFormed(expected: seq<(string, Expected)>) {
    forall i :: 0 <= i < |expected| ==> TextForm(expected[i].0)
  }

  predicate Listed(expected: seq<(string, Expected)>, observed: map<string, Observed>) {
    forall i :: 0 <= i < |expected| ==> expected[i].0 in observed
  }

  /** The reservations, in the order in which they are expected. */
  function Joined(expected: seq<(string, Expected)>, observed: map<string, Observed>): (rs: seq<Reservation>)
    requires Listed(expected, observed)
    ensures |rs| == |expected|
  {
    seq(|expected|, i requires 0 <= i < |expected| => Paired(expected[i].1, observed[expected[i].0]))
  }

  function Keys(expected: seq<(string, Expected)>): set<string> {
    set i | 0 <= i < |expected| :: expected[i].0
  }

  lemma SameKeysListed(expected: seq<(string, Expected)>, observed: map<string, Observed>)
    requires observed.Keys == Keys(expected)
    ensures Listed(expected, observed)
  {
    assert forall i :: 0 <= i < |expected| ==> expected[i].0 in Keys(expected);
  }

  function Max(a: int, b: int): int {
    if a > b then a else b
  }

  /** The bytes a reservation still has to be given. */
  function Shortfall(reserved: int, given: int): int {
    Max(0, reserved - given)
  }

  function Before(rs: seq<Reservation>): seq<int> {
    seq(|rs|, i requires 0 <= i < |rs| => rs[i].allocatedBefore)
  }

  function AfterBytes(rs: seq<Reservation>): seq<int> {
    seq(|rs|, i requires 0 <= i < |rs| => rs[i].allocatedAfter)
  }

  function Reserved(rs: seq<Reservation>): seq<int> {
    seq(|rs|, i requires 0 <= i < |rs| => rs[i].reserved)
  }

  function Sum(s: seq<int>): int {
    if s == [] then 0 else Sum(s[..|s| - 1]) + s[|s| - 1]
  }

  /** The sum of all shortfalls. */
  function Outstanding(reserved: seq<int>, given: seq<int>): int
    requires |reserved| == |given|
  {
    if reserved == [] then 0
    else
      var last := |reserved| - 1;
      Outstanding(reserved[..last], given[..last]) + Shortfall(reserved[last], given[last])
  }

  predicate ReservationOk(r: Reservation, p: Pool) {
    && DeviceForm(r.identity.device) && Number(r.identity.inode, 1)
    && r.identity.device == p.expected.device
    && Number(r.reserved, 1)
    && r.observed == r.identity
    && Number(r.allocatedBefore, 0) && r.allocatedBefore <= p.capacity
    && Number(r.allocatedAfter, 0) && r.allocatedAfter <= p.capacity
  }

  predicate DistinctInodes(rs: seq<Reservation>) {
    forall i, j :: 0 <= i < j < |rs| ==> rs[i].identity != rs[j].identity
  }

  predicate ReservationsOk(rs: seq<Reservation>, p: Pool) {
    (forall i :: 0 <= i < |rs| ==> ReservationOk(rs[i], p)) && DistinctInodes(rs)
  }

  predicate PoolOk(p: Pool) {
    && TextForm(p.expected.uuid) && TextForm(p.expected.device) && TextForm(p.expected.node)
    && p.observed == p.expected && p.filesystem == "ext4" && p.inventoryComplete
    && Number(p.hostReserve, 1) && Number(p.inodeReserve, 1) && Number(p.capacity, 1)
    && Number(p.before, 0) && Number(p.after, 0) && p.before <= p.capacity && p.after <= p.capacity
    && Number(p.inodesBefore, 0) && Number(p.inodesAfter, 0)
  }

  predicate LedgerOk(rs: seq<Reservation>, p: Pool) {
    && PoolOk(p) && 2 <= |rs| <= 64 && ReservationsOk(rs, p)
    && Sum(Before(rs)) <= p.capacity - p.before
    && Sum(AfterBytes(rs)) <= p.capacity - p.after
    && Outstanding(Reserved(rs), Before(rs)) + p.hostReserve <= p.before
    && Outstanding(Reserved(rs), AfterBytes(rs)) + p.hostReserve <= p.after
    && p.inodesBefore >= p.inodeReserve + 2 && p.inodesAfter >= p.inodeReserve
  }

  /** The ledger part of the acceptance: the same keys on both sides, and a good ledger. */
  predicate Accepted(expected: seq<(string, Expected)>, observed: map<string, Observed>, p: Pool) {
    && observed.Keys == Keys(expected) && KeysFormed(expected)
    && Listed(expected, observed) && LedgerOk(Joined(expected, observed), p)
  }

  datatype Totals = Totals(additional: int, outstanding: int, before: int, after: int)

  function TotalsOf(rs: seq<Reservation>): Totals {
    Totals(Outstanding(Reserved(rs), Before(rs)), Outstanding(Reserved(rs), AfterBytes(rs)),
           Sum(Before(rs)), Sum(AfterBytes(rs)))
  }

  function AddTotals(t: Totals, r: Reservation): Totals {
    Totals(t.additional + Shortfall(r.reserved, r.allocatedBefore),
           t.outstanding + Shortfall(r.reserved, r.allocatedAfter),
           t.before + r.allocatedBefore, t.after + r.allocatedAfter)
  }

  lemma TotalsStep(rs: seq<Reservation>, r: Reservation)
    ensures TotalsOf(rs + [r]) == AddTotals(TotalsOf(rs), r)
  {
    var n, all := |rs|, rs + [r];
    assert Before(all)[..n] == Before(rs);
    assert AfterBytes(all)[..n] == AfterBytes(rs);
    assert Reserved(all)[..n] == Reserved(rs);
  }

  lemma RefusedAt(rs: seq<Reservation>, p: Pool, i: nat)
    requires i < |rs| && (!ReservationOk(rs[i], p) || exists k :: 0 <= k < i && rs[k].identity == rs[i].identity)
    ensures !ReservationsOk(rs, p)
  {
  }

  /** The loop over the reservations, with its four sums. */
  method Total(expected: seq<(string, Expected)>, observed: map<string, Observed>, p: Pool)
    returns (r: Option<Totals>)
    requires Listed(expected, observed)
    ensures r.Some? <==> ReservationsOk(Joined(expected, observed), p) && KeysFormed(expected)
    ensures r.Some? ==> r.value == TotalsOf(Joined(expected, observed))
  {
    ghost var rs := Joined(expected, observed);
    var identities: set<Identity> := {};
    var additional, outstanding, beforeTotal, afterTotal := 0, 0, 0, 0;
    for i := 0 to |expected|
      invariant ReservationsOk(rs[..i], p) && KeysFormed(expected[..i])
      invariant identities == set k | 0 <= k < i :: rs[k].identity
      invariant Totals(additional, outstanding, beforeTotal, afterTotal) == TotalsOf(rs[..i])
    {
      if !TextForm(expected[i].0) {
        return None;
      }
      var e := expected[i].1;
      var o := observed[expected[i].0];
      assert rs[i] == Paired(e, o) && rs[..i + 1] == rs[..i] + [rs[i]];
      if !ReservationOk(Paired(e, o), p) || e.identity in identities {
        RefusedAt(rs, p, i);
        return None;
      }
      TotalsStep(rs[..i], rs[i]);
      identities := identities + {e.identity};
      additional := additional + Max(0, e.reserved - o.allocatedBefore);
      outstanding := outstanding + Max(0, e.reserved - o.allocatedAfter);
      beforeTotal := beforeTotal + o.allocatedBefore;
      afterTotal := afterTotal + o.allocatedAfter;
    }
    assert rs[..|rs|] == rs && expected[..|expected|] == expected;
    r := Some(Totals(additional, outstanding, beforeTotal, afterTotal));
  }

  /** The ledger part of `validate`; the expected reservations are the items of a dictionary. */
  method CheckLedger(expected: seq<(string, Expected)>, observed: map<string, Observed>, p: Pool) returns (ok: bool)
    ensures ok <==> Accepted(expected, observed, p)
  {
    if !PoolOk(p) || |expected| < 2 || |expected| > 64 || observed.Keys != Keys(expected) { return false; }
    SameKeysListed(expected, observed);
    var totals := Total(expected, observed, p);
    if totals.None? { return false; }
    var t := totals.value;
    ok := t.before <= p.capacity - p.before && t.after <= p.capacity - p.after
      && t.additional + p.hostReserve <= p.before && t.outstanding + p.hostReserve <= p.after
      && p.inodesBefore >= p.inodeReserve + 2 && p.inodesAfter >= p.inodeReserve;
  }

  // The terms of an accepted ledger, entry by entry

  /** One to 256 letters, digits and marks. */
  predicate MarkedText(s: string) {
    && 1 <= |s| <= 256
    && forall i :: 0 <= i < |s| ==>
         || 'A' <= s[i] <= 'Z' || 'a' <= s[i] <= 'z' || '0' <= s[i] <= '9'
         || s[i] == '_' || s[i] == '.' || s[i] == '/' || s[i] == ':' || s[i] == '+' || s[i] == '-'
  }

  /** A number without leading zeros. */
  predicate PlainNumber(s: string) {
    s != "" && (forall i :: 0 <= i < |s| ==> '0' <= s[i] <= '9') && (s[0] == '0' ==> |s| == 1)
  }

  ghost predicate DevicePair(s: string) {
    exists i: nat :: i < |s| && s[i] == ':' && PlainNumber(s[..i]) && PlainNumber(s[i + 1..])
  }

  lemma MarkedExact(s: string)
    ensures TextForm(s) <==> MarkedText(s)
  {
    forall i | 0 <= i < |s|
      ensures TextCharacter(s[i]) <==>
              || 'A' <= s[i] <= 'Z' || 'a' <= s[i] <= 'z' || '0' <= s[i] <= '9'
              || s[i] == '_' || s[i] == '.' || s[i] == '/' || s[i] == ':' || s[i] == '+' || s[i] == '-'
    {
    }
  }

  lemma DeviceExact(s: string)
    ensures DeviceForm(s) <==> DevicePair(s)
  {
    if DeviceForm(s) { DeviceCut(s, Split(s, ':')); }
    if i: nat :| i < |s| && s[i] == ':' && PlainNumber(s[..i]) && PlainNumber(s[i + 1..]) {
      CutAt(s, i);
      PairSplits(s, s[..i], s[i + 1..]);
    }
  }

  lemma CutAt(s: string, i: nat)
    requires i < |s| && s[i] == ':'
    ensures s == s[..i] + ":" + s[i + 1..]
  {
  }

  lemma DeviceCut(s: string, parts: seq<string>)
    requires parts == Split(s, ':') && |parts| == 2
    requires Numerals.Canonical(parts[0]) && Numerals.Canonical(parts[1])
    ensures DevicePair(s)
  {
    JoinSplit(s, ':');
    assert parts[1..] == [parts[1]];
    var i := |parts[0]|;
    assert s == parts[0] + ":" + parts[1];
    assert s[..i] == parts[0] && s[i + 1..] == parts[1] && s[i] == ':';
  }

  lemma PairSplits(s: string, a: string, b: string)
    requires s == a + ":" + b && PlainNumber(a) && PlainNumber(b)
    ensures Split(s, ':') == [a, b]
  {
    var parts := [a, b];
    assert parts[1..] == [b];
    assert ':' !in a && ':' !in b;
    SplitJoin(parts, ':');
  }

  predicate Amount(n: int, least: int) {
    least <= n <= 9223372036854775807
  }

  /** A reservation of the pool's device, the same on both sides, whose grants the pool can hold. */
  ghost predicate ReservationFits(e: Expected, o: Observed, p: Pool) {
    && DevicePair(e.identity.device) && Amount(e.identity.inode, 1) && e.identity.device == p.expected.device
    && Amount(e.reserved, 1)
    && o.identity.device == e.identity.device && o.identity.inode == e.identity.inode
    && Amount(o.allocatedBefore, 0) && o.allocatedBefore <= p.capacity
    && Amount(o.allocatedAfter, 0) && o.allocatedAfter <= p.capacity
  }

  lemma ReservationExact(e: Expected, o: Observed, p: Pool)
    ensures ReservationOk(Paired(e, o), p) <==> ReservationFits(e, o, p)
  {
    DeviceExact(e.identity.device);
  }

  predicate PoolFits(p: Pool) {
    && MarkedText(p.expected.uuid) && MarkedText(p.expected.device) && MarkedText(p.expected.node)
    && p.observed.uuid == p.expected.uuid && p.observed.device == p.expected.device
    && p.observed.node == p.expected.node && p.filesystem == "ext4" && p.inventoryComplete
    && Amount(p.hostReserve, 1) && Amount(p.inodeReserve, 1) && Amount(p.capacity, 1)
    && Amount(p.before, 0) && Amount(p.after, 0) && p.before <= p.capacity && p.after <= p.capacity
    && Amount(p.inodesBefore, 0) && Amount(p.inodesAfter, 0)
  }

  /** Two to sixty-four keys, the same on both sides, and no inode reserved twice. */
  ghost predicate EntriesFit(expected: seq<(string, Expected)>, observed: map<string, Observed>, p: Pool) {
    && 2 <= |expected| <= 64
    && (forall key :: key in observed <==> exists i :: 0 <= i < |expected| && expected[i].0 == key)
    && (forall i :: 0 <= i < |expected| ==>
          && MarkedText(expected[i].0) && expected[i].0 in observed
          && ReservationFits(expected[i].1, observed[expected[i].0], p))
    && (forall i, j :: 0 <= i < j < |expected| ==> expected[i].1.identity != expected[j].1.identity)
  }

  /** What is granted already and, per inode, what is still lacking. */
  function Granted(expected: seq<(string, Expected)>, observed: map<string, Observed>, later: bool): int {
    if expected == [] then 0
    else
      var (key, _) := expected[|expected| - 1];
      Granted(expected[..|expected| - 1], observed, later)
      + if key !in observed then 0 else if later then observed[key].allocatedAfter else observed[key].allocatedBefore
  }

  function Lacking(expected: seq<(string, Expected)>, observed: map<string, Observed>, later: bool): int {
    if expected == [] then 0
    else
      var (key, e) := expected[|expected| - 1];
      Lacking(expected[..|expected| - 1], observed, later)
      + if key !in observed then 0
        else
          var given := if later then observed[key].allocatedAfter else observed[key].allocatedBefore;
          if given < e.reserved then e.reserved - given else 0
  }

  /** Before and after, what is granted fits beside what is available, and what is lacking, with
      the host's own reserve, fits into it. */
  predicate Funded(expected: seq<(string, Expected)>, observed: map<string, Observed>, p: Pool) {
    && Granted(expected, observed, false) + p.before <= p.capacity
    && Granted(expected, observed, true) + p.after <= p.capacity
    && Lacking(expected, observed, false) + p.hostReserve <= p.before
    && Lacking(expected, observed, true) + p.hostReserve <= p.after
    && p.inodeReserve + 2 <= p.inodesBefore && p.inodeReserve <= p.inodesAfter
  }

  lemma {:induction false} SumsExact(expected: seq<(string, Expected)>, observed: map<string, Observed>)
    requires Listed(expected, observed)
    ensures var rs := Joined(expected, observed);
            && Sum(Before(rs)) == Granted(expected, observed, false)
            && Sum(AfterBytes(rs)) == Granted(expected, observed, true)
            && Outstanding(Reserved(rs), Before(rs)) == Lacking(expected, observed, false)
            && Outstanding(Reserved(rs), AfterBytes(rs)) == Lacking(expected, observed, true)
  {
    if expected != [] {
      var front, last := expected[..|expected| - 1], expected[|expected| - 1];
      SumsExact(front, observed);
      var rs := Joined(front, observed);
      var r := Paired(last.1, observed[last.0]);
      assert Joined(expected, observed) == rs + [r];
      TotalsStep(rs, r);
    }
  }

  lemma KeysExact(expected: seq<(string, Expected)>, observed: map<string, Observed>)
    ensures observed.Keys == Keys(expected) <==>
            forall key :: key in observed <==> exists i :: 0 <= i < |expected| && expected[i].0 == key
  {
    assert forall key :: key in Keys(expected) <==> exists i :: 0 <= i < |expected| && expected[i].0 == key;
  }

  lemma ReservationsExact(expected: seq<(string, Expected)>, observed: map<string, Observed>, p: Pool)
    requires Listed(expected, observed)
    ensures ReservationsOk(Joined(expected, observed), p) <==>
            && (forall i :: 0 <= i < |expected| ==> ReservationFits(expected[i].1, observed[expected[i].0], p))
            && (forall i, j :: 0 <= i < j < |expected| ==> expected[i].1.identity != expected[j].1.identity)
  {
    var rs := Joined(expected, observed);
    assert forall i :: 0 <= i < |rs| ==> rs[i] == Paired(expected[i].1, observed[expected[i].0]);
    forall i | 0 <= i < |expected|
      ensures ReservationOk(rs[i], p) <==> ReservationFits(expected[i].1, observed[expected[i].0], p)
    {
      ReservationExact(expected[i].1, observed[expected[i].0], p);
    }
  }

  lemma EntriesExact(expected: seq<(string, Expected)>, observed: map<string, Observed>, p: Pool)
    requires 2 <= |expected| <= 64
    ensures && observed.Keys == Keys(expected) && KeysFormed(expected) && Listed(expected, observed)
            && ReservationsOk(Joined(expected, observed), p)
            <==> EntriesFit(expected, observed, p)
  {
    forall i | 0 <= i < |expected|
      ensures TextForm(expected[i].0) <==> MarkedText(expected[i].0)
    {
      MarkedExact(expected[i].0);
    }
    KeysExact(expected, observed);
    if Listed(expected, observed) { ReservationsExact(expected, observed, p); }
  }

  lemma PoolExact(p: Pool)
    ensures PoolOk(p) <==> PoolFits(p)
  {
    MarkedExact(p.expected.uuid);
    MarkedExact(p.expected.device);
    MarkedExact(p.expected.node);
  }

  /** A ledger is accepted exactly on these terms. */
  lemma AcceptedExact(expected: seq<(string, Expected)>, observed: map<string, Observed>, p: Pool)
    ensures Accepted(expected, observed, p) <==>
            PoolFits(p) && EntriesFit(expected, observed, p) && Funded(expected, observed, p)
  {
    PoolExact(p);
    if 2 <= |expected| <= 64 { EntriesExact(expected, observed, p); }
    if Listed(expected, observed) { SumsExact(expected, observed); }
  }

  // --------------------------------------------------------------------------
  // Later allocations

  datatype Usage = Usage(available: int, given: seq<int>)

  /** Allocate `bytes` to the reserved inode `at`. */
  datatype Allocate = Allocate(at: nat, bytes: nat)

  /** An allocation that keeps its inode within what is reserved for it. */
  predicate Legal(reserved: seq<int>, u: Usage, a: Allocate)
    requires |reserved| == |u.given|
  {
    a.at < |reserved| && u.given[a.at] + a.bytes <= reserved[a.at]
  }

  function Apply(u: Usage, a: Allocate): (v: Usage)
    requires a.at < |u.given|
    ensures |v.given| == |u.given|
  {
    Usage(u.available - a.bytes, u.given[a.at := u.given[a.at] + a.bytes])
  }

  predicate LegalRun(reserved: seq<int>, u: Usage, run: seq<Allocate>)
    requires |reserved| == |u.given|
    decreases run
  {
    run == [] || (Legal(reserved, u, run[0]) && LegalRun(reserved, Apply(u, run[0]), run[1..]))
  }

  function ApplyAll(reserved: seq<int>, u: Usage, run: seq<Allocate>): (v: Usage)
    requires |reserved| == |u.given| && LegalRun(reserved, u, run)
    ensures |v.given| == |u.given|
    decreases run
  {
    if run == [] then u else ApplyAll(reserved, Apply(u, run[0]), run[1..])
  }

  lemma {:induction false} OutstandingNonNegative(reserved: seq<int>, given: seq<int>)
    requires |reserved| == |given|
    ensures Outstanding(reserved, given) >= 0
  {
    if reserved != [] {
      OutstandingNonNegative(reserved[..|reserved| - 1], given[..|reserved| - 1]);
    }
  }

  /** Giving an inode part of what it still lacks lowers the sum of shortfalls by as much. */
  lemma {:induction false} OutstandingFalls(reserved: seq<int>, given: seq<int>, at: nat, bytes: nat)
    requires |reserved| == |given| && at < |reserved| && given[at] + bytes <= reserved[at]
    ensures Outstanding(reserved, given[at := given[at] + bytes]) == Outstanding(reserved, given) - bytes
  {
    var last := |reserved| - 1;
    var raised := given[at := given[at] + bytes];
    if at == last {
      assert raised[..last] == given[..last];
    } else {
      assert raised[..last] == given[..last][at := given[at] + bytes];
      OutstandingFalls(reserved[..last], given[..last], at, bytes);
    }
  }

  lemma {:induction false} FundedForever(reserved: seq<int>, u: Usage, hostReserve: int, run: seq<Allocate>)
    requires |reserved| == |u.given| && LegalRun(reserved, u, run)
    requires Outstanding(reserved, u.given) + hostReserve <= u.available
    ensures var v := ApplyAll(reserved, u, run);
            Outstanding(reserved, v.given) + hostReserve <= v.available
    decreases run
  {
    if run != [] {
      OutstandingFalls(reserved, u.given, run[0].at, run[0].bytes);
      FundedForever(reserved, Apply(u, run[0]), hostReserve, run[1..]);
    }
  }

  /** After an accepted ledger, no run of allocations that stays within the reservations
      ever takes the pool below what the host keeps for itself. */
  lemma PoolKeepsHostReserve(rs: seq<Reservation>, p: Pool, run: seq<Allocate>)
    requires LedgerOk(rs, p) && LegalRun(Reserved(rs), Usage(p.after, AfterBytes(rs)), run)
    ensures ApplyAll(Reserved(rs), Usage(p.after, AfterBytes(rs)), run).available >= p.hostReserve
  {
    var u := Usage(p.after, AfterBytes(rs));
    FundedForever(Reserved(rs), u, p.hostReserve, run);
    OutstandingNonNegative(Reserved(rs), ApplyAll(Reserved(rs), u, run).given);
  }

  /** Every reservation has been given at least what it reserves. */
  predicate FullyAllocated(reserved: seq<int>, given: seq<int>)
    requires |reserved| == |given|
  {
    forall i :: 0 <= i < |reserved| ==> given[i] >= reserved[i]
  }

  lemma {:induction false} FillFrom(reserved: seq<int>, u: Usage, from: nat) returns (run: seq<Allocate>)
    requires |reserved| == |u.given| && from <= |reserved|
    requires forall i :: 0 <= i < from ==> u.given[i] >= reserved[i]
    ensures LegalRun(reserved, u, run)
    ensures FullyAllocated(reserved, ApplyAll(reserved, u, run).given)
    decreases |reserved| - from
  {
    if from == |reserved| {
      run := [];
    } else if u.given[from] >= reserved[from] {
      run := FillFrom(reserved, u, from + 1);
    } else {
      var a := Allocate(from, reserved[from] - u.given[from]);
      var rest := FillFrom(reserved, Apply(u, a), from + 1);
      run := [a] + rest;
      assert run[1..] == rest;
    }
  }

  lemma {:induction false} LegalRunSum(reserved: seq<int>, u: Usage, run: seq<Allocate>, more: seq<Allocate>)
    requires |reserved| == |u.given| && LegalRun(reserved, u, run)
    requires LegalRun(reserved, ApplyAll(reserved, u, run), more)
    ensures LegalRun(reserved, u, run + more)
    ensures ApplyAll(reserved, u, run + more) == ApplyAll(reserved, ApplyAll(reserved, u, run), more)
    decreases run
  {
    if run == [] {
      assert run + more == more;
    } else {
      TailOfSum(run, more);
      LegalRunSum(reserved, Apply(u, run[0]), run[1..], more);
    }
  }

  /** Whatever has been allocated within the reservations, all of them can still be filled,
      and the host keeps its reserve when they are. */
  lemma FullAllocationReachable(rs: seq<Reservation>, p: Pool, run: seq<Allocate>) returns (whole: seq<Allocate>)
    requires LedgerOk(rs, p) && LegalRun(Reserved(rs), Usage(p.after, AfterBytes(rs)), run)
    ensures run <= whole && LegalRun(Reserved(rs), Usage(p.after, AfterBytes(rs)), whole)
    ensures var v := ApplyAll(Reserved(rs), Usage(p.after, AfterBytes(rs)), whole);
            FullyAllocated(Reserved(rs), v.given) && v.available >= p.hostReserve
  {
    var u := Usage(p.after, AfterBytes(rs));
    var more := FillFrom(Reserved(rs), ApplyAll(Reserved(rs), u, run), 0);
    LegalRunSum(Reserved(rs), u, run, more);
    whole := run + more;
    PoolKeepsHostReserve(rs, p, whole);
  }
}
