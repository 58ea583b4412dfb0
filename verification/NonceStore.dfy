/** The replay store of used capability nonces, and what it guarantees over a run of verifications. */
module NonceStore {
  import opened Common
  import opened JoinCap

  const NONCE_MAX := 4096

  datatype Entry = Entry(nonce: string, expiresAt: int)

  /** The store's meaning: the live nonces with their expiry, and the counters. */
  datatype Nonces = Nonces(live: map<string, int>, taken: nat, expired: nat, replayed: nat, full: nat)

  const EMPTY := Nonces(map[], 0, 0, 0, 0)

  ghost predicate Distinct(s: seq<Entry>) {
    forall i, j :: 0 <= i < j < |s| ==> s[i].nonce != s[j].nonce
  }

  function Live(s: seq<Entry>): map<string, int> {
    if s == [] then map[] else Live(s[..|s| - 1])[s[|s| - 1].nonce := s[|s| - 1].expiresAt]
  }

  ghost predicate Has(s: seq<Entry>, u: string) {
    exists k :: 0 <= k < |s| && s[k].nonce == u
  }

  lemma {:induction false} LiveKeys(s: seq<Entry>)
    ensures forall u :: u in Live(s) <==> Has(s, u)
  {
    if s != [] {
      var front := s[..|s| - 1];
      LiveKeys(front);
      forall u ensures Has(s, u) <==> Has(front, u) || u == s[|s| - 1].nonce {
        if Has(front, u) {
          var k :| 0 <= k < |front| && front[k].nonce == u;
          assert s[k].nonce == u;
        }
      }
    }
  }

  /** The distinct entries are the map's bindings, in any order. */
  lemma {:induction false} LiveHolds(s: seq<Entry>)
    requires Distinct(s)
    ensures |Live(s)| == |s|
    ensures forall k :: 0 <= k < |s| ==> s[k].nonce in Live(s) && Live(s)[s[k].nonce] == s[k].expiresAt
  {
    if s != [] {
      var front, last := s[..|s| - 1], s[|s| - 1];
      LiveHolds(front);
      LiveKeys(front);
      assert last.nonce !in Live(front);
      assert Live(s).Keys == Live(front).Keys + {last.nonce};
      assert |Live(s)| == |Live(s).Keys| && |Live(front)| == |Live(front).Keys|;
      assert forall k :: 0 <= k < |front| ==> s[k] == front[k];
    }
  }

  // ---- The store's steps on its meaning -----------------------------------------------------------------------------

  function Unexpired(live: map<string, int>, now: int): map<string, int> {
    map u | u in live && live[u] > now :: live[u]
  }

  function Swept(st: Nonces, now: int): Nonces {
    var kept := Unexpired(st.live, now);
    KeptIsFewer(st.live, now);
    st.(live := kept, expired := st.expired + |st.live| - |kept|)
  }

  lemma KeptIsFewer(live: map<string, int>, now: int)
    ensures |Unexpired(live, now)| <= |live|
  {
    SubsetSize(Unexpired(live, now).Keys, live.Keys);
    assert |Unexpired(live, now)| == |Unexpired(live, now).Keys| && |live| == |live.Keys|;
  }

  function Taken(st: Nonces, nonce: string, expiresAt: int, now: int): (Verdict, Nonces) {
    if nonce == "" then (BadNonce, st)
    else
      var swept := Swept(st, now);
      if nonce in swept.live then (Replayed, swept.(replayed := swept.replayed + 1))
      else if |swept.live| >= NONCE_MAX then (StoreFull, swept.(full := swept.full + 1))
      else if |nonce| >= UUID_LEN then (BadNonce, swept)
      else (Ok, swept.(live := swept.live[nonce := expiresAt], taken := swept.taken + 1))
  }

  // ---- The array ----------------------------------------------------------------------------------------------------

  class Store {
    const entries: array<Entry>
    var n: nat
    var taken: nat
    var expired: nat
    var replayed: nat
    var full: nat

    ghost predicate Valid()
      reads this, entries
    {
      entries.Length == NONCE_MAX && n <= NONCE_MAX && Distinct(entries[..n])
    }

    ghost function State(): Nonces
      reads this, entries
      requires Valid()
    {
      Nonces(Live(entries[..n]), taken, expired, replayed, full)
    }

    constructor ()
      ensures Valid() && State() == EMPTY && fresh(entries)
    {
      entries := new Entry[NONCE_MAX](_ => Entry("", 0));
      n, taken, expired, replayed, full := 0, 0, 0, 0, 0;
    }

    /** Keeps exactly the unexpired entries: the last one fills the hole of each that goes. */
    method Sweep(now: int)
      requires Valid()
      modifies this`n, this`expired, entries
      ensures Valid() && State() == Swept(old(State()), now)
    {
      ghost var was := Live(entries[..n]);
      UnsweptAtFirst(entries[..n], now);
      SweepLoop(was, now);
      SweptAll(entries[..n], was, now);
    }

    method SweepLoop(ghost was: map<string, int>, now: int)
      requires Valid() && Unswept(entries[..n], was, now)
      modifies this`n, this`expired, entries
      ensures Valid() && n <= old(n) && n + expired == old(n) + old(expired)
      ensures Unswept(entries[..n], was, now) && AllLive(entries[..n], now)
    {
      ghost var s := entries[..n];
      var i := 0;
      while i < n
        invariant i <= n <= old(n) && s == entries[..n] && n + expired == old(n) + old(expired)
        invariant Distinct(s) && Unswept(s, was, now)
        invariant AllLive(s[..i], now)
        decreases n - i
      {
        if entries[i].expiresAt <= now {
          FillHole(s, was, now, i);
          ghost var filled := s[i := s[n - 1]][..n - 1];
          assert filled[..i] == s[..i];
          s := filled;
          DropEntry(i, s);
        } else {
          assert s[..i + 1] == s[..i] + [s[i]];
          i := i + 1;
        }
      }
      assert s[..n] == s;
    }

    /** The last entry fills the hole. */
    method DropEntry(i: nat, ghost s: seq<Entry>)
      requires i < n <= entries.Length && s == entries[..n][i := entries[n - 1]][..n - 1]
      modifies this`n, this`expired, entries
      ensures n == old(n) - 1 && expired == old(expired) + 1 && entries[..n] == s
    {
      entries[i] := entries[n - 1];
      entries[n - 1] := Entry("", 0);
      n := n - 1;
      expired := expired + 1;
    }

    method Take(nonce: string, expiresAt: int, now: int) returns (v: Verdict)
      requires Valid()
      modifies this, entries
      ensures Valid() && (v, State()) == Taken(old(State()), nonce, expiresAt, now)
    {
      if nonce == "" {
        return BadNonce;
      }
      Sweep(now);
      var found := Stored(nonce);
      if found {
        replayed := replayed + 1;
        return Replayed;
      }
      LiveHolds(entries[..n]);
      if n >= NONCE_MAX {
        full := full + 1;
        return StoreFull;
      }
      if |nonce| >= UUID_LEN {
        return BadNonce;
      }
      Append(Entry(nonce, expiresAt));
      return Ok;
    }

    method Append(e: Entry)
      requires Valid() && n < NONCE_MAX && e.nonce !in Live(entries[..n])
      modifies this`n, this`taken, entries
      ensures Valid()
          && State() == old(State()).(live := old(State()).live[e.nonce := e.expiresAt], taken := old(taken) + 1)
    {
      ghost var before := entries[..n];
      LiveKeys(before);
      Added(before, e);
      entries[n] := e;
      n := n + 1;
      taken := taken + 1;
      assert entries[..n] == before + [e];
    }

    method Stored(nonce: string) returns (found: bool)
      requires Valid()
      ensures found <==> nonce in Live(entries[..n])
    {
      LiveKeys(entries[..n]);
      for i := 0 to n
        invariant forall k :: 0 <= k < i ==> entries[k].nonce != nonce
      {
        if entries[i].nonce == nonce {
          assert entries[..n][i].nonce == nonce;
          return true;
        }
      }
      return false;
    }
  }

  lemma Added(s: seq<Entry>, e: Entry)
    requires Distinct(s) && !Has(s, e.nonce)
    ensures Distinct(s + [e]) && Live(s + [e]) == Live(s)[e.nonce := e.expiresAt]
  {
    assert (s + [e])[..|s|] == s;
  }

  /** What is still stored was stored, and nothing unexpired has gone. */
  ghost predicate Unswept(s: seq<Entry>, was: map<string, int>, now: int) {
    && (forall k :: 0 <= k < |s| ==> s[k].nonce in was && was[s[k].nonce] == s[k].expiresAt)
    && (forall u :: u in was && was[u] > now ==> Has(s, u))
  }

  ghost predicate AllLive(s: seq<Entry>, now: int) {
    forall k :: 0 <= k < |s| ==> s[k].expiresAt > now
  }

  lemma UnsweptAtFirst(s: seq<Entry>, now: int)
    requires Distinct(s)
    ensures Unswept(s, Live(s), now) && |Live(s)| == |s|
  {
    LiveHolds(s);
    LiveKeys(s);
  }

  lemma FillHole(s: seq<Entry>, was: map<string, int>, now: int, i: nat)
    requires i < |s| && Distinct(s) && Unswept(s, was, now) && s[i].expiresAt <= now
    ensures var t := s[i := s[|s| - 1]][..|s| - 1]; Distinct(t) && Unswept(t, was, now)
  {
    var t := s[i := s[|s| - 1]][..|s| - 1];
    forall u | u in was && was[u] > now ensures Has(t, u) {
      assert Has(s, u);
      var k :| 0 <= k < |s| && s[k].nonce == u;
      assert t[if k == |s| - 1 then i else k].nonce == u;
    }
  }

  lemma SweptAll(s: seq<Entry>, was: map<string, int>, now: int)
    requires Distinct(s) && Unswept(s, was, now) && AllLive(s, now)
    ensures Live(s) == Unexpired(was, now) && |Live(s)| == |s|
  {
    LiveHolds(s);
    LiveKeys(s);
    forall u | u in was && was[u] > now ensures u in Live(s) {
      assert Has(s, u);
    }
  }

  // ---- Runs of verifications ----------------------------------------------------------------------------------------

  /** One join presenting a parsed capability, with what the join names and the room's adopted epoch. */
  datatype Use = Use(cap: Cap, display: Option<string>, session: Option<string>, room: int, now: int, authEpoch: nat)

  /** The check, then the nonce, then the epoch: a nonce is spent even where the epoch then refuses. */
  function Verified(st: Nonces, u: Use): (Verdict, Nonces) {
    var v := Check(u.cap, u.display, u.session, u.room, u.now);
    if v != Ok then (v, st)
    else
      var taken := Taken(st, u.cap.nonce, u.cap.exp + SKEW_S, u.now);
      if taken.0 != Ok then taken else (Generation(u.cap, u.authEpoch), taken.1)
  }

  method Verify(store: Store, u: Use) returns (v: Verdict)
    requires store.Valid()
    modifies store, store.entries
    ensures store.Valid() && (v, store.State()) == Verified(old(store.State()), u)
  {
    v := Check(u.cap, u.display, u.session, u.room, u.now);
    if v == Ok {
      v := store.Take(u.cap.nonce, u.cap.exp + SKEW_S, u.now);
    }
    if v == Ok {
      v := Generation(u.cap, u.authEpoch);
    }
  }

  function Run(uses: seq<Use>): Nonces {
    if uses == [] then EMPTY else Verified(Run(uses[..|uses| - 1]), uses[|uses| - 1]).1
  }

  function Outcome(uses: seq<Use>, i: nat): Verdict
    requires i < |uses|
  {
    Verified(Run(uses[..i]), uses[i]).0
  }

  ghost predicate ClockRises(uses: seq<Use>) {
    forall i, j :: 0 <= i <= j < |uses| ==> uses[i].now <= uses[j].now
  }

  /** Every nonce ever taken is live or expired, and the store never outgrows its array. */
  lemma {:induction false} TakenIsLivePlusExpired(uses: seq<Use>)
    ensures Run(uses).taken == |Run(uses).live| + Run(uses).expired && |Run(uses).live| <= NONCE_MAX
  {
    if uses != [] {
      TakenIsLivePlusExpired(uses[..|uses| - 1]);
      TakeCounts(Run(uses[..|uses| - 1]), uses[|uses| - 1]);
    }
  }

  lemma TakeCounts(st: Nonces, u: Use)
    requires st.taken == |st.live| + st.expired && |st.live| <= NONCE_MAX
    ensures var after := Verified(st, u).1; after.taken == |after.live| + after.expired && |after.live| <= NONCE_MAX
  {
    KeptIsFewer(st.live, u.now);
    var kept, nonce := Unexpired(st.live, u.now), u.cap.nonce;
    if nonce !in kept {
      assert kept[nonce := u.cap.exp + SKEW_S].Keys == kept.Keys + {nonce};
      assert |kept[nonce := u.cap.exp + SKEW_S]| == |kept.Keys + {nonce}|;
    }
  }

  /** A nonce once accepted stays live until its window has passed. */
  lemma {:induction false} StaysLive(uses: seq<Use>, i: nat, k: nat)
    requires i < k <= |uses| && ClockRises(uses) && Outcome(uses, i) == Ok
    requires forall m :: i < m < k ==> uses[m].now < uses[i].cap.exp + SKEW_S
    ensures var live := Run(uses[..k]).live;
            uses[i].cap.nonce in live && live[uses[i].cap.nonce] == uses[i].cap.exp + SKEW_S
    decreases k
  {
    assert uses[..k][..k - 1] == uses[..k - 1] && uses[..k][k - 1] == uses[k - 1];
    if k - 1 > i {
      StaysLive(uses, i, k - 1);
      assert uses[k - 1].now < uses[i].cap.exp + SKEW_S;
    }
  }

  /** A nonce accepted twice was accepted the second time at or after the end of the first capability's window. */
  lemma SecondUseIsAfterTheWindow(uses: seq<Use>, i: nat, j: nat)
    requires i < j < |uses| && ClockRises(uses)
    requires uses[i].cap.nonce == uses[j].cap.nonce && Outcome(uses, i) == Ok && Outcome(uses, j) == Ok
    ensures uses[j].now >= uses[i].cap.exp + SKEW_S
  {
    if uses[j].now < uses[i].cap.exp + SKEW_S {
      StaysLive(uses, i, j);
      assert false;
    }
  }

  /** At most one acceptance at times strictly inside the window: of all uses of one capability before exp + skew, one
      at most is accepted. A second can come only in the very second the window ends. */
  lemma AcceptedOnce(uses: seq<Use>, i: nat, j: nat)
    requires i < j < |uses| && ClockRises(uses)
    requires uses[i].cap == uses[j].cap && Outcome(uses, i) == Ok && Outcome(uses, j) == Ok
    ensures uses[j].now == uses[i].cap.exp + SKEW_S
  {
    SecondUseIsAfterTheWindow(uses, i, j);
  }

  /** The boundary: presented again by a join the check passes, an accepted capability is accepted a second time exactly
      when the clock stands at exp + skew, where the check still admits it and the sweep has already let it go. */
  lemma SecondUseAcceptedAtBoundary(before: seq<Use>, first: Use, second: Use)
    requires Verified(Run(before), first).0 == Ok
    requires second.cap == first.cap && first.now <= second.now && second.authEpoch == first.authEpoch
    requires Check(second.cap, second.display, second.session, second.room, second.now) == Ok
    ensures Verified(Verified(Run(before), first).1, second).0 == Ok <==> second.now >= first.cap.exp + SKEW_S
  {
    TakenIsLivePlusExpired(before);
    var st, nonce, until := Verified(Run(before), first).1, first.cap.nonce, first.cap.exp + SKEW_S;
    TakeCounts(Run(before), first);
    if second.now >= until {
      var kept := Unexpired(st.live, second.now);
      assert nonce !in kept && nonce in st.live;
      SubsetSize(kept.Keys, st.live.Keys - {nonce});
      assert |kept| == |kept.Keys| && |st.live| == |st.live.Keys|;
    }
  }

  function Repeated(u: Use, n: nat): (r: seq<Use>)
    ensures |r| == n && forall i :: 0 <= i < n ==> r[i] == u
  {
    seq(n, _ => u)
  }

  /** In the very second the window ends nothing is remembered: accepted once there, a capability is accepted as often
      as it is presented. */
  lemma {:induction false} EveryUseAtTheBoundary(before: seq<Use>, u: Use, n: nat)
    requires u.now == u.cap.exp + SKEW_S && n > 0 && Verified(Run(before), u).0 == Ok
    ensures Outcome(before + Repeated(u, n), |before| + n - 1) == Ok
    decreases n
  {
    if n == 1 {
      FirstAtTheBoundary(before, u);
    } else {
      EveryUseAtTheBoundary(before, u, n - 1);
      OnceMore(before, u, n - 1);
    }
  }

  lemma FirstAtTheBoundary(before: seq<Use>, u: Use)
    requires Verified(Run(before), u).0 == Ok
    ensures Outcome(before + Repeated(u, 1), |before|) == Ok
  {
    var all := before + Repeated(u, 1);
    assert all[..|before|] == before && all[|before|] == u;
  }

  lemma OnceMore(before: seq<Use>, u: Use, n: nat)
    requires u.now == u.cap.exp + SKEW_S && n > 0
    requires Outcome(before + Repeated(u, n), |before| + n - 1) == Ok
    ensures Outcome(before + Repeated(u, n + 1), |before| + n) == Ok
  {
    var most, all := before + Repeated(u, n), before + Repeated(u, n + 1);
    var front := most[..|before| + n - 1];
    assert most == front + [u] && most[..|most| - 1] == front;
    assert all[..|before| + n] == most && all[|before| + n] == u;
    SecondUseAcceptedAtBoundary(front, u, u);
  }
}
