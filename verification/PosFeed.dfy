/** A room's position feed: which sequenced requests it accepts, and what its store then holds. */
module PosFeed {
  import opened Common
  import opened PosStore
  import VisAuth

  /** A parsed request. Without a stamp its epoch counts as zero. */
  datatype Request = Request(stamp: Option<nat>, seqNo: nat, full: bool, entries: seq<Entry>)

  function EpochOf(req: Request): nat {
    if req.stamp.Some? then req.stamp.value else 0
  }

  datatype Stats = Stats(haveBatch: bool, epoch: nat, lastSeq: nat)

  /** One request as it meets the room: the receive time and the authority the room holds then, which it only reads. */
  datatype Event = Event(req: Request, now: int, authEpoch: nat, authLastUs: int, staleUs: int)

  datatype Outcome = Applied | StaleEpoch | StaleSeq

  function Decide(st: Stats, ev: Event): Outcome {
    if ev.req.stamp.Some? && ev.authEpoch != 0 && ev.req.stamp.value < ev.authEpoch
       && !VisAuth.AuthorityStale(ev.authLastUs, ev.now, ev.staleUs) then StaleEpoch
    else if st.haveBatch && EpochOf(ev.req) == st.epoch && ev.req.seqNo <= st.lastSeq then StaleSeq
    else Applied
  }

  datatype Feed = Feed(stats: Stats, points: map<string, Sim>)

  const FRESH := Feed(Stats(false, 0, 0), map[])

  function Handled(f: Feed, ev: Event): Feed {
    if Decide(f.stats, ev) != Applied then f
    else
      var epoch := EpochOf(ev.req);
      var cleared := if f.stats.haveBatch && epoch != f.stats.epoch then map[] else f.points;
      Feed(Stats(true, epoch, ev.req.seqNo), PutAll(if ev.req.full then map[] else cleared, ev.req.entries, ev.now))
  }

  class PosRoom {
    const store: Store
    var haveBatch: bool
    var epoch: nat
    var lastSeq: nat

    ghost predicate Valid()
      reads this, store, store.slots
    {
      store.Valid()
    }

    ghost function State(): Feed
      reads this, store, store.slots
      requires Valid()
    {
      Feed(Stats(haveBatch, epoch, lastSeq), store.Points())
    }

    constructor ()
      ensures Valid() && State() == FRESH && fresh(store) && fresh(store.slots)
    {
      store := new Store();
      haveBatch, epoch, lastSeq := false, 0, 0;
    }

    /** A refused request changes nothing; an accepted one replaces, or adds to, what the room holds. */
    method HandlePeerPos(ev: Event) returns (outcome: Outcome)
      requires Valid()
      modifies this, store, store.slots
      ensures Valid() && outcome == Decide(old(State()).stats, ev) && State() == Handled(old(State()), ev)
    {
      var req := ev.req;
      var incoming := if req.stamp.Some? then req.stamp.value else 0;
      if req.stamp.Some? && ev.authEpoch != 0 && req.stamp.value < ev.authEpoch {
        if !VisAuth.AuthorityStale(ev.authLastUs, ev.now, ev.staleUs) {
          return StaleEpoch;
        }
      }
      if haveBatch && incoming == epoch && req.seqNo <= lastSeq {
        return StaleSeq;
      }
      if haveBatch && incoming != epoch {
        store.Clear();
      }
      var stored, dropped := store.Apply(req.full, req.entries, ev.now);
      haveBatch, epoch, lastSeq := true, incoming, req.seqNo;
      return Applied;
    }
  }

  // ---- Runs ---------------------------------------------------------------------------------------------------------

  function Run(events: seq<Event>): Feed {
    if events == [] then FRESH else Handled(Run(events[..|events| - 1]), events[|events| - 1])
  }

  /** The accepted requests of a run, in order. */
  function Accepted(events: seq<Event>): seq<Event> {
    if events == [] then []
    else
      var before, ev := events[..|events| - 1], events[|events| - 1];
      Accepted(before) + if Decide(Run(before).stats, ev) == Applied then [ev] else []
  }

  /** The accepted requests from the last one that is full or opens another epoch. */
  function SinceReset(accepted: seq<Event>): seq<Event> {
    if accepted == [] then []
    else
      var before, last := accepted[..|accepted| - 1], accepted[|accepted| - 1];
      if last.req.full || (before != [] && EpochOf(before[|before| - 1].req) != EpochOf(last.req)) then [last]
      else SinceReset(before) + [last]
  }

  /** Their entries, each with its receive time. */
  function Points(events: seq<Event>): seq<Sim> {
    if events == [] then []
    else Points(events[..|events| - 1]) + Stamped(events[|events| - 1].req.entries, events[|events| - 1].now)
  }

  function Stamped(entries: seq<Entry>, now: int): (s: seq<Sim>)
    ensures |s| == |entries| && forall i :: 0 <= i < |s| ==> s[i] == Sim(entries[i], now)
  {
    seq(|entries|, i requires 0 <= i < |entries| => Sim(entries[i], now))
  }

  /** Those points stored in order into an empty bounded map. */
  function Stored(sims: seq<Sim>): map<string, Sim> {
    if sims == [] then map[] else PutBounded(Stored(sims[..|sims| - 1]), sims[|sims| - 1])
  }

  lemma {:induction false} StoredAppends(a: seq<Sim>, entries: seq<Entry>, now: int)
    ensures Stored(a + Stamped(entries, now)) == PutAll(Stored(a), entries, now)
  {
    if entries == [] {
      assert a + Stamped(entries, now) == a;
    } else {
      var n := |entries| - 1;
      StoredAppends(a, entries[..n], now);
      var all := a + Stamped(entries, now);
      assert all[..|all| - 1] == a + Stamped(entries[..n], now);
    }
  }

  /** The statistics are those of the last accepted request. */
  ghost predicate StatsMatch(stats: Stats, accepted: seq<Event>) {
    if accepted == [] then stats == FRESH.stats
    else stats == Stats(true, EpochOf(accepted[|accepted| - 1].req), accepted[|accepted| - 1].req.seqNo)
  }

  /** Within one epoch accepted sequence numbers rise, whatever was refused between. */
  ghost predicate Rising(accepted: seq<Event>) {
    forall i, j :: 0 <= i < j < |accepted| && OneEpoch(accepted, i, j) ==> accepted[i].req.seqNo < accepted[j].req.seqNo
  }

  ghost predicate OneEpoch(accepted: seq<Event>, i: nat, j: nat)
    requires i <= j < |accepted|
  {
    forall k :: i <= k <= j ==> EpochOf(accepted[k].req) == EpochOf(accepted[i].req)
  }

  /** After any run the store holds exactly the accepted requests' points since the last full request or change of
      epoch, and sequence numbers rise while the epoch is unchanged. */
  lemma {:induction false} StoreIsAcceptedSinceReset(events: seq<Event>)
    ensures Run(events).points == Stored(Points(SinceReset(Accepted(events))))
    ensures StatsMatch(Run(events).stats, Accepted(events)) && Rising(Accepted(events))
  {
    if events != [] {
      var before, ev := events[..|events| - 1], events[|events| - 1];
      StoreIsAcceptedSinceReset(before);
      var f, acc := Run(before), Accepted(before);
      if Decide(f.stats, ev) == Applied {
        AcceptedStores(f.points, acc, ev);
        StillRising(acc, ev);
        assert (acc + [ev])[..|acc|] == acc;
      } else {
        assert acc + [] == acc;
      }
    }
  }

  /** What is accepted rises above the last accepted request of its epoch, whatever was refused between. */
  lemma AcceptedIsNewer(events: seq<Event>)
    requires events != [] && Decide(Run(events[..|events| - 1]).stats, events[|events| - 1]) == Applied
    ensures var ev, before := events[|events| - 1], Accepted(events[..|events| - 1]);
            before != [] && EpochOf(before[|before| - 1].req) == EpochOf(ev.req) ==>
              before[|before| - 1].req.seqNo < ev.req.seqNo
  {
    StoreIsAcceptedSinceReset(events[..|events| - 1]);
  }

  /** Over every run: a request is refused for its epoch exactly when it carries one below that of an authority heard
      within the window, and otherwise accepted exactly when nothing was accepted before it, or the last accepted
      request was of another epoch, or it is numbered above that one. */
  lemma DecideExactly(events: seq<Event>, ev: Event)
    ensures var outcome, accepted := Decide(Run(events).stats, ev), Accepted(events);
            var behind := ev.req.stamp.Some? && ev.req.stamp.value < ev.authEpoch;
            var live := ev.authLastUs != 0 && ev.now - ev.authLastUs <= ev.staleUs;
            var newer := accepted == []
              || EpochOf(accepted[|accepted| - 1].req) != EpochOf(ev.req)
              || accepted[|accepted| - 1].req.seqNo < ev.req.seqNo;
            && (outcome == StaleEpoch <==> behind && live)
            && (outcome == Applied <==> !(behind && live) && newer)
  {
    StoreIsAcceptedSinceReset(events);
  }

  lemma AcceptedStores(points: map<string, Sim>, acc: seq<Event>, ev: Event)
    requires points == Stored(Points(SinceReset(acc)))
    ensures var reset := acc != [] && EpochOf(acc[|acc| - 1].req) != EpochOf(ev.req);
            Stored(Points(SinceReset(acc + [ev])))
            == PutAll(if ev.req.full || reset then map[] else points, ev.req.entries, ev.now)
  {
    var all := acc + [ev];
    assert all[..|all| - 1] == acc;
    var none: seq<Event> := [];
    assert [ev][..0] == none;
    var since := SinceReset(acc);
    assert (since + [ev])[..|since|] == since;
    StoredAppends(Points(since), ev.req.entries, ev.now);
    StoredAppends([], ev.req.entries, ev.now);
    assert [] + Stamped(ev.req.entries, ev.now) == Stamped(ev.req.entries, ev.now);
  }

  lemma StillRising(acc: seq<Event>, ev: Event)
    requires Rising(acc)
    requires acc != [] && EpochOf(acc[|acc| - 1].req) == EpochOf(ev.req) ==> acc[|acc| - 1].req.seqNo < ev.req.seqNo
    ensures Rising(acc + [ev])
  {
    var all := acc + [ev];
    forall i, j | 0 <= i < j < |all| && OneEpoch(all, i, j) ensures all[i].req.seqNo < all[j].req.seqNo {
      if j < |acc| {
        assert forall k :: i <= k <= j ==> all[k] == acc[k];
        assert OneEpoch(acc, i, j);
      } else {
        var last := |acc| - 1;
        assert all[last] == acc[last] && all[j] == ev;
        if i < last {
          assert forall k :: i <= k <= last ==> all[k] == acc[k];
          assert OneEpoch(acc, i, last);
        }
      }
    }
  }

  /** The last point of a participant in a list, or the list's length. */
  function LastOf(sims: seq<Sim>, uuid: string): (n: nat)
    ensures n <= |sims|
    ensures n < |sims| ==> sims[n].e.uuid == uuid
    ensures forall k :: 0 <= k < |sims| && (n < k || n == |sims|) ==> sims[k].e.uuid != uuid
  {
    if sims == [] then 0
    else if sims[|sims| - 1].e.uuid == uuid then |sims| - 1
    else
      var n := LastOf(sims[..|sims| - 1], uuid);
      if n == |sims| - 1 then |sims| else n
  }

  ghost function Uuids(sims: seq<Sim>): set<string> {
    set k | 0 <= k < |sims| :: sims[k].e.uuid
  }

  lemma UuidsGrow(sims: seq<Sim>)
    requires sims != []
    ensures Uuids(sims) == Uuids(sims[..|sims| - 1]) + {sims[|sims| - 1].e.uuid}
  {
    var front := sims[..|sims| - 1];
    assert forall k :: 0 <= k < |front| ==> sims[k] == front[k];
    assert sims[|sims| - 1].e.uuid in Uuids(sims);
  }

  /** While no more participants are named than the store holds, each is at its latest point and no other is stored. */
  lemma {:induction false} StoredIsLatest(sims: seq<Sim>)
    requires |Uuids(sims)| <= 256
    ensures Stored(sims).Keys == Uuids(sims)
    ensures forall u :: u in Stored(sims) ==> LastOf(sims, u) < |sims| && Stored(sims)[u] == sims[LastOf(sims, u)]
  {
    if sims != [] {
      var front, last := sims[..|sims| - 1], sims[|sims| - 1];
      UuidsGrow(sims);
      if last.e.uuid !in Uuids(front) {
        assert |Uuids(sims)| == |Uuids(front)| + 1;
      } else {
        assert Uuids(sims) == Uuids(front);
      }
      StoredIsLatest(front);
      assert |Stored(front)| == |Stored(front).Keys|;
    }
  }

  /** Never more than the bound, however many participants are named. */
  lemma {:induction false} StoredIsBounded(sims: seq<Sim>)
    ensures |Stored(sims)| <= 256
  {
    if sims != [] {
      StoredIsBounded(sims[..|sims| - 1]);
      var m, s := Stored(sims[..|sims| - 1]), sims[|sims| - 1];
      assert m[s.e.uuid := s].Keys == m.Keys + {s.e.uuid};
      assert |m| == |m.Keys| && |m[s.e.uuid := s]| == |m[s.e.uuid := s].Keys|;
      if s.e.uuid in m {
        assert m.Keys + {s.e.uuid} == m.Keys;
      }
    }
  }
}
