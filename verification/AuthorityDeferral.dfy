/** Joining late is the same as having been there: a listener whose batches were deferred gets, at its join, the sets a
    session present from the start would carry. */
module AuthorityDeferral {
  import opened Common
  import opened VisBatch
  import opened Authority
  import opened AuthorityMirror
  import Deferred
  import DeferredTheorems

  // ---- The deposits a run makes -------------------------------------------------------------------------------------

  function ChannelCalls(m: Members, op: Op, entries: seq<Entry>, skip: set<string>,
                        isMute: bool): seq<DeferredTheorems.Call> {
    if entries == [] then []
    else
      var front, last := entries[..|entries| - 1], entries[|entries| - 1];
      ChannelCalls(m, op, front, skip, isMute) +
      if last.listener in skip || Present(m.sessions, last.listener) then []
      else [DeferredTheorems.Deposit(last.listener, op, last.sources, isMute)]
  }

  function BatchCalls(m: Members, b: Batch, skip: set<string>): seq<DeferredTheorems.Call> {
    ChannelCalls(m, b.op, b.entries, skip, false) + ChannelCalls(m, b.op, b.muteEntries, skip, true)
  }

  /** What one event does to the deferred store, as calls. */
  function Calls(cfg: Settings, room: Room, event: Event): seq<DeferredTheorems.Call> {
    match event
    case BatchMessage(now, batch, order) =>
      var out := BatchAuthority(cfg, room.auth, batch, now, order).0;
      if Refused(cfg, out) then [] else BatchCalls(room.members, batch, Skipped(cfg, out))
    case Join(_, display) => if display.Some? then [DeferredTheorems.Replayed(display.value)] else []
    case _ => []
  }

  function RunCalls(cfg: Settings, room: Room, events: seq<Event>): seq<DeferredTheorems.Call> {
    if events == [] then []
    else
      var front := events[..|events| - 1];
      RunCalls(cfg, room, front) + Calls(cfg, Run(cfg, room, front), events[|events| - 1])
  }

  lemma {:induction false} RunConcat(st: Deferred.State, a: seq<DeferredTheorems.Call>, b: seq<DeferredTheorems.Call>)
    ensures DeferredTheorems.Run(st, a + b) == DeferredTheorems.Run(DeferredTheorems.Run(st, a), b)
  {
    if b == [] {
      assert a + b == a;
    } else {
      RunConcat(st, a, b[..|b| - 1]);
      assert (a + b)[..|a + b| - 1] == a + b[..|b| - 1];
    }
  }

  lemma {:induction false} PresenceKept(m: Members, op: Op, entries: seq<Entry>, skip: set<string>, isMute: bool,
                                        L: string)
    ensures Present(ApplyChannel(m, op, entries, skip, isMute).sessions, L) <==> Present(m.sessions, L)
  {
    if entries != [] {
      var front, last := entries[..|entries| - 1], entries[|entries| - 1];
      PresenceKept(m, op, front, skip, isMute, L);
      var before, after := ApplyChannel(m, op, front, skip, isMute), ApplyChannel(m, op, entries, skip, isMute);
      assert after.sessions.Keys == before.sessions.Keys;
      assert forall sid :: sid in before.sessions ==> after.sessions[sid].display == before.sessions[sid].display;
    }
  }

  lemma {:induction false} ChannelDeposits(m: Members, op: Op, entries: seq<Entry>, skip: set<string>, isMute: bool)
    ensures ApplyChannel(m, op, entries, skip, isMute).deferred
            == DeferredTheorems.Run(m.deferred, ChannelCalls(m, op, entries, skip, isMute))
  {
    if entries != [] {
      var front, last := entries[..|entries| - 1], entries[|entries| - 1];
      ChannelDeposits(m, op, front, skip, isMute);
      PresenceKept(m, op, front, skip, isMute, last.listener);
      var calls := ChannelCalls(m, op, front, skip, isMute);
      if last.listener in skip || Present(m.sessions, last.listener) {
        assert calls + [] == calls;
      } else {
        var deposit := DeferredTheorems.Deposit(last.listener, op, last.sources, isMute);
        RunConcat(m.deferred, calls, [deposit]);
        assert [deposit][..0] == [];
      }
    }
  }

  lemma {:induction false} CallsKept(m: Members, n: Members, op: Op, entries: seq<Entry>, skip: set<string>,
                                     isMute: bool)
    requires forall L :: Present(m.sessions, L) <==> Present(n.sessions, L)
    ensures ChannelCalls(m, op, entries, skip, isMute) == ChannelCalls(n, op, entries, skip, isMute)
  {
    if entries != [] {
      CallsKept(m, n, op, entries[..|entries| - 1], skip, isMute);
    }
  }

  lemma BatchDeposits(m: Members, b: Batch, skip: set<string>)
    ensures ApplyBatch(m, b, skip).deferred == DeferredTheorems.Run(m.deferred, BatchCalls(m, b, skip))
  {
    var mid := ApplyChannel(m, b.op, b.entries, skip, false);
    ChannelDeposits(m, b.op, b.entries, skip, false);
    ChannelDeposits(mid, b.op, b.muteEntries, skip, true);
    forall L ensures Present(m.sessions, L) <==> Present(mid.sessions, L) {
      PresenceKept(m, b.op, b.entries, skip, false, L);
    }
    CallsKept(m, mid, b.op, b.muteEntries, skip, true);
    RunConcat(m.deferred, ChannelCalls(m, b.op, b.entries, skip, false),
      ChannelCalls(m, b.op, b.muteEntries, skip, true));
  }

  lemma JoinDeposits(cfg: Settings, room: Room, sid: nat, display: Option<string>)
    ensures OnJoin(cfg, room, sid, display).members.deferred
            == DeferredTheorems.Run(room.members.deferred, Calls(cfg, room, Join(sid, display)))
  {
    if display.Some? {
      var call := DeferredTheorems.Replayed(display.value);
      assert [call][..0] == [];
      assert DeferredTheorems.Run(room.members.deferred, [call])
        == Deferred.ReplayDone(room.members.deferred, display.value);
    }
  }

  lemma {:induction false} RunDeposits(cfg: Settings, room: Room, events: seq<Event>)
    ensures Run(cfg, room, events).members.deferred
        == DeferredTheorems.Run(room.members.deferred, RunCalls(cfg, room, events))
  {
    if events != [] {
      var front, last := events[..|events| - 1], events[|events| - 1];
      RunDeposits(cfg, room, front);
      var before := Run(cfg, room, front);
      RunConcat(room.members.deferred, RunCalls(cfg, room, front), Calls(cfg, before, last));
      match last {
        case BatchMessage(now, batch, order) =>
          var out := BatchAuthority(cfg, before.auth, batch, now, order).0;
          if !Refused(cfg, out) {
            BatchDeposits(before.members, batch, Skipped(cfg, out));
          }
        case Join(sid, display) => JoinDeposits(cfg, before, sid, display);
        case HeartbeatMessage(_, _) =>
        case Leave(_) =>
      }
    }
  }

  // ---- Live application of an absent listener's entries -------------------------------------------------------------

  /** What one event would do to the columns of a live session of display L. */
  function LiveStep(cfg: Settings, room: Room, cols: DeferredTheorems.Columns, event: Event,
                    L: string): DeferredTheorems.Columns {
    if !event.BatchMessage? then cols
    else
      var b := event.batch;
      var out := BatchAuthority(cfg, room.auth, b, event.now, event.order).0;
      if Refused(cfg, out) || L in Skipped(cfg, out) then cols
      else DeferredTheorems.Columns(Mirror(b.op, cols.excl, FindEntry(b.entries, L)),
        Mirror(b.op, cols.mute, FindEntry(b.muteEntries, L)))
  }

  function LiveRun(cfg: Settings, room: Room, events: seq<Event>, L: string): DeferredTheorems.Columns {
    if events == [] then DeferredTheorems.NOTHING
    else
      var front := events[..|events| - 1];
      LiveStep(cfg, Run(cfg, room, front), LiveRun(cfg, room, front, L), events[|events| - 1], L)
  }

  lemma {:induction false} LiveConcat(cols: DeferredTheorems.Columns, a: seq<DeferredTheorems.Call>,
                                      b: seq<DeferredTheorems.Call>, L: string)
    ensures DeferredTheorems.Live(cols, a + b, L) == DeferredTheorems.Live(DeferredTheorems.Live(cols, a, L), b, L)
  {
    if b == [] {
      assert a + b == a;
    } else {
      LiveConcat(cols, a, b[..|b| - 1], L);
      assert (a + b)[..|a + b| - 1] == a + b[..|b| - 1];
    }
  }

  function MirrorChannel(cols: DeferredTheorems.Columns, op: Op, e: Option<Entry>,
                         isMute: bool): DeferredTheorems.Columns {
    if e.Some? then DeferredTheorems.ApplyLive(cols, op, e.value.sources, isMute) else cols
  }

  lemma {:induction false} ChannelLive(m: Members, cols: DeferredTheorems.Columns, op: Op, entries: seq<Entry>,
                                       skip: set<string>, isMute: bool, L: string)
    requires DistinctListeners(entries) && !Present(m.sessions, L)
    ensures DeferredTheorems.Live(cols, ChannelCalls(m, op, entries, skip, isMute), L)
            == if L in skip then cols else MirrorChannel(cols, op, FindEntry(entries, L), isMute)
  {
    if entries != [] {
      var front, last := entries[..|entries| - 1], entries[|entries| - 1];
      ChannelLive(m, cols, op, front, skip, isMute, L);
      FindInPrefix(entries, L);
      NotFoundBefore(entries);
      var calls := ChannelCalls(m, op, front, skip, isMute);
      if last.listener in skip || Present(m.sessions, last.listener) {
        assert calls + [] == calls;
      } else {
        var deposit := DeferredTheorems.Deposit(last.listener, op, last.sources, isMute);
        LiveConcat(cols, calls, [deposit], L);
        assert [deposit][..0] == [];
      }
    }
  }

  lemma BatchLive(m: Members, cols: DeferredTheorems.Columns, b: Batch, skip: set<string>, L: string)
    requires DistinctListeners(b.entries) && DistinctListeners(b.muteEntries) && !Present(m.sessions, L)
    ensures DeferredTheorems.Live(cols, BatchCalls(m, b, skip), L)
            == if L in skip then cols
               else DeferredTheorems.Columns(Mirror(b.op, cols.excl, FindEntry(b.entries, L)),
                 Mirror(b.op, cols.mute, FindEntry(b.muteEntries, L)))
  {
    var first := ChannelCalls(m, b.op, b.entries, skip, false);
    LiveConcat(cols, first, ChannelCalls(m, b.op, b.muteEntries, skip, true), L);
    ChannelLive(m, cols, b.op, b.entries, skip, false, L);
    ChannelLive(m, DeferredTheorems.Live(cols, first, L), b.op, b.muteEntries, skip, true, L);
  }

  /** Nobody of display L takes part, and session `sid` is not used. */
  predicate Elsewhere(events: seq<Event>, sid: nat, L: string) {
    forall i :: 0 <= i < |events| ==>
      && (events[i].Join? ==> events[i].sid != sid && events[i].display != Some(L))
      && (events[i].Leave? ==> events[i].sid != sid)
  }

  lemma {:induction false} StaysAbsent(cfg: Settings, room: Room, events: seq<Event>, sid: nat, L: string)
    requires AdmissibleRun(cfg, room, events) && Elsewhere(events, sid, L)
    requires !Present(room.members.sessions, L) && sid !in room.members.sessions
    ensures !Present(Run(cfg, room, events).members.sessions, L) && sid !in Run(cfg, room, events).members.sessions
  {
    if events != [] {
      var front, last := events[..|events| - 1], events[|events| - 1];
      assert last == events[|events| - 1];
      StaysAbsent(cfg, room, front, sid, L);
      var before := Run(cfg, room, front);
      if last.BatchMessage? {
        var out := BatchAuthority(cfg, before.auth, last.batch, last.now, last.order).0;
        BatchReaches(before.members, last.batch, Skipped(cfg, out));
        PresenceKept(before.members, last.batch.op, last.batch.entries, Skipped(cfg, out), false, L);
        PresenceKept(ApplyChannel(before.members, last.batch.op, last.batch.entries, Skipped(cfg, out), false),
                     last.batch.op, last.batch.muteEntries, Skipped(cfg, out), true, L);
      }
    }
  }

  lemma {:induction false} RunLive(cfg: Settings, room: Room, events: seq<Event>, sid: nat, L: string)
    requires AdmissibleRun(cfg, room, events) && Elsewhere(events, sid, L)
    requires !Present(room.members.sessions, L) && sid !in room.members.sessions
    ensures DeferredTheorems.Live(DeferredTheorems.NOTHING, RunCalls(cfg, room, events), L)
        == LiveRun(cfg, room, events, L)
  {
    if events != [] {
      var front, last := events[..|events| - 1], events[|events| - 1];
      assert last == events[|events| - 1];
      RunLive(cfg, room, front, sid, L);
      StaysAbsent(cfg, room, front, sid, L);
      var before := Run(cfg, room, front);
      var cols := LiveRun(cfg, room, front, L);
      LiveConcat(DeferredTheorems.NOTHING, RunCalls(cfg, room, front), Calls(cfg, before, last), L);
      match last {
        case BatchMessage(now, batch, order) =>
          var out := BatchAuthority(cfg, before.auth, batch, now, order).0;
          if !Refused(cfg, out) {
            BatchLive(before.members, cols, batch, Skipped(cfg, out), L);
          }
        case Join(_, display) =>
          if display.Some? {
            var call := DeferredTheorems.Replayed(display.value);
            assert [call][..0] == [];
          }
        case HeartbeatMessage(_, _) =>
        case Leave(_) =>
      }
    }
  }

  // ---- The twin that was there all along ----------------------------------------------------------------------------

  /** The authority never looks at the members. */
  lemma {:induction false} AuthIgnoresMembers(cfg: Settings, a: Room, b: Room, events: seq<Event>)
    requires a.auth == b.auth
    ensures Run(cfg, a, events).auth == Run(cfg, b, events).auth
  {
    if events != [] {
      AuthIgnoresMembers(cfg, a, b, events[..|events| - 1]);
    }
  }

  /** A session present through the run carries the columns of live application. */
  lemma {:induction false} TwinCarriesLive(cfg: Settings, room: Room, twin: Room, events: seq<Event>, sid: nat,
                                           L: string)
    requires AdmissibleRun(cfg, room, events) && Elsewhere(events, sid, L) && twin.auth == room.auth
    requires sid in twin.members.sessions && twin.members.sessions[sid] == Session(Some(L), {}, {})
    ensures var cols := LiveRun(cfg, room, events, L);
            var after := Run(cfg, twin, events).members.sessions;
            sid in after && after[sid] == Session(Some(L), cols.excl, cols.mute)
  {
    if events != [] {
      var front, last := events[..|events| - 1], events[|events| - 1];
      assert last == events[|events| - 1];
      TwinCarriesLive(cfg, room, twin, front, sid, L);
      AuthIgnoresMembers(cfg, room, twin, front);
      var before := Run(cfg, twin, front);
      if last.BatchMessage? {
        var out := BatchAuthority(cfg, before.auth, last.batch, last.now, last.order).0;
        BatchReaches(before.members, last.batch, Skipped(cfg, out));
        ReachedSets(before.members.sessions[sid], last.batch, Skipped(cfg, out));
      }
    }
  }

  /** The join takes its columns from the store and not from an armed record. */
  predicate Unarmed(cfg: Settings, auth: Auth, L: string) {
    !(cfg.Enforced() && L in auth.records && auth.records[L].epoch == auth.epoch)
  }

  /** A listener that joins unarmed after any run gets, by replay, exactly the sets it would carry had it joined before
      the run and had every batch reached it live, unless its deferred record was evicted on the way. */
  lemma LateJoinIsEarlyJoin(cfg: Settings, room: Room, events: seq<Event>, sid: nat, L: string)
    requires AdmissibleRun(cfg, room, events) && Elsewhere(events, sid, L)
    requires !Present(room.members.sessions, L) && sid !in room.members.sessions
    requires DeferredTheorems.Inv(room.members.deferred)
        && DeferredTheorems.Held(room.members.deferred, L) == DeferredTheorems.NOTHING
    requires DeferredTheorems.NeverEvicted(room.members.deferred, RunCalls(cfg, room, events), L)
    requires Unarmed(cfg, room.auth, L) && Unarmed(cfg, Run(cfg, room, events).auth, L)
    ensures var late := OnJoin(cfg, Run(cfg, room, events), sid, Some(L)).members.sessions;
            var early := Run(cfg, OnJoin(cfg, room, sid, Some(L)), events).members.sessions;
            sid in early && late[sid] == early[sid]
  {
    RunDeposits(cfg, room, events);
    DeferredTheorems.DeferralIsLiveApplication(room.members.deferred, RunCalls(cfg, room, events), L);
    RunLive(cfg, room, events, sid, L);
    var twin := OnJoin(cfg, room, sid, Some(L));
    assert twin.members.sessions[sid] == Session(Some(L), {}, {});
    TwinCarriesLive(cfg, room, twin, events, sid, L);
  }
}
