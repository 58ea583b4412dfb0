/** Refused messages leave no trace, an authority that sends nothing else ages out, and a heartbeat that crosses a batch
    in flight does no harm. */
module AuthorityLiveness {
  import opened Common
  import opened VisBatch
  import opened Authority
  import opened AuthorityInvariants

  // ---- Erasing refused messages -------------------------------------------------------------------------------------

  predicate RefusedAnswer(answer: Answer) {
    answer.StaleEpochAnswer? || answer.FeedStaleAnswer?
  }

  /** The events whose flag is not set. */
  function Kept(events: seq<Event>, erased: seq<bool>): seq<Event>
    requires |events| == |erased|
  {
    if events == [] then []
    else
      Kept(events[..|events| - 1], erased[..|events| - 1]) + if erased[|events| - 1] then [] else [events[|events| - 1]]
  }

  /** Every erased event was answered stale_epoch or feed_stale when it happened. */
  ghost predicate OnlyRefusedErased(cfg: Settings, room: Room, events: seq<Event>, erased: seq<bool>)
    requires |events| == |erased|
  {
    forall k :: 0 <= k < |events| && erased[k] ==> RefusedAnswer(Step(cfg, Run(cfg, room, events[..k]), events[k]).0)
  }

  /** All of a room but its diagnostic counters. */
  predicate SameCore(a: Room, b: Room) {
    a.auth == b.auth && a.members == b.members
  }

  lemma StepIgnoresCounters(cfg: Settings, a: Room, b: Room, event: Event)
    requires SameCore(a, b)
    ensures SameCore(Step(cfg, a, event).1, Step(cfg, b, event).1) && Step(cfg, a, event).0 == Step(cfg, b, event).0
  {
  }

  lemma RefusedStepIsInert(cfg: Settings, room: Room, event: Event)
    requires RefusedAnswer(Step(cfg, room, event).0)
    ensures SameCore(Step(cfg, room, event).1, room)
  {
  }

  /** Erasing any choice of the messages a run answered stale_epoch or feed_stale changes neither the authority nor
      anyone's sets nor what is deferred. */
  lemma {:induction false} RefusedMessagesErasable(cfg: Settings, room: Room, events: seq<Event>, erased: seq<bool>)
    requires |events| == |erased| && OnlyRefusedErased(cfg, room, events, erased)
    ensures SameCore(Run(cfg, room, Kept(events, erased)), Run(cfg, room, events))
  {
    if events != [] {
      var n := |events| - 1;
      var front, last := events[..n], events[n];
      assert forall k :: 0 <= k < n ==> front[..k] == events[..k];
      RefusedMessagesErasable(cfg, room, front, erased[..n]);
      if erased[n] {
        assert events[..n] == front;
        RefusedStepIsInert(cfg, Run(cfg, room, front), last);
        assert Kept(front, erased[..n]) + [] == Kept(front, erased[..n]);
      } else {
        var kept := Kept(front, erased[..n]);
        assert (kept + [last])[..|kept|] == kept;
        StepIgnoresCounters(cfg, Run(cfg, room, kept), Run(cfg, room, front), last);
      }
    }
  }

  // ---- Ageing out ---------------------------------------------------------------------------------------------------

  function TimeOf(event: Event): Option<int> {
    match event
    case BatchMessage(now, _, _) => Some(now)
    case HeartbeatMessage(now, _) => Some(now)
    case _ => None
  }

  ghost predicate TimedBy(events: seq<Event>, t: int) {
    forall k :: 0 <= k < |events| && TimeOf(events[k]).Some? ==> TimeOf(events[k]).value <= t
  }

  ghost predicate ConfirmedBy(records: map<string, Record>, t: int) {
    forall L :: L in records ==> records[L].confirmed <= t
  }

  lemma {:induction false} NameAllConfirmed(t: Tally, b: Batch, epoch: nat, now: int, order: seq<string>, limit: int)
    requires b.stamp.Some? && ConfirmedBy(t.records, limit) && now <= limit
    ensures ConfirmedBy(NameAll(t, b, epoch, now, order).records, limit)
  {
    if order != [] {
      NameAllConfirmed(t, b, epoch, now, order[..|order| - 1], limit);
    }
  }

  /** No record is confirmed in the future. */
  lemma {:induction false} RunConfirmedBy(cfg: Settings, events: seq<Event>, t: int)
    requires TimedBy(events, t)
    ensures ConfirmedBy(Run(cfg, BORN, events).auth.records, t)
  {
    if events != [] {
      var front, last := events[..|events| - 1], events[|events| - 1];
      assert last == events[|events| - 1];
      RunConfirmedBy(cfg, front, t);
      var before := Run(cfg, BORN, front).auth;
      match last {
        case BatchMessage(now, batch, order) =>
          assert TimeOf(last) == Some(now);
          if batch.stamp.Some? {
            var adopted := Adopted(cfg, before, batch.stamp.value.epoch, now);
            NameAllConfirmed(Tally(adopted.records, [], []), batch, adopted.epoch, now, order, t);
          }
        case HeartbeatMessage(now, heartbeat) =>
          assert TimeOf(last) == Some(now);
          var adopted := Adopted(cfg, before, heartbeat.epoch, now);
          ConfirmAllKeeps(Tally(adopted.records, [], []), adopted.epoch, now, heartbeat.listeners);
        case Join(_, _) =>
        case Leave(_) =>
      }
    }
  }

  /** Every message of the stretch is answered stale_epoch or feed_stale; people may come and go. */
  ghost predicate OnlyRefused(cfg: Settings, room: Room, events: seq<Event>) {
    forall k :: 0 <= k < |events| && TimeOf(events[k]).Some? ==>
      RefusedAnswer(Step(cfg, Run(cfg, room, events[..k]), events[k]).0)
  }

  lemma {:induction false} OnlyRefusedKeepsAuth(cfg: Settings, room: Room, events: seq<Event>)
    requires OnlyRefused(cfg, room, events)
    ensures Run(cfg, room, events).auth == room.auth
  {
    if events != [] {
      var n := |events| - 1;
      var front, last := events[..n], events[n];
      assert forall k :: 0 <= k < n ==> front[..k] == events[..k];
      assert forall k :: 0 <= k < n ==> front[k] == events[k];
      OnlyRefusedKeepsAuth(cfg, room, front);
      if TimeOf(last).Some? {
        RefusedStepIsInert(cfg, Run(cfg, room, front), last);
      }
    }
  }

  /** A room that hears nothing but refused messages for longer than the staleness window has no listener in row 4. */
  lemma RefusedAuthorityAgesOut(cfg: Settings, history: seq<Event>, t: int, refused: seq<Event>,
                                display: Option<string>, now: int)
    requires TimedBy(history, t) && now - t > cfg.StaleUs()
    requires OnlyRefused(cfg, Run(cfg, BORN, history), refused)
    ensures RowOf(cfg, Run(cfg, Run(cfg, BORN, history), refused).auth, display, now) != 4
  {
    RunConfirmedBy(cfg, history, t);
    OnlyRefusedKeepsAuth(cfg, Run(cfg, BORN, history), refused);
  }

  // ---- A heartbeat and a batch in flight together -------------------------------------------------------------------

  /** Two authorities that differ in confirmation times and in the time of the last message only. */
  ghost predicate SameStanding(a: Auth, b: Auth) {
    && a.epoch == b.epoch && a.policyGen == b.policyGen
    && SameRecords(a.records, b.records)
  }

  ghost predicate SameRecords(a: map<string, Record>, b: map<string, Record>) {
    && a.Keys == b.Keys
    && forall L :: L in a ==> a[L].(confirmed := 0) == b[L].(confirmed := 0)
  }

  lemma SameRecordsSize(a: map<string, Record>, b: map<string, Record>)
    requires SameRecords(a, b)
    ensures |a| == |b|
  {
    assert |a| == |a.Keys| && |b| == |b.Keys|;
  }

  lemma NameOneSame(s: Tally, t: Tally, b: Batch, epoch: nat, now: int, L: string)
    requires b.stamp.Some? && SameRecords(s.records, t.records) && s.stale == t.stale && s.unarmed == t.unarmed
    ensures var s', t' := NameOne(s, b, epoch, now, L), NameOne(t, b, epoch, now, L);
            SameRecords(s'.records, t'.records) && s'.stale == t'.stale && s'.unarmed == t'.unarmed
  {
    SameRecordsSize(s.records, t.records);
    assert L in s.records <==> L in t.records;
    if L in s.records {
      assert s.records[L].(confirmed := 0) == t.records[L].(confirmed := 0);
    }
    var s', t' := NameOne(s, b, epoch, now, L), NameOne(t, b, epoch, now, L);
    assert s'.records.Keys == t'.records.Keys;
    forall M | M in s'.records ensures s'.records[M].(confirmed := 0) == t'.records[M].(confirmed := 0) {
      if M != L {
        assert s'.records[M] == s.records[M] && t'.records[M] == t.records[M];
      }
    }
  }

  lemma {:induction false} NameAllSame(s: Tally, t: Tally, b: Batch, epoch: nat, now: int, order: seq<string>)
    requires b.stamp.Some? && SameRecords(s.records, t.records) && s.stale == t.stale && s.unarmed == t.unarmed
    ensures var s', t' := NameAll(s, b, epoch, now, order), NameAll(t, b, epoch, now, order);
            SameRecords(s'.records, t'.records) && s'.stale == t'.stale && s'.unarmed == t'.unarmed
  {
    if order != [] {
      var front, last := order[..|order| - 1], order[|order| - 1];
      NameAllSame(s, t, b, epoch, now, front);
      NameOneSame(NameAll(s, b, epoch, now, front), NameAll(t, b, epoch, now, front), b, epoch, now, last);
    }
  }

  /** The event belongs to the adopted epoch: every heartbeat and every stamped batch carries that epoch. */
  predicate OfEpoch(event: Event, epoch: nat) {
    match event
    case BatchMessage(_, batch, _) => batch.stamp.Some? ==> batch.stamp.value.epoch == epoch
    case HeartbeatMessage(_, heartbeat) => heartbeat.epoch == epoch
    case _ => true
  }

  lemma BatchSame(cfg: Settings, a: Auth, b: Auth, batch: Batch, now: int, order: seq<string>)
    requires SameStanding(a, b) && a.epoch > 0
    requires batch.stamp.Some? ==> batch.stamp.value.epoch == a.epoch
    ensures var (outA, a') := BatchAuthority(cfg, a, batch, now, order);
            var (outB, b') := BatchAuthority(cfg, b, batch, now, order);
            outA == outB && SameStanding(a', b') && a'.epoch == a.epoch && a'.policyGen >= a.policyGen
  {
    if batch.stamp.Some? {
      NameAllSame(Tally(a.records, [], []), Tally(b.records, [], []), batch, a.epoch, now, order);
    }
  }

  lemma ConfirmOneSame(s: Tally, t: Tally, epoch: nat, now: int, listed: Listed)
    requires SameRecords(s.records, t.records)
    ensures SameRecords(ConfirmOne(s, epoch, now, listed).records, ConfirmOne(t, epoch, now, listed).records)
  {
    var L := listed.listener;
    assert L in s.records <==> L in t.records;
    if L in s.records {
      assert s.records[L].(confirmed := 0) == t.records[L].(confirmed := 0);
    }
    var s', t' := ConfirmOne(s, epoch, now, listed).records, ConfirmOne(t, epoch, now, listed).records;
    forall M | M in s' ensures s'[M].(confirmed := 0) == t'[M].(confirmed := 0) {
      if M != L {
        assert s'[M] == s.records[M] && t'[M] == t.records[M];
      }
    }
  }

  lemma {:induction false} ConfirmedSame(s: Tally, t: Tally, epoch: nat, now: int, listed: seq<Listed>)
    requires SameRecords(s.records, t.records)
    ensures SameRecords(ConfirmAll(s, epoch, now, listed).records, ConfirmAll(t, epoch, now, listed).records)
  {
    if listed != [] {
      var front, last := listed[..|listed| - 1], listed[|listed| - 1];
      ConfirmedSame(s, t, epoch, now, front);
      ConfirmOneSame(ConfirmAll(s, epoch, now, front), ConfirmAll(t, epoch, now, front), epoch, now, last);
    }
  }

  /** A heartbeat of the adopted epoch, accepted, outdated, stopping or feed_stale, reads no confirmation time. */
  lemma HeartbeatSame(cfg: Settings, a: Auth, b: Auth, hb: Heartbeat, now: int)
    requires SameStanding(a, b) && a.epoch == hb.epoch > 0
    ensures HeartbeatAuth(cfg, a, hb, now).0 == HeartbeatAuth(cfg, b, hb, now).0
    ensures SameStanding(HeartbeatAuth(cfg, a, hb, now).1, HeartbeatAuth(cfg, b, hb, now).1)
    ensures HeartbeatAuth(cfg, a, hb, now).1.epoch == a.epoch
    ensures HeartbeatAuth(cfg, a, hb, now).1.policyGen == a.policyGen
  {
    ConfirmedSame(Tally(a.records, [], []), Tally(b.records, [], []), a.epoch, now, hb.listeners);
  }

  lemma {:induction false} RunSame(cfg: Settings, a: Room, b: Room, events: seq<Event>)
    requires SameStanding(a.auth, b.auth) && a.members == b.members && a.auth.epoch > 0
    requires forall k :: 0 <= k < |events| ==> OfEpoch(events[k], a.auth.epoch)
    ensures var a', b' := Run(cfg, a, events), Run(cfg, b, events);
            && SameStanding(a'.auth, b'.auth) && a'.members == b'.members
            && a'.auth.epoch == a.auth.epoch && a'.auth.policyGen >= a.auth.policyGen
  {
    if events != [] {
      var front, last := events[..|events| - 1], events[|events| - 1];
      assert last == events[|events| - 1];
      assert forall k :: 0 <= k < |front| ==> front[k] == events[k];
      RunSame(cfg, a, b, front);
      var a', b' := Run(cfg, a, front), Run(cfg, b, front);
      match last {
        case BatchMessage(now, batch, order) =>
          BatchSame(cfg, a'.auth, b'.auth, batch, now, order);
        case Join(sid, display) =>
          if display.Some? && display.value in a'.auth.records {
            assert a'.auth.records[display.value].(confirmed := 0) == b'.auth.records[display.value].(confirmed := 0);
          }
        case HeartbeatMessage(now, heartbeat) =>
          HeartbeatSame(cfg, a'.auth, b'.auth, heartbeat, now);
        case Leave(_) =>
      }
    }
  }

  /** The heartbeat lists exactly the records as they stand now, at this policy generation. */
  ghost predicate ListsExactly(hb: Heartbeat, auth: Auth) {
    && hb.epoch == auth.epoch && !hb.stopping
    && hb.asOf == Some(auth.policyGen)
    && ListedNames(hb.listeners) == auth.records.Keys
    && forall k :: 0 <= k < |hb.listeners| && hb.listeners[k].listener in auth.records ==>
         hb.listeners[k].gen == Some(auth.records[hb.listeners[k].listener].gen)
  }

  lemma {:induction false} ConfirmAllSame(records: map<string, Record>, epoch: nat, now: int, listed: seq<Listed>)
    requires forall L :: L in records ==> records[L].epoch == epoch
    requires forall k :: 0 <= k < |listed| ==>
        listed[k].listener in records && listed[k].gen == Some(records[listed[k].listener].gen)
    ensures SameRecords(ConfirmAll(Tally(records, [], []), epoch, now, listed).records, records)
  {
    if listed != [] {
      var front, last := listed[..|listed| - 1], listed[|listed| - 1];
      assert last == listed[|listed| - 1];
      assert forall k :: 0 <= k < |front| ==> front[k] == listed[k];
      ConfirmAllSame(records, epoch, now, front);
      var before := ConfirmAll(Tally(records, [], []), epoch, now, front).records;
      assert before[last.listener].(confirmed := 0) == records[last.listener].(confirmed := 0);
    }
  }

  /** Delivered in time, such a heartbeat confirms everybody: it disarms and stales no one. */
  lemma ExactHeartbeatHarmless(cfg: Settings, auth: Auth, hb: Heartbeat, now: int)
    requires AuthInv(auth) && auth.epoch > 0 && ListsExactly(hb, auth) && !FeedStale(cfg, hb)
    ensures HeartbeatAuth(cfg, auth, hb, now).0 == Accepted
    ensures SameStanding(HeartbeatAuth(cfg, auth, hb, now).1, auth)
  {
    var adopted := Adopted(cfg, auth, hb.epoch, now);
    assert adopted.records == auth.records;
    forall k | 0 <= k < |hb.listeners| ensures hb.listeners[k].listener in auth.records {
      assert hb.listeners[k].listener in ListedNames(hb.listeners);
    }
    ConfirmAllSame(auth.records, auth.epoch, now, hb.listeners);
  }

  /** A heartbeat that lists the records exactly as they stood at its as_of, delivered after later batches and
      heartbeats of the same epoch (at least one batch advancing the generation) and any joins and leaves: it is
      recognised as outdated, touches no record, and leaves the same epoch, generation, records (confirmation times
      apart), sets and deferred columns as the same heartbeat delivered before them. */
  lemma HeartbeatCrossesBatch(cfg: Settings, room: Room, hb: Heartbeat, early: int, events: seq<Event>, late: int)
    requires AuthInv(room.auth) && room.auth.epoch > 0 && ListsExactly(hb, room.auth) && !FeedStale(cfg, hb)
    requires forall k :: 0 <= k < |events| ==> OfEpoch(events[k], room.auth.epoch)
    requires Run(cfg, room, events).auth.policyGen > room.auth.policyGen
    ensures var between := Run(cfg, room, events);
            var (answer, after) := OnHeartbeat(cfg, between, hb, late);
            var other := Run(cfg, OnHeartbeat(cfg, room, hb, early).1, events);
            && answer == Outdated
            && after.auth.records == between.auth.records
            && SameStanding(after.auth, other.auth)
            && after.members == other.members
  {
    ExactHeartbeatHarmless(cfg, room.auth, hb, early);
    RunSame(cfg, OnHeartbeat(cfg, room, hb, early).1, room, events);
  }
}
