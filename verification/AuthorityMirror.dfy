/** Fail-closed rooms: the columns a record mirrors and the sets its display's sessions carry never drift apart. */
module AuthorityMirror {
  import opened Common
  import opened VisBatch
  import opened Authority
  import opened AuthorityInvariants

  // ---- What a batch does to one session -----------------------------------------------------------------------------

  /** A session after one channel of a batch. */
  function Reached(s: Session, op: Op, entries: seq<Entry>, skip: set<string>, isMute: bool): Session {
    if s.display.None? || s.display.value in skip then s
    else
      var e := FindEntry(entries, s.display.value);
      if e.Some? then UpdateSession(s, op, e.value, isMute) else s
  }

  lemma {:induction false} FindInPrefix(entries: seq<Entry>, L: string)
    requires entries != [] && DistinctListeners(entries)
    ensures var front, last := entries[..|entries| - 1], entries[|entries| - 1];
            FindEntry(entries, L) == if last.listener == L then Some(last) else FindEntry(front, L)
  {
    var front, last := entries[..|entries| - 1], entries[|entries| - 1];
    if |entries| > 1 {
      FindInPrefix(entries[1..], L);
      assert entries[1..][..|entries| - 2] == front[1..];
      assert front[0] == entries[0];
    }
  }

  /** One channel reaches every session of the display it names, once, and no other; nobody joins or leaves. */
  lemma {:induction false} ChannelReaches(m: Members, op: Op, entries: seq<Entry>, skip: set<string>, isMute: bool)
    requires DistinctListeners(entries)
    ensures var after := ApplyChannel(m, op, entries, skip, isMute);
            && after.sessions.Keys == m.sessions.Keys
            && forall sid :: sid in m.sessions ==>
              after.sessions[sid] == Reached(m.sessions[sid], op, entries, skip, isMute)
  {
    if entries != [] {
      var front, last := entries[..|entries| - 1], entries[|entries| - 1];
      ChannelReaches(m, op, front, skip, isMute);
      var before, after := ApplyChannel(m, op, front, skip, isMute), ApplyChannel(m, op, entries, skip, isMute);
      forall sid | sid in m.sessions ensures after.sessions[sid]
        == Reached(m.sessions[sid], op, entries, skip, isMute) {
        var s := m.sessions[sid];
        if s.display.Some? {
          FindInPrefix(entries, s.display.value);
          if last.listener == s.display.value {
            NotFoundBefore(entries);
            assert before.sessions[sid] == s;
            assert Present(before.sessions, last.listener);
          }
        }
      }
    }
  }

  lemma NotFoundBefore(entries: seq<Entry>)
    requires entries != [] && DistinctListeners(entries)
    ensures FindEntry(entries[..|entries| - 1], entries[|entries| - 1].listener) == None
  {
  }

  /** A session after both channels of a batch. */
  function ReachedByBatch(s: Session, b: Batch, skip: set<string>): Session {
    Reached(Reached(s, b.op, b.entries, skip, false), b.op, b.muteEntries, skip, true)
  }

  lemma BatchReaches(m: Members, b: Batch, skip: set<string>)
    requires DistinctListeners(b.entries) && DistinctListeners(b.muteEntries)
    ensures var after := ApplyBatch(m, b, skip);
            && after.sessions.Keys == m.sessions.Keys
            && forall sid :: sid in m.sessions ==> after.sessions[sid] == ReachedByBatch(m.sessions[sid], b, skip)
  {
    ChannelReaches(m, b.op, b.entries, skip, false);
    ChannelReaches(ApplyChannel(m, b.op, b.entries, skip, false), b.op, b.muteEntries, skip, true);
  }

  /** The two sets of a reached session, spelled out. */
  lemma ReachedSets(s: Session, b: Batch, skip: set<string>)
    ensures var r := ReachedByBatch(s, b, skip);
            && r.display == s.display
            && (s.display.Some? && s.display.value !in skip ==>
                  && r.excluded == Mirror(b.op, s.excluded, FindEntry(b.entries, s.display.value))
                  && r.muted == Mirror(b.op, s.muted, FindEntry(b.muteEntries, s.display.value)))
            && (s.display.None? || s.display.value in skip ==> r == s)
  {
  }

  // ---- What a run remembers about each record -----------------------------------------------------------------------

  /** Since its record was created: which channels a replace has named, and which sessions joined while it stood. */
  datatype History = History(excl: bool, mute: bool, joined: set<nat>)

  const NEW := History(false, false, {})

  function RecordsAfterAdoption(cfg: Settings, auth: Auth, event: Event): map<string, Record> {
    match event
    case BatchMessage(now, batch, _) =>
      if batch.stamp.Some? then Adopted(cfg, auth, batch.stamp.value.epoch, now).records else auth.records
    case HeartbeatMessage(now, heartbeat) =>
      if FeedStale(cfg, heartbeat) then auth.records else Adopted(cfg, auth, heartbeat.epoch, now).records
    case _ => auth.records
  }

  /** One record's history after one event, from what was kept of it. */
  function Recall(cfg: Settings, auth: Auth, event: Event, L: string, kept: History): History {
    match event
    case BatchMessage(_, batch, _) =>
      if Rearms(cfg, auth, event, L)
      then kept.(excl := kept.excl || L in Listeners(batch.entries), mute := kept.mute
        || L in Listeners(batch.muteEntries))
      else kept
    case HeartbeatMessage(_, _) => kept
    case Join(sid, display) => if display == Some(L) then kept.(joined := kept.joined + {sid}) else kept
    case Leave(sid) => kept.(joined := kept.joined - {sid})
  }

  /** The histories after one event, told from the records before and after it and the event itself. */
  function Remember(cfg: Settings, room: Room, h: map<string, History>, event: Event): map<string, History> {
    var survivors := RecordsAfterAdoption(cfg, room.auth, event);
    var after := Step(cfg, room, event).1.auth.records;
    map L | L in after :: Recall(cfg, room.auth, event, L, if L in survivors && L in h then h[L] else NEW)
  }

  function RunHistory(cfg: Settings, room: Room, events: seq<Event>): map<string, History> {
    if events == [] then map[]
    else
      var front := events[..|events| - 1];
      Remember(cfg, Run(cfg, room, front), RunHistory(cfg, room, front), events[|events| - 1])
  }

  // ---- The invariant ------------------------------------------------------------------------------------------------

  /** How one record's columns stand to one session of its display. */
  predicate Agrees(r: Record, s: Session, h: History, sid: nat) {
    && r.excl <= s.excluded
    && r.mute <= s.muted
    && (h.excl || sid in h.joined ==> r.excl == s.excluded)
    && (h.mute || sid in h.joined ==> r.mute == s.muted)
  }

  ghost predicate MirrorInv(room: Room, h: map<string, History>) {
    && h.Keys == room.auth.records.Keys
    && (forall L, sid :: L in h && sid in h[L].joined ==> sid in room.members.sessions)
    && forall L, sid :: L in h && sid in room.members.sessions && room.members.sessions[sid].display == Some(L) ==>
         Agrees(room.auth.records[L], room.members.sessions[sid], h[L], sid)
  }

  lemma MirrorAgrees(r: Record, s: Session, h: History, sid: nat, b: Batch, L: string)
    requires s.display == Some(L) && Agrees(r, s, h, sid)
    ensures Agrees(Mirrored(r, b, L), s.(excluded := Mirror(b.op, s.excluded, FindEntry(b.entries, L)),
                                         muted := Mirror(b.op, s.muted, FindEntry(b.muteEntries, L))), h, sid)
    ensures b.op.Replace? ==>
              Agrees(Mirrored(r, b, L), s.(excluded := Mirror(b.op, s.excluded, FindEntry(b.entries, L)),
                                           muted := Mirror(b.op, s.muted, FindEntry(b.muteEntries, L))),
                     h.(excl := h.excl || L in Listeners(b.entries), mute := h.mute || L in Listeners(b.muteEntries)),
                       sid)
  {
  }

  lemma NamedIffEntry(entries: seq<Entry>, L: string)
    ensures L in Listeners(entries) <==> FindEntry(entries, L).Some?
  {
  }

  lemma AgreesIgnoresStanding(r: Record, r': Record, s: Session, h: History, sid: nat)
    requires Agrees(r, s, h, sid) && r'.excl == r.excl && r'.mute == r.mute
    ensures Agrees(r', s, h, sid)
  {
  }

  /** One record and one session of its display, through an applied stamped batch of an enforced room. */
  lemma AppliedBatchAgrees(cfg: Settings, room: Room, h: map<string, History>, b: Batch, now: int, order: seq<string>,
                           L: string, sid: nat)
    requires cfg.Enforced() && MirrorInv(room, h)
    requires Admissible(room, BatchMessage(now, b, order)) && b.stamp.Some?
    requires !Refused(cfg, BatchAuthority(cfg, room.auth, b, now, order).0)
    requires sid in room.members.sessions && room.members.sessions[sid].display == Some(L)
    requires L in BatchAuthority(cfg, room.auth, b, now, order).1.records
    ensures var event := BatchMessage(now, b, order);
            var (out, auth) := BatchAuthority(cfg, room.auth, b, now, order);
            && L in Remember(cfg, room, h, event)
            && Agrees(auth.records[L], ReachedByBatch(room.members.sessions[sid], b, Skipped(cfg, out)),
                      Remember(cfg, room, h, event)[L], sid)
  {
    var event := BatchMessage(now, b, order);
    var (out, auth) := BatchAuthority(cfg, room.auth, b, now, order);
    var adopted := Adopted(cfg, room.auth, b.stamp.value.epoch, now);
    var s := room.members.sessions[sid];
    var t := Tally(adopted.records, [], []);
    NameAllEffect(t, b, adopted.epoch, now, order, L);
    ReachedSets(s, b, Skipped(cfg, out));
    NamedIffEntry(b.entries, L);
    NamedIffEntry(b.muteEntries, L);
    assert L in Named(b) <==> L in order;
    var kept := if L in adopted.records then h[L] else NEW;
    if L in adopted.records {
      assert adopted.records == room.auth.records;
    }
    if L !in order {
      assert auth.records[L] == adopted.records[L];
      assert L !in Skipped(cfg, out);
    } else if b.op.Replace? {
      assert L !in out.unarmed && L !in Skipped(cfg, out);
      assert Rearms(cfg, room.auth, event, L);
      var r := if L in adopted.records then adopted.records[L] else Record(0, 0, 0, false, {}, {});
      assert Agrees(r, s, kept, sid);
      MirrorAgrees(r, s, kept, sid, b, L);
      AgreesIgnoresStanding(Mirrored(r, b, L), auth.records[L], ReachedByBatch(s, b, Skipped(cfg, out)),
        Remember(cfg, room, h, event)[L], sid);
    } else if BaseMatches(adopted.records, adopted.epoch, b, L) {
      assert L !in out.stale;
      MirrorAgrees(adopted.records[L], s, kept, sid, b, L);
      AgreesIgnoresStanding(Mirrored(adopted.records[L], b, L), auth.records[L],
        ReachedByBatch(s, b, Skipped(cfg, out)), kept, sid);
    } else {
      assert L in Skipped(cfg, out);
      AgreesIgnoresStanding(adopted.records[L], auth.records[L], s, kept, sid);
    }
  }

  lemma BatchKeepsMirror(cfg: Settings, room: Room, h: map<string, History>, b: Batch, now: int, order: seq<string>)
    requires cfg.Enforced() && MirrorInv(room, h)
    requires Admissible(room, BatchMessage(now, b, order)) && b.stamp.Some?
    ensures MirrorInv(OnBatch(cfg, room, b, now, order).1, Remember(cfg, room, h, BatchMessage(now, b, order)))
  {
    var event := BatchMessage(now, b, order);
    var (out, auth) := BatchAuthority(cfg, room.auth, b, now, order);
    var after := OnBatch(cfg, room, b, now, order).1;
    var h' := Remember(cfg, room, h, event);
    if Refused(cfg, out) {
      forall L | L in h' ensures L in h && h'[L] == h[L] {
        assert auth.records == Adopted(cfg, room.auth, b.stamp.value.epoch, now).records;
      }
    } else {
      BatchReaches(room.members, b, Skipped(cfg, out));
      forall L, sid | L in h' && sid in after.members.sessions && after.members.sessions[sid].display == Some(L)
        ensures Agrees(auth.records[L], after.members.sessions[sid], h'[L], sid)
      {
        ReachedSets(room.members.sessions[sid], b, Skipped(cfg, out));
        AppliedBatchAgrees(cfg, room, h, b, now, order, L, sid);
      }
    }
  }

  lemma HeartbeatKeepsMirror(cfg: Settings, room: Room, h: map<string, History>, hb: Heartbeat, now: int)
    requires MirrorInv(room, h)
    ensures MirrorInv(OnHeartbeat(cfg, room, hb, now).1, Remember(cfg, room, h, HeartbeatMessage(now, hb)))
  {
    var adopted := Adopted(cfg, room.auth, hb.epoch, now);
    ConfirmAllKeeps(Tally(adopted.records, [], []), adopted.epoch, now, hb.listeners);
    var after := OnHeartbeat(cfg, room, hb, now).1;
    var h' := Remember(cfg, room, h, HeartbeatMessage(now, hb));
    forall L | L in h'
      ensures L in h && h'[L] == h[L]
      ensures after.auth.records[L].excl == room.auth.records[L].excl
          && after.auth.records[L].mute == room.auth.records[L].mute
    {
    }
  }

  lemma JoinKeepsMirror(cfg: Settings, room: Room, h: map<string, History>, sid: nat, display: Option<string>)
    requires cfg.Enforced() && MirrorInv(room, h) && AuthInv(room.auth) && sid !in room.members.sessions
    ensures MirrorInv(OnJoin(cfg, room, sid, display), Remember(cfg, room, h, Join(sid, display)))
  {
    var after := OnJoin(cfg, room, sid, display);
    var h' := Remember(cfg, room, h, Join(sid, display));
    forall L, other | L in h' && other in after.members.sessions && after.members.sessions[other].display == Some(L)
      ensures Agrees(after.auth.records[L], after.members.sessions[other], h'[L], other)
    {
      if other == sid {
        assert room.auth.records[L].epoch == room.auth.epoch;
      } else {
        assert after.members.sessions[other] == room.members.sessions[other];
      }
    }
  }

  lemma LeaveKeepsMirror(cfg: Settings, room: Room, h: map<string, History>, sid: nat)
    requires MirrorInv(room, h)
    ensures MirrorInv(OnLeave(room, sid), Remember(cfg, room, h, Leave(sid)))
  {
    var after := OnLeave(room, sid);
    var h' := Remember(cfg, room, h, Leave(sid));
    forall L, other | L in h' && other in after.members.sessions && after.members.sessions[other].display == Some(L)
      ensures Agrees(after.auth.records[L], after.members.sessions[other], h'[L], other)
    {
      assert after.members.sessions[other] == room.members.sessions[other];
    }
  }

  /** Every batch of the run carries an authority stamp. */
  predicate AllStamped(events: seq<Event>) {
    forall i :: 0 <= i < |events| ==> events[i].BatchMessage? ==> events[i].batch.stamp.Some?
  }

  lemma {:induction false} RunKeepsMirror(cfg: Settings, events: seq<Event>)
    requires cfg.Enforced() && AdmissibleRun(cfg, BORN, events) && AllStamped(events)
    ensures MirrorInv(Run(cfg, BORN, events), RunHistory(cfg, BORN, events))
  {
    if events != [] {
      var front, last := events[..|events| - 1], events[|events| - 1];
      assert last == events[|events| - 1];
      RunKeepsMirror(cfg, front);
      RunInv(cfg, BORN, front);
      var before, h := Run(cfg, BORN, front), RunHistory(cfg, BORN, front);
      match last {
        case BatchMessage(now, batch, order) => BatchKeepsMirror(cfg, before, h, batch, now, order);
        case HeartbeatMessage(now, heartbeat) => HeartbeatKeepsMirror(cfg, before, h, heartbeat, now);
        case Join(sid, display) => JoinKeepsMirror(cfg, before, h, sid, display);
        case Leave(sid) => LeaveKeepsMirror(cfg, before, h, sid);
      }
    }
  }

  /** In a fail-closed declared room, over every run of stamped batches, heartbeats, joins and leaves: an armed record's
      columns are contained in the sets of every live session of its display, and equal them for a channel a replace has
      named since the record was created and for a session that joined while the record stood. */
  lemma MirrorNeverDrifts(cfg: Settings, events: seq<Event>, L: string, sid: nat)
    requires cfg.Enforced() && AdmissibleRun(cfg, BORN, events) && AllStamped(events)
    requires var room := Run(cfg, BORN, events);
             L in room.auth.records && sid in room.members.sessions && room.members.sessions[sid].display == Some(L)
    ensures var room := Run(cfg, BORN, events);
            var r, s := room.auth.records[L], room.members.sessions[sid];
            var h := RunHistory(cfg, BORN, events);
            && L in h
            && r.excl <= s.excluded && r.mute <= s.muted
            && (h[L].excl || sid in h[L].joined ==> r.excl == s.excluded)
            && (h[L].mute || sid in h[L].joined ==> r.mute == s.muted)
  {
    RunKeepsMirror(cfg, events);
  }

  // ---- Batches without a stamp --------------------------------------------------------------------------------------

  /** An unstamped entry changes the sessions and not the record. It leaves a mirrored column inside the sets when there
      is no entry, when it adds, when it removes nothing mirrored, or when it replaces by a set that holds all that is
      mirrored. */
  predicate Spares(op: Op, column: set<string>, entry: Option<Entry>) {
    || entry.None?
    || op.Add?
    || (op.Remove? && SourceSet(entry.value.sources) !! column)
    || (op.Replace? && column <= SourceSet(entry.value.sources))
  }

  lemma SparesExactly(op: Op, column: set<string>, excluded: set<string>, entry: Option<Entry>)
    ensures column <= excluded ==> (column <= Mirror(op, excluded, entry) <==> Spares(op, column, entry))
    ensures !Spares(op, column, entry) ==> !(column <= Mirror(op, excluded, entry))
  {
  }

  /** For every unstamped batch, every session of an armed display and both columns: containment survives the batch
      exactly when the batch spares the column, and a batch that does not spare it breaks it whatever stood before. */
  lemma UnstampedContainment(cfg: Settings, room: Room, b: Batch, now: int, order: seq<string>, L: string, sid: nat)
    requires Parsed(b) && b.stamp.None? && L in room.auth.records
    requires sid in room.members.sessions && room.members.sessions[sid].display == Some(L)
    ensures var after := Step(cfg, room, BatchMessage(now, b, order)).1;
            var r, s := room.auth.records[L], room.members.sessions[sid];
            && after.auth == room.auth && sid in after.members.sessions
            && var t := after.members.sessions[sid];
               var ex, mu := Spares(b.op, r.excl, FindEntry(b.entries, L)),
                 Spares(b.op, r.mute, FindEntry(b.muteEntries, L));
               && (r.excl <= s.excluded ==> (r.excl <= t.excluded <==> ex)) && (!ex ==> !(r.excl <= t.excluded))
               && (r.mute <= s.muted ==> (r.mute <= t.muted <==> mu)) && (!mu ==> !(r.mute <= t.muted))
  {
    BatchReaches(room.members, b, {});
    assert Skipped(cfg, UNCHECKED) == {};
    var r, s := room.auth.records[L], room.members.sessions[sid];
    ReachedSets(s, b, {});
    SparesExactly(b.op, r.excl, s.excluded, FindEntry(b.entries, L));
    SparesExactly(b.op, r.mute, s.muted, FindEntry(b.muteEntries, L));
  }

  /** Every armed record's columns lie within the sets of every live session of its display. */
  ghost predicate Covered(room: Room) {
    forall L, sid ::
      L in room.auth.records && sid in room.members.sessions && room.members.sessions[sid].display == Some(L) ==>
        && room.auth.records[L].excl <= room.members.sessions[sid].excluded
        && room.auth.records[L].mute <= room.members.sessions[sid].muted
  }

  ghost predicate SparesAll(room: Room, b: Batch) {
    forall L :: L in room.auth.records && Present(room.members.sessions, L) ==>
      && Spares(b.op, room.auth.records[L].excl, FindEntry(b.entries, L))
      && Spares(b.op, room.auth.records[L].mute, FindEntry(b.muteEntries, L))
  }

  /** The event is no unstamped batch, or one that spares every armed column with a live session. */
  ghost predicate SparingEvent(room: Room, event: Event) {
    event.BatchMessage? && event.batch.stamp.None? ==> SparesAll(room, event.batch)
  }

  lemma StampedKeepsCovered(cfg: Settings, room: Room, event: Event)
    requires cfg.Enforced() && AuthInv(room.auth) && Admissible(room, event) && Covered(room)
    requires event.BatchMessage? ==> event.batch.stamp.Some?
    ensures Covered(Step(cfg, room, event).1)
  {
    var h := map L | L in room.auth.records :: NEW;
    assert MirrorInv(room, h);
    match event {
      case BatchMessage(now, batch, order) => BatchKeepsMirror(cfg, room, h, batch, now, order);
      case HeartbeatMessage(now, heartbeat) => HeartbeatKeepsMirror(cfg, room, h, heartbeat, now);
      case Join(sid, display) => JoinKeepsMirror(cfg, room, h, sid, display);
      case Leave(sid) => LeaveKeepsMirror(cfg, room, h, sid);
    }
    assert MirrorInv(Step(cfg, room, event).1, Remember(cfg, room, h, event));
  }

  lemma UnstampedKeepsCovered(cfg: Settings, room: Room, event: Event)
    requires Admissible(room, event) && Covered(room) && event.BatchMessage? && event.batch.stamp.None?
    ensures Covered(Step(cfg, room, event).1) <==> SparesAll(room, event.batch)
  {
    var b, after := event.batch, Step(cfg, room, event).1;
    BatchReaches(room.members, b, {});
    assert Skipped(cfg, UNCHECKED) == {};
    assert after.members.sessions.Keys == room.members.sessions.Keys;
    forall L, sid | L in room.auth.records && sid in room.members.sessions
      && room.members.sessions[sid].display == Some(L)
      ensures after.members.sessions[sid].display == Some(L)
      ensures room.auth.records[L].excl <= after.members.sessions[sid].excluded
                && room.auth.records[L].mute <= after.members.sessions[sid].muted
              <==> Spares(b.op, room.auth.records[L].excl, FindEntry(b.entries, L))
                   && Spares(b.op, room.auth.records[L].mute, FindEntry(b.muteEntries, L))
    {
      UnstampedContainment(cfg, room, b, event.now, event.order, L, sid);
      ReachedSets(room.members.sessions[sid], b, {});
    }
    forall sid | sid in after.members.sessions
      ensures after.members.sessions[sid].display == room.members.sessions[sid].display {
      ReachedSets(room.members.sessions[sid], b, {});
    }
    assert after.auth == room.auth;
  }

  /** Containment in every state the run goes through. */
  ghost predicate AlwaysCovered(cfg: Settings, events: seq<Event>) {
    Covered(Run(cfg, BORN, events)) && (events == [] || AlwaysCovered(cfg, events[..|events| - 1]))
  }

  ghost predicate Sparing(cfg: Settings, events: seq<Event>) {
    events == [] ||
    (Sparing(cfg, events[..|events| - 1]) && SparingEvent(Run(cfg, BORN, events[..|events| - 1]), events[|events| - 1]))
  }

  /** Over every run of an enforced room, stamped or not: an armed record's columns stay within the sets of its
      display's sessions throughout if and only if every unstamped batch spares them when it arrives. */
  lemma {:induction false} ContainmentExactly(cfg: Settings, events: seq<Event>)
    requires cfg.Enforced() && AdmissibleRun(cfg, BORN, events)
    ensures AlwaysCovered(cfg, events) <==> Sparing(cfg, events)
  {
    if events != [] {
      var front, last := events[..|events| - 1], events[|events| - 1];
      ContainmentExactly(cfg, front);
      RunInv(cfg, BORN, front);
      var before := Run(cfg, BORN, front);
      if Covered(before) {
        if last.BatchMessage? && last.batch.stamp.None? {
          UnstampedKeepsCovered(cfg, before, last);
        } else {
          StampedKeepsCovered(cfg, before, last);
        }
      }
    }
  }
}
