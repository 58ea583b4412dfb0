/** Presence rows in a room without fail-closed: joins, their pushes, the data channel's readiness and visibility
    batches interleave, each critical section under the room's mutex being one step. Displays are distinct and nobody
    leaves. */
module Presence {
  import opened Common
  import opened VisBatch
  import opened Columns

  /** One session: whether it is among the participants, what it excludes, whether its data channel is writable, and the
      rows the messages relayed to it so far leave shown at its viewer. */
  datatype Session = Session(joined: bool, excluded: set<string>, dcOpen: bool, shown: set<string>)

  const IDLE := Session(false, {}, false, {})

  /** Sessions by display, and the displays whose join push has run. */
  datatype Room = Room(sessions: map<string, Session>, pushed: set<string>)

  const EMPTY := Room(map[], {})

  function SessionOf(room: Room, who: string): Session {
    if who in room.sessions then room.sessions[who] else IDLE
  }

  function Present(room: Room): set<string> {
    set d | d in room.sessions && room.sessions[d].joined
  }

  datatype Event =
    | Insert(who: string, replayed: set<string>)   // the participant insert, with the columns replayed for it
    | Push(who: string)                            // push_presence of its join
    | Apply(op: Op, entry: Entry)                  // one exclusion entry of a batch
    | DataReady(who: string)                       // the channel becomes writable, with the backlog snapshot
    | ChannelUp(who: string)                       // the channel becomes writable while the session has no room
    | Confirm(who: string)                         // the viewer proves its attachment: the backlog is sent again

  /** A join or leave row reaches a session only through an open channel. */
  function Relayed(s: Session, joins: set<string>, leaves: set<string>): Session {
    if s.dcOpen then s.(shown := s.shown + joins - leaves) else s
  }

  /** Everybody present but the listener and whom it excludes. */
  function Backlog(room: Room, who: string, excluded: set<string>): set<string> {
    Present(room) - {who} - excluded
  }

  /** The room hears of a join or a leave: everybody in it but the subject, and nobody that excludes it. */
  function Told(s: Session, listener: string, who: string, join: bool): Session {
    if !s.joined || listener == who || who in s.excluded then s
    else if join then Relayed(s, {who}, {})
    else Relayed(s, {}, {who})
  }

  function AllTold(sessions: map<string, Session>, who: string, join: bool): map<string, Session> {
    map L | L in sessions :: Told(sessions[L], L, who, join)
  }

  function Step(room: Room, event: Event): Room {
    match event
    case Insert(who, replayed) =>
      var s := SessionOf(room, who);
      room.(sessions := room.sessions[who := s.(joined := true, excluded := s.excluded + replayed)])
    case Push(who) =>
      Room(AllTold(room.sessions, who, true), room.pushed + {who})
    case Apply(op, entry) =>
      var L := entry.listener;
      if L !in Present(room) then room
      else
        var s := room.sessions[L];
        var after := ApplyOp(op, s.excluded, entry.sources);
        var relayed := Relayed(s, (s.excluded - after) * Present(room), (after - s.excluded) * Present(room));
        room.(sessions := room.sessions[L := relayed.(excluded := after)])
    case DataReady(who) =>
      var s := SessionOf(room, who);
      if s.dcOpen then room
      else room.(sessions := room.sessions[who := Relayed(s.(dcOpen := true), Backlog(room, who, s.excluded), {})])
    case ChannelUp(who) => room.(sessions := room.sessions[who := SessionOf(room, who).(dcOpen := true)])
    case Confirm(who) =>
      var s := SessionOf(room, who);
      room.(sessions := room.sessions[who := Relayed(s, Backlog(room, who, s.excluded), {})])
  }

  function Run(events: seq<Event>): Room {
    if events == [] then EMPTY else Step(Run(events[..|events| - 1]), events[|events| - 1])
  }

  /** Who may act when: a display joins once and pushes after it has joined. A channel may come up at any time. */
  ghost predicate Possible(room: Room, event: Event) {
    match event
    case Insert(who, _) => who !in Present(room) && |Present(room)| < MAX_MIX
    case Push(who) => who in Present(room)
    case Apply(_, entry) => |entry.sources| <= MAX_EXCL
    case ChannelUp(who) => who !in Present(room)
    case _ => true
  }

  /** The order the fence takes for granted: a channel becomes ready, and is proven, after the join. */
  ghost predicate Admissible(room: Room, event: Event) {
    && Possible(room, event)
    && !event.ChannelUp? && (event.DataReady? || event.Confirm? ==> event.who in Present(room))
  }

  ghost predicate AdmissibleRun(events: seq<Event>) {
    events == []
      || (AdmissibleRun(events[..|events| - 1]) && Admissible(Run(events[..|events| - 1]), events[|events| - 1]))
  }

  // ---- The invariant ------------------------------------------------------------------------------------------------

  ghost predicate RowsRight(room: Room, L: string) {
    var s := SessionOf(room, L);
    && (!s.dcOpen ==> s.shown == {})
    && s.shown <= Present(room)
    && s.shown !! s.excluded
    && (s.dcOpen && s.joined ==> forall d :: d in Present(room) && d != L && d in room.pushed && d !in s.excluded ==>
      d in s.shown)
  }

  ghost predicate Inv(room: Room) {
    && room.pushed <= Present(room)
    && (forall L :: L in room.sessions ==> room.sessions[L].joined)
    && |Present(room)| <= MAX_MIX
    && forall L :: RowsRight(room, L)
  }

  lemma InsertKeeps(room: Room, who: string, replayed: set<string>)
    requires Inv(room) && Admissible(room, Insert(who, replayed))
    ensures Inv(Step(room, Insert(who, replayed)))
  {
    var after := Step(room, Insert(who, replayed));
    assert Present(after) == Present(room) + {who};
    assert who !in room.sessions;
    forall L ensures RowsRight(after, L) {
      assert RowsRight(room, L);
    }
  }

  lemma PushKeeps(room: Room, who: string)
    requires Inv(room) && Admissible(room, Push(who))
    ensures Inv(Step(room, Push(who)))
  {
    var after := Step(room, Push(who));
    assert Present(after) == Present(room);
    forall L ensures RowsRight(after, L) {
      assert RowsRight(room, L);
    }
  }

  lemma ApplyKeeps(room: Room, op: Op, entry: Entry)
    requires Inv(room) && Admissible(room, Apply(op, entry))
    ensures Inv(Step(room, Apply(op, entry)))
  {
    var after := Step(room, Apply(op, entry));
    assert Present(after) == Present(room);
    forall L ensures RowsRight(after, L) {
      assert RowsRight(room, L);
    }
  }

  lemma BacklogKeeps(room: Room, event: Event)
    requires Inv(room) && Admissible(room, event) && (event.DataReady? || event.Confirm?)
    ensures Inv(Step(room, event))
  {
    var after := Step(room, event);
    assert Present(after) == Present(room);
    forall L ensures RowsRight(after, L) {
      assert RowsRight(room, L);
    }
  }

  lemma {:induction false} RunKeeps(events: seq<Event>)
    requires AdmissibleRun(events)
    ensures Inv(Run(events))
  {
    if events == [] {
      assert Present(EMPTY) == {};
    } else {
      RunKeeps(events[..|events| - 1]);
      var before := Run(events[..|events| - 1]);
      match events[|events| - 1] {
        case Insert(who, replayed) => InsertKeeps(before, who, replayed);
        case Push(who) => PushKeeps(before, who);
        case Apply(op, entry) => ApplyKeeps(before, op, entry);
        case DataReady(who) => BacklogKeeps(before, DataReady(who));
        case Confirm(who) => BacklogKeeps(before, Confirm(who));
      }
    }
  }

  /** In every interleaving: the rows shown to a listener never include a present source it excludes, and once its
      channel is open they include every present source it does not exclude whose push has run. */
  lemma RowsNeverWrong(events: seq<Event>, L: string)
    requires AdmissibleRun(events) && L in Present(Run(events))
    ensures var room := Run(events);
            var s := room.sessions[L];
            && s.shown * Present(room) * s.excluded == {}
            && (s.dcOpen ==> (room.pushed - {L}) - s.excluded <= s.shown <= Present(room))
  {
    RunKeeps(events);
    assert RowsRight(Run(events), L);
  }

  /** When every join push has run, an open channel shows exactly the others it does not exclude (its own row aside). */
  lemma RowsSettle(events: seq<Event>, L: string)
    requires AdmissibleRun(events) && L in Present(Run(events))
    requires Run(events).pushed == Present(Run(events)) && Run(events).sessions[L].dcOpen
    ensures Run(events).sessions[L].shown - {L} == Present(Run(events)) - Run(events).sessions[L].excluded - {L}
  {
    RowsNeverWrong(events, L);
  }

  // ---- The critical sections ----------------------------------------------------------------------------------------

  class PresenceRoom {
    var sessions: map<string, Session>
    var pushed: set<string>

    ghost function Value(): Room
      reads this
    {
      Room(sessions, pushed)
    }

    constructor ()
      ensures Value() == EMPTY
    {
      sessions, pushed := map[], {};
    }

    /** The data channel's guard: a row reaches a session only while its channel is open. */
    method Relay(L: string, who: string, join: bool)
      requires L in sessions
      modifies this`sessions
      ensures sessions == old(sessions)[L := Relayed(old(sessions)[L], if join then {who} else {},
                                                     if join then {} else {who})]
    {
      var s := sessions[L];
      if s.dcOpen {
        s := s.(shown := if join then s.shown + {who} else s.shown - {who});
      }
      sessions := sessions[L := s];
      assert s == Relayed(old(sessions)[L], if join then {who} else {}, if join then {} else {who});
    }

    method PushPresence(who: string, join: bool)
      modifies this
      ensures sessions == AllTold(old(sessions), who, join)
      ensures pushed == if join then old(pushed) + {who} else old(pushed)
    {
      ghost var was := sessions;
      var rest := sessions.Keys;
      while rest != {}
        invariant rest <= was.Keys && sessions.Keys == was.Keys
        invariant forall L :: L in was ==> sessions[L] == if L in rest then was[L] else Told(was[L], L, who, join)
        decreases rest
        modifies this`sessions
      {
        var L :| L in rest;
        rest := rest - {L};
        if sessions[L].joined && L != who && who !in sessions[L].excluded {
          Relay(L, who, join);
        }
      }
      if join {
        pushed := pushed + {who};
      }
      assert sessions == AllTold(was, who, join);
    }

    method PresentDisplays() returns (present: set<string>)
      ensures present == Present(Value())
    {
      present := set d | d in sessions && sessions[d].joined;
    }

    /** The snapshot a newly writable, or newly proven, channel is sent. */
    method SendBacklog(who: string)
      requires who in sessions
      modifies this`sessions
      ensures var s := old(sessions)[who];
              sessions == old(sessions)[who := Relayed(s, Backlog(old(Value()), who, s.excluded), {})]
    {
      ghost var was := sessions;
      var s := sessions[who];
      var present := PresentDisplays();
      var rest := present;
      ghost var sent := {};
      while rest != {}
        invariant rest <= present && sessions.Keys == was.Keys
        invariant forall p :: p in sent <==> p in present && p !in rest && p != who && p !in s.excluded
        invariant forall L :: L in was && L != who ==> sessions[L] == was[L]
        invariant sessions[who] == s.(shown := if s.dcOpen then s.shown + sent else s.shown)
        decreases rest
      {
        var p :| p in rest;
        rest := rest - {p};
        if p != who && p !in s.excluded {
          Relay(who, p, true);
          sent := sent + {p};
        }
      }
      assert sent == Backlog(old(Value()), who, s.excluded);
      assert sessions[who] == Relayed(s, sent, {});
    }

    /** data_ready's fence: the flag and the snapshot are one critical section, taken once per attachment. A session
        without a room has nothing to snapshot. */
    method Ready(who: string, hasRoom: bool)
      requires who in sessions
      modifies this`sessions
      ensures Value() == Step(old(Value()), if hasRoom then DataReady(who) else ChannelUp(who))
    {
      if !sessions[who].dcOpen {
        ghost var was := Value();
        sessions := sessions[who := sessions[who].(dcOpen := true)];
        if hasRoom {
          assert Present(Value()) == Present(was);
          SendBacklog(who);
        }
      }
    }

    /** One exclusion entry of a batch applied to the session of its display, its transitions relayed one by one. */
    method ApplyEntry(op: Op, entry: Entry)
      requires |entry.sources| <= MAX_EXCL && |Present(Value())| <= MAX_MIX
      modifies this`sessions
      ensures Value() == Step(old(Value()), Apply(op, entry))
    {
      var L := entry.listener;
      var present := PresentDisplays();
      if L !in present {
        return;
      }
      var s := sessions[L];
      var after, ts := MergeExclusions(op, s.excluded, entry.sources, present);
      var view := s.shown;
      for t := 0 to |ts|
        invariant view == if s.dcOpen then ShowAll(s.shown, ts[..t]) else s.shown
      {
        assert ts[..t + 1][..t] == ts[..t];
        if s.dcOpen {
          view := Show(view, ts[t]);
        }
      }
      assert ts[..|ts|] == ts;
      sessions := sessions[L := s.(excluded := after, shown := view)];
    }
  }
}
