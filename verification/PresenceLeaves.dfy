/** Presence rows when participants leave. The announcement of a leave and the removal of the participant are two
    critical sections, and a join's own push is a third, so a row may be shown after the only message that would take it
    away: exactly when that happens, and that nothing but a rejoin or the listener's own leave then clears it. */
module PresenceLeaves {
  import opened Common
  import opened VisBatch
  import opened Presence

  datatype LeaveEvent =
    | Other(event: Event)        // what happens in a room nobody leaves
    | Announce(who: string)      // push_presence of a leave
    | Depart(who: string)        // its removal from the participants

  /** Beside the room: who has announced its leave and is still a participant, and whose join push is yet to run. */
  datatype State = State(room: Room, leaving: set<string>, owed: set<string>)

  const START := State(EMPTY, {}, {})

  /** A session that has left is not followed: a rejoin starts a new one. */
  function Next(x: State, event: LeaveEvent): State {
    match event
    case Other(e) =>
      State(Step(x.room, e), x.leaving,
            match e case Insert(who, _) => x.owed + {who} case Push(who) => x.owed - {who} case _ => x.owed)
    case Announce(who) =>
      x.(room := x.room.(sessions := AllTold(x.room.sessions, who, false)), leaving := x.leaving + {who})
    case Depart(who) => x.(room := x.room.(sessions := x.room.sessions - {who}), leaving := x.leaving - {who})
  }

  /** A join's push follows its insert, but not before a leave that another thread carries out meanwhile; the next
      insert of the display comes after both. */
  ghost predicate MayHappen(x: State, event: LeaveEvent) {
    match event
    case Other(Push(who)) => who in x.owed
    case Other(Insert(who, replayed)) => who !in x.owed && Possible(x.room, Insert(who, replayed))
    case Other(e) => Possible(x.room, e)
    case Announce(who) => who in Present(x.room) && who !in x.leaving
    case Depart(who) => who in x.leaving
  }

  function Reached(events: seq<LeaveEvent>): State {
    if events == [] then START else Next(Reached(events[..|events| - 1]), events[|events| - 1])
  }

  ghost predicate Run(events: seq<LeaveEvent>) {
    events == [] || (Run(events[..|events| - 1]) && MayHappen(Reached(events[..|events| - 1]), events[|events| - 1]))
  }

  // ---- What every run keeps -----------------------------------------------------------------------------------------

  ghost predicate Sound(x: State) {
    x.leaving <= Present(x.room) && forall L :: SoundSession(SessionOf(x.room, L))
  }

  ghost predicate SoundSession(s: Session) {
    (!s.dcOpen ==> s.shown == {}) && (!s.joined ==> s.excluded == {})
  }

  /** Who is in the room and has not announced its leave. */
  function Staying(x: State): set<string> {
    Present(x.room) - x.leaving
  }

  lemma StayingAfter(x: State, event: LeaveEvent)
    requires Sound(x) && MayHappen(x, event)
    ensures Present(Next(x, event).room) == match event
              case Other(Insert(who, _)) => Present(x.room) + {who}
              case Other(_) => Present(x.room)
              case Announce(_) => Present(x.room)
              case Depart(who) => Present(x.room) - {who}
    ensures Next(x, event).leaving <= Present(Next(x, event).room)
    ensures Staying(Next(x, event)) == match event
              case Other(Insert(who, _)) => Staying(x) + {who}
              case Announce(who) => Staying(x) - {who}
              case _ => Staying(x)
  {
  }

  lemma {:induction false} RunSound(events: seq<LeaveEvent>)
    requires Run(events)
    ensures Sound(Reached(events))
  {
    if events != [] {
      var front, last := events[..|events| - 1], events[|events| - 1];
      RunSound(front);
      StayingAfter(Reached(front), last);
      forall L ensures SoundSession(SessionOf(Reached(events).room, L)) {
        StepSoundSession(Reached(front), last, L);
      }
    }
  }

  lemma StepSoundSession(x: State, event: LeaveEvent, L: string)
    requires Sound(x) && MayHappen(x, event)
    ensures SoundSession(SessionOf(Next(x, event).room, L))
  {
    assert SoundSession(SessionOf(x.room, L));
  }

  // ---- Which rows an event shows and hides --------------------------------------------------------------------------

  /** A row about d reaches L when the room hears of d. */
  predicate Hears(s: Session, L: string, d: string) {
    s.joined && s.dcOpen && L != d && d !in s.excluded
  }

  /** The event relays a join row of d to L. */
  predicate Shows(room: Room, event: Event, L: string, d: string) {
    var s := SessionOf(room, L);
    match event
    case Push(who) => who == d && Hears(s, L, d)
    case Apply(op, entry) =>
      entry.listener == L && s.joined && s.dcOpen && d in Present(room) && d in s.excluded
      && d !in ApplyOp(op, s.excluded, entry.sources)
    case DataReady(who) => who == L && !s.dcOpen && d in Present(room) && d != L && d !in s.excluded
    case Confirm(who) => who == L && s.dcOpen && d in Present(room) && d != L && d !in s.excluded
    case _ => false
  }

  /** The event relays a leave row of d to L. */
  predicate Hides(room: Room, event: Event, L: string, d: string) {
    var s := SessionOf(room, L);
    event.Apply? && event.entry.listener == L && s.joined && s.dcOpen && d in Present(room) && d !in s.excluded
      && d in ApplyOp(event.op, s.excluded, event.entry.sources)
  }

  lemma ShownAfter(room: Room, event: Event, L: string, d: string)
    requires SoundSession(SessionOf(room, L))
    ensures d in SessionOf(Step(room, event), L).shown
      <==> Shows(room, event, L, d) || (d in SessionOf(room, L).shown && !Hides(room, event, L, d))
  {
  }

  lemma ShownAfterAnnounce(x: State, who: string, L: string, d: string)
    requires SoundSession(SessionOf(x.room, L))
    ensures var s := SessionOf(x.room, L);
            d in SessionOf(Next(x, Announce(who)).room, L).shown <==> d in s.shown && !(who == d && Hears(s, L, d))
  {
  }

  // ---- Rows that should not be shown --------------------------------------------------------------------------------

  /** Rows of somebody who is excluded, leaving or gone. */
  function Astray(x: State, L: string): set<string> {
    SessionOf(x.room, L).shown - (Staying(x) - SessionOf(x.room, L).excluded)
  }

  /** Such a row arises when a join row of somebody leaving, or gone, is relayed to L; when an early channel was shown
      what L's insert excludes; and when the announcement of a source shown to an early channel does not reach it. */
  predicate Arises(x: State, event: LeaveEvent, L: string, d: string) {
    var s := SessionOf(x.room, L);
    match event
    case Other(e) =>
      (Shows(x.room, e, L, d) && d !in Staying(x)) || (e.Insert? && e.who == L && d in s.shown && d in e.replayed)
    case Announce(who) => who == d && d in s.shown && (!s.joined || L == d)
    case Depart(_) => false
  }

  /** It ends by an entry that newly excludes a source still a participant, by a join row of a source that stays, by the
      rejoin of a source not excluded, and by the listener's own removal. */
  predicate Lasts(x: State, event: LeaveEvent, L: string, d: string) {
    match event
    case Other(e) =>
      && !Hides(x.room, e, L, d) && !(Shows(x.room, e, L, d) && d in Staying(x))
      && !(e.Insert? && e.who == d && d !in SessionOf(x.room, L).excluded)
    case Announce(_) => true
    case Depart(who) => who != L
  }

  lemma AstrayAfter(x: State, event: LeaveEvent, L: string, d: string)
    requires Sound(x) && MayHappen(x, event)
    ensures d in Astray(Next(x, event), L)
      <==> Arises(x, event, L, d) || (d in Astray(x, L) && Lasts(x, event, L, d))
  {
    match event {
      case Other(e) => AstrayAfterOther(x, e, L, d);
      case Announce(who) => AstrayAfterAnnounce(x, who, L, d);
      case Depart(who) => AstrayAfterDepart(x, who, L, d);
    }
  }

  lemma AstrayAfterOther(x: State, e: Event, L: string, d: string)
    requires Sound(x) && MayHappen(x, Other(e))
    ensures d in Astray(Next(x, Other(e)), L)
      <==> Arises(x, Other(e), L, d) || (d in Astray(x, L) && Lasts(x, Other(e), L, d))
  {
    StayingAfter(x, Other(e));
    assert SoundSession(SessionOf(x.room, L));
    ShownAfter(x.room, e, L, d);
    ExcludedAfter(x.room, e, L, d);
  }

  lemma ExcludedAfter(room: Room, event: Event, L: string, d: string)
    ensures var s := SessionOf(room, L);
            d in SessionOf(Step(room, event), L).excluded <==>
              match event
              case Insert(who, replayed) => d in s.excluded || (who == L && d in replayed)
              case Apply(op, entry) =>
                if entry.listener == L && s.joined then d in ApplyOp(op, s.excluded, entry.sources) else d in s.excluded
              case _ => d in s.excluded
  {
  }

  lemma AstrayAfterAnnounce(x: State, who: string, L: string, d: string)
    requires Sound(x) && MayHappen(x, Announce(who))
    ensures d in Astray(Next(x, Announce(who)), L) <==> Arises(x, Announce(who), L, d) || d in Astray(x, L)
  {
    StayingAfter(x, Announce(who));
    assert SoundSession(SessionOf(x.room, L));
    ShownAfterAnnounce(x, who, L, d);
  }

  lemma AstrayAfterDepart(x: State, who: string, L: string, d: string)
    requires Sound(x) && MayHappen(x, Depart(who))
    ensures d in Astray(Next(x, Depart(who)), L) <==> d in Astray(x, L) && who != L
  {
    StayingAfter(x, Depart(who));
  }

  /** The row arises at event k, and every later event lets it last. */
  ghost predicate AstrayFrom(events: seq<LeaveEvent>, L: string, d: string, k: nat) {
    && k < |events| && Arises(Reached(events[..k]), events[k], L, d)
    && forall m :: k < m < |events| ==> LastsAt(events, L, d, m)
  }

  ghost predicate LastsAt(events: seq<LeaveEvent>, L: string, d: string, m: nat)
    requires m < |events|
  {
    Lasts(Reached(events[..m]), events[m], L, d)
  }

  lemma AstrayFromStep(events: seq<LeaveEvent>, event: LeaveEvent, L: string, d: string, k: nat)
    requires k < |events|
    ensures AstrayFrom(events + [event], L, d, k)
      <==> AstrayFrom(events, L, d, k) && Lasts(Reached(events), event, L, d)
  {
    var all, n := events + [event], |events|;
    forall m | 0 <= m <= n ensures all[..m] == events[..m] {}
    assert events[..n] == events;
    assert LastsAt(all, L, d, n) <==> Lasts(Reached(events), event, L, d);
    forall m | 0 <= m < n ensures LastsAt(all, L, d, m) <==> LastsAt(events, L, d, m) {
      assert all[m] == events[m] && all[..m] == events[..m];
    }
  }

  lemma AstrayFromLast(events: seq<LeaveEvent>, event: LeaveEvent, L: string, d: string)
    ensures AstrayFrom(events + [event], L, d, |events|) <==> Arises(Reached(events), event, L, d)
  {
    assert (events + [event])[..|events|] == events;
  }

  /** Over every run with leaves, the channels coming up in any order: a row of somebody excluded, leaving or gone is
      shown to L if and only if some event made it arise and every event since let it last. */
  lemma {:induction false} AstrayExactly(events: seq<LeaveEvent>, L: string, d: string)
    requires Run(events)
    ensures d in Astray(Reached(events), L) <==> exists k: nat :: AstrayFrom(events, L, d, k)
  {
    if events != [] {
      var front, last := events[..|events| - 1], events[|events| - 1];
      var n := |front|;
      AstrayExactly(front, L, d);
      RunSound(front);
      AstrayAfter(Reached(front), last, L, d);
      assert events == front + [last];
      AstrayFromLast(front, last, L, d);
      forall k: nat | k < n ensures AstrayFrom(events, L, d, k)
        <==> AstrayFrom(front, L, d, k) && Lasts(Reached(front), last, L, d) {
        AstrayFromStep(front, last, L, d, k);
      }
      assert forall k: nat :: AstrayFrom(events, L, d, k) ==> k <= n;
      assert forall k: nat :: AstrayFrom(front, L, d, k) ==> k < n;
    }
  }

  // ---- In the fence's order -----------------------------------------------------------------------------------------

  /** The order the fence takes for granted: a channel becomes ready, and is proven, after the join. */
  ghost predicate InOrder(x: State, event: LeaveEvent) {
    && MayHappen(x, event)
    && (event.Other? ==> !event.event.ChannelUp?
                         && (event.event.DataReady? || event.event.Confirm? ==> event.event.who in Present(x.room)))
  }

  ghost predicate OrderedRun(events: seq<LeaveEvent>) {
    events == []
      || (OrderedRun(events[..|events| - 1]) && InOrder(Reached(events[..|events| - 1]), events[|events| - 1]))
  }

  /** Only participants have sessions. */
  ghost predicate AllJoined(x: State) {
    forall L :: L in x.room.sessions ==> x.room.sessions[L].joined
  }

  lemma {:induction false} OrderedRunJoined(events: seq<LeaveEvent>)
    requires OrderedRun(events)
    ensures Run(events) && Sound(Reached(events)) && AllJoined(Reached(events))
  {
    if events != [] {
      OrderedRunJoined(events[..|events| - 1]);
      StepJoined(Reached(events[..|events| - 1]), events[|events| - 1]);
    }
    RunSound(events);
  }

  lemma StepJoined(x: State, event: LeaveEvent)
    requires AllJoined(x) && InOrder(x, event)
    ensures AllJoined(Next(x, event))
  {
  }

  lemma {:induction false} OrderedPrefix(events: seq<LeaveEvent>, k: nat)
    requires OrderedRun(events) && k <= |events|
    ensures OrderedRun(events[..k])
  {
    if k < |events| {
      var front := events[..|events| - 1];
      OrderedPrefix(front, k);
      assert front[..k] == events[..k];
    } else {
      assert events[..k] == events;
    }
  }

  /** Event k relays a join row of d to L after d has announced its leave, and every later event lets it last. */
  ghost predicate ShownLate(events: seq<LeaveEvent>, L: string, d: string, k: nat) {
    && k < |events| && events[k].Other?
    && Shows(Reached(events[..k]).room, events[k].event, L, d) && d !in Staying(Reached(events[..k]))
    && forall m :: k < m < |events| ==> LastsAt(events, L, d, m)
  }

  lemma AstrayIsShownLate(events: seq<LeaveEvent>, L: string, d: string, k: nat)
    requires OrderedRun(events) && k < |events| && L != d
    ensures AstrayFrom(events, L, d, k) <==> ShownLate(events, L, d, k)
  {
    OrderedPrefix(events, k);
    OrderedRunJoined(events[..k]);
    var s := SessionOf(Reached(events[..k]).room, L);
    assert SoundSession(s) && (s.joined || s == IDLE);
    InsertsNew(events, k);
  }

  lemma {:induction false} InsertsNew(events: seq<LeaveEvent>, k: nat)
    requires OrderedRun(events) && k < |events|
    ensures InOrder(Reached(events[..k]), events[k])
  {
    OrderedPrefix(events, k + 1);
    assert events[..k + 1][..k] == events[..k];
  }

  /** In the fence's order a row of somebody excluded, leaving or gone is shown if and only if a backlog, an
      un-excluding entry or its own join push relayed it after its announcement, and every event since let it last. */
  lemma LateRowExactly(events: seq<LeaveEvent>, L: string, d: string)
    requires OrderedRun(events) && L != d
    ensures d in Astray(Reached(events), L) <==> exists k: nat :: ShownLate(events, L, d, k)
  {
    OrderedRunJoined(events);
    AstrayExactly(events, L, d);
    forall k: nat | k < |events| ensures AstrayFrom(events, L, d, k) <==> ShownLate(events, L, d, k) {
      AstrayIsShownLate(events, L, d, k);
    }
    assert forall k: nat :: AstrayFrom(events, L, d, k) ==> k < |events|;
  }

  // ---- Rows that stay -----------------------------------------------------------------------------------------------

  /** Shown, and not a participant. */
  function Ghosts(x: State, L: string): set<string> {
    SessionOf(x.room, L).shown - Present(x.room)
  }

  ghost predicate ClearsGhost(event: LeaveEvent, L: string, d: string) {
    event == Depart(L) || (event.Other? && event.event.Insert? && event.event.who == d)
  }

  /** No message takes away the row of somebody gone: it is shown until the source rejoins or the listener leaves. */
  lemma {:induction false} GhostStays(events: seq<LeaveEvent>, n: nat, L: string, d: string)
    requires Run(events) && n <= |events| && d in Ghosts(Reached(events[..n]), L)
    requires forall m :: n <= m < |events| ==> !ClearsGhost(events[m], L, d)
    ensures d in Ghosts(Reached(events), L)
  {
    if n < |events| {
      var front, last := events[..|events| - 1], events[|events| - 1];
      assert front[..n] == events[..n];
      GhostStays(front, n, L, d);
      RunSound(front);
      StayingAfter(Reached(front), last);
      AstrayAfter(Reached(front), last, L, d);
    } else {
      assert events[..n] == events;
    }
  }

  lemma Extended(events: seq<LeaveEvent>, event: LeaveEvent) returns (more: seq<LeaveEvent>)
    requires OrderedRun(events) && InOrder(Reached(events), event)
    ensures more == events + [event] && OrderedRun(more) && Reached(more) == Next(Reached(events), event)
  {
    more := events + [event];
    assert more[..|more| - 1] == events;
  }

  /** Whenever somebody has announced its leave, a listener that proves its channel before the removal is shown it
      again. */
  lemma LeaverShownAgain(events: seq<LeaveEvent>, L: string, d: string)
    requires OrderedRun(events) && d in Reached(events).leaving && L in Present(Reached(events).room)
    requires Hears(SessionOf(Reached(events).room, L), L, d)
    ensures var more := events + [Other(Confirm(L)), Depart(d)];
            OrderedRun(more) && d in Ghosts(Reached(more), L)
  {
    OrderedRunJoined(events);
    var one := Extended(events, Other(Confirm(L)));
    var two := Extended(one, Depart(d));
    assert two == events + [Other(Confirm(L)), Depart(d)];
    ShownAfter(Reached(events).room, Confirm(L), L, d);
  }

  /** Whenever a join's push is still to run, a leave that overtakes it leaves its row with every listener that hears
      it. */
  lemma LatePushShowsLeaver(events: seq<LeaveEvent>, L: string, d: string)
    requires OrderedRun(events) && d in Reached(events).owed && d in Staying(Reached(events))
    requires Hears(SessionOf(Reached(events).room, L), L, d)
    ensures var more := events + [Announce(d), Depart(d), Other(Push(d))];
            OrderedRun(more) && d in Ghosts(Reached(more), L)
  {
    OrderedRunJoined(events);
    var one := Extended(events, Announce(d));
    var two := Extended(one, Depart(d));
    var three := Extended(two, Other(Push(d)));
    assert three == events + [Announce(d), Depart(d), Other(Push(d))];
  }

  /** And the row of somebody gone outlasts an exclusion: when the source comes back it is a participant, excluded and
      shown. */
  lemma GhostOutlastsExclusion(events: seq<LeaveEvent>, L: string, d: string)
    requires OrderedRun(events) && d in Ghosts(Reached(events), L) && d !in Reached(events).owed && L != d
    requires |Present(Reached(events).room)| < MAX_MIX
    ensures var more := events + [Other(Apply(Add, Entry(L, [d]))), Other(Insert(d, {}))];
            var x := Reached(more);
            && OrderedRun(more) && d in Present(x.room)
            && d in SessionOf(x.room, L).excluded && d in SessionOf(x.room, L).shown
  {
    OrderedRunJoined(events);
    assert SoundSession(SessionOf(Reached(events).room, L));
    StayingAfter(Reached(events), Other(Apply(Add, Entry(L, [d]))));
    ShownAfter(Reached(events).room, Apply(Add, Entry(L, [d])), L, d);
    var one := Extended(events, Other(Apply(Add, Entry(L, [d]))));
    var two := Extended(one, Other(Insert(d, {})));
    assert two == events + [Other(Apply(Add, Entry(L, [d]))), Other(Insert(d, {}))];
    assert SourceSet([d]) == {d};
  }
}
