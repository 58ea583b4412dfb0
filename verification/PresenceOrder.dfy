/** Presence rows when a channel may come up before the join's insert: exactly which rows are then wrong, exactly which
    are missing, and for how long. */
module PresenceOrder {
  import opened VisBatch
  import opened Presence

  ghost predicate PossibleRun(events: seq<Event>) {
    events == [] || (PossibleRun(events[..|events| - 1]) && Possible(Run(events[..|events| - 1]), events[|events| - 1]))
  }

  /** What every order keeps: rows only over an open channel and only of people present, and no exclusions before the
      join. */
  ghost predicate Sound(room: Room) {
    room.pushed <= Present(room) && forall L :: SoundSession(room, L)
  }

  ghost predicate SoundSession(room: Room, L: string) {
    var s := SessionOf(room, L);
    && (!s.dcOpen ==> s.shown == {})
    && s.shown <= Present(room)
    && (!s.joined ==> s.excluded == {})
  }

  // ---- Rows that are wrong, rows that are missing -------------------------------------------------------------------

  /** Shown although excluded. */
  function Wrong(room: Room, L: string): set<string> {
    SessionOf(room, L).shown * SessionOf(room, L).excluded
  }

  /** Not shown although pushed, not excluded, and the listener has joined with its channel open. */
  function Missing(room: Room, L: string): set<string> {
    var s := SessionOf(room, L);
    if s.dcOpen && s.joined then room.pushed - {L} - s.excluded - s.shown else {}
  }

  /** The two faults a row can have. */
  datatype Fault = ShownExcluded | NotShown

  function Faulty(fault: Fault, room: Room, L: string): set<string> {
    if fault.ShownExcluded? then Wrong(room, L) else Missing(room, L)
  }

  predicate Joins(event: Event, L: string) {
    event.Insert? && event.who == L
  }

  /** At the listener's own insert, from what its early channel was shown: wrong is what the join now excludes of it,
      missing is whoever was pushed unseen and is not excluded. */
  predicate Arises(fault: Fault, room: Room, event: Event, L: string, d: string) {
    var s := SessionOf(room, L);
    && Joins(event, L)
    && if fault.ShownExcluded? then d in s.shown && d in event.replayed
       else s.dcOpen && d in room.pushed && d !in s.shown && d !in event.replayed
  }

  /** What no later event may be: for a wrong row an entry for the listener that leaves the source out of its set, for a
      missing one an entry that leaves it in, the source's push, or the proof of the listener's channel. */
  predicate Lasts(fault: Fault, room: Room, event: Event, L: string, d: string) {
    var excluded := d in SessionOf(Step(room, event), L).excluded;
    var entry := event.Apply? && event.entry.listener == L;
    if fault.ShownExcluded? then entry ==> excluded
    else !(entry && excluded) && event != Push(d) && event != Confirm(L)
  }

  /** A row's fault after one step, from its fault before. */
  predicate FaultAfter(fault: Fault, room: Room, event: Event, L: string, d: string) {
    || Arises(fault, room, event, L, d)
    || (!Joins(event, L) && d in Faulty(fault, room, L) && Lasts(fault, room, event, L, d))
  }

  lemma StepSound(room: Room, event: Event, L: string, fault: Fault, d: string)
    requires Sound(room) && Possible(room, event)
    ensures SoundSession(Step(room, event), L)
    ensures d in Faulty(fault, Step(room, event), L) <==> FaultAfter(fault, room, event, L, d)
  {
    assert SoundSession(room, L);
    StepPresent(room, event);
    match event {
      case Insert(who, replayed) => InsertEffect(room, who, replayed, L, fault, d);
      case Push(who) => PushEffect(room, who, L, fault, d);
      case Apply(op, entry) => ApplyEffect(room, op, entry, L, fault, d);
      case Confirm(who) => ConfirmEffect(room, who, L, fault, d);
      case DataReady(who) => ReadyEffect(room, who, L, fault, d);
      case ChannelUp(who) => UpEffect(room, who, L, fault, d);
    }
  }

  lemma ReadySession(room: Room, who: string, L: string)
    ensures var s, after := SessionOf(room, L), Step(room, DataReady(who));
            && after.pushed == room.pushed
            && SessionOf(after, L) == if L != who || s.dcOpen then s
                                      else s.(dcOpen := true, shown := s.shown + Backlog(room, L, s.excluded))
  {
  }

  lemma ReadyEffect(room: Room, who: string, L: string, fault: Fault, d: string)
    requires Sound(room) && SoundSession(room, L) && Possible(room, DataReady(who))
    ensures SoundSession(Step(room, DataReady(who)), L)
    ensures d in Faulty(fault, Step(room, DataReady(who)), L) <==> FaultAfter(fault, room, DataReady(who), L, d)
  {
    var after := Step(room, DataReady(who));
    StepPresent(room, DataReady(who));
    ReadySession(room, who, L);
    BacklogFaultless(fault, room, after, L, d);
  }

  /** A backlog to a channel that was closed leaves nothing missing and nothing wrong. */
  lemma BacklogFaultless(fault: Fault, room: Room, after: Room, L: string, d: string)
    requires room.pushed <= Present(room) && after.pushed == room.pushed && SoundSession(room, L)
    requires var s := SessionOf(room, L);
             || SessionOf(after, L) == s
             || (!s.dcOpen
                 && SessionOf(after, L) == s.(dcOpen := true, shown := s.shown + Backlog(room, L, s.excluded)))
    ensures d in Faulty(fault, after, L) <==> d in Faulty(fault, room, L)
  {
  }

  lemma UpEffect(room: Room, who: string, L: string, fault: Fault, d: string)
    requires Sound(room) && SoundSession(room, L) && Possible(room, ChannelUp(who))
    ensures SoundSession(Step(room, ChannelUp(who)), L)
    ensures d in Faulty(fault, Step(room, ChannelUp(who)), L) <==> FaultAfter(fault, room, ChannelUp(who), L, d)
  {
    StepPresent(room, ChannelUp(who));
  }

  lemma ConfirmEffect(room: Room, who: string, L: string, fault: Fault, d: string)
    requires Sound(room) && SoundSession(room, L) && Possible(room, Confirm(who))
    ensures SoundSession(Step(room, Confirm(who)), L)
    ensures d in Faulty(fault, Step(room, Confirm(who)), L) <==> FaultAfter(fault, room, Confirm(who), L, d)
  {
    StepPresent(room, Confirm(who));
  }

  lemma StepPresent(room: Room, event: Event)
    requires Sound(room) && Possible(room, event)
    ensures Present(Step(room, event)) == if event.Insert? then Present(room) + {event.who} else Present(room)
    ensures Step(room, event).pushed <= Present(Step(room, event))
  {
    PresentAfter(room, event);
    assert Step(room, event).pushed == if event.Push? then room.pushed + {event.who} else room.pushed;
  }

  lemma PresentAfter(room: Room, event: Event)
    ensures Present(Step(room, event)) == if event.Insert? then Present(room) + {event.who} else Present(room)
  {
  }

  lemma InsertEffect(room: Room, who: string, replayed: set<string>, L: string, fault: Fault, d: string)
    requires Sound(room) && SoundSession(room, L) && Possible(room, Insert(who, replayed))
    ensures SoundSession(Step(room, Insert(who, replayed)), L)
    ensures d in Faulty(fault, Step(room, Insert(who, replayed)), L)
      <==> FaultAfter(fault, room, Insert(who, replayed), L, d)
  {
    StepPresent(room, Insert(who, replayed));
  }

  lemma PushEffect(room: Room, who: string, L: string, fault: Fault, d: string)
    requires Sound(room) && SoundSession(room, L) && Possible(room, Push(who))
    ensures SoundSession(Step(room, Push(who)), L)
    ensures d in Faulty(fault, Step(room, Push(who)), L) <==> FaultAfter(fault, room, Push(who), L, d)
  {
    StepPresent(room, Push(who));
  }

  lemma ApplyEffect(room: Room, op: Op, entry: Entry, L: string, fault: Fault, d: string)
    requires Sound(room) && SoundSession(room, L) && Possible(room, Apply(op, entry))
    ensures SoundSession(Step(room, Apply(op, entry)), L)
    ensures d in Faulty(fault, Step(room, Apply(op, entry)), L) <==> FaultAfter(fault, room, Apply(op, entry), L, d)
  {
    StepPresent(room, Apply(op, entry));
  }

  lemma {:induction false} RunSound(events: seq<Event>)
    requires PossibleRun(events)
    ensures Sound(Run(events))
  {
    if events != [] {
      var front, last := events[..|events| - 1], events[|events| - 1];
      RunSound(front);
      StepPresent(Run(front), last);
      forall L ensures SoundSession(Run(events), L) {
        StepSound(Run(front), last, L, ShownExcluded, L);
      }
    }
  }

  // ---- Exactly when, over whole runs --------------------------------------------------------------------------------

  /** The fault arises at event k, and every later event lets it last. */
  ghost predicate FaultFrom(fault: Fault, events: seq<Event>, L: string, d: string, k: nat) {
    && k < |events| && Arises(fault, Run(events[..k]), events[k], L, d)
    && forall m :: k < m < |events| ==> LastsAt(fault, events, L, d, m)
  }

  ghost predicate LastsAt(fault: Fault, events: seq<Event>, L: string, d: string, m: nat)
    requires m < |events|
  {
    Lasts(fault, Run(events[..m]), events[m], L, d)
  }

  ghost predicate Stained(fault: Fault, events: seq<Event>, L: string, d: string) {
    exists k: nat :: FaultFrom(fault, events, L, d, k)
  }

  lemma FaultFromStep(fault: Fault, events: seq<Event>, event: Event, L: string, d: string, k: nat)
    requires k < |events|
    ensures FaultFrom(fault, events + [event], L, d, k)
      <==> FaultFrom(fault, events, L, d, k) && Lasts(fault, Run(events), event, L, d)
  {
    var all, n := events + [event], |events|;
    forall m | 0 <= m <= n ensures all[..m] == events[..m] {}
    assert events[..n] == events;
    assert LastsAt(fault, all, L, d, n) <==> Lasts(fault, Run(events), event, L, d);
    forall m | 0 <= m < n ensures LastsAt(fault, all, L, d, m) <==> LastsAt(fault, events, L, d, m) {
      assert all[m] == events[m] && all[..m] == events[..m];
    }
  }

  lemma FaultFromLast(fault: Fault, events: seq<Event>, event: Event, L: string, d: string)
    ensures FaultFrom(fault, events + [event], L, d, |events|) <==> Arises(fault, Run(events), event, L, d)
  {
    assert (events + [event])[..|events|] == events;
  }

  lemma StainedStep(fault: Fault, events: seq<Event>, event: Event, L: string, d: string)
    requires PossibleRun(events) && Possible(Run(events), event)
    requires d in Faulty(fault, Run(events), L) <==> Stained(fault, events, L, d)
    ensures Stained(fault, events + [event], L, d) <==> FaultAfter(fault, Run(events), event, L, d)
  {
    var all, n := events + [event], |events|;
    FaultFromLast(fault, events, event, L, d);
    forall k: nat | k < n ensures FaultFrom(fault, all, L, d, k)
      <==> FaultFrom(fault, events, L, d, k) && Lasts(fault, Run(events), event, L, d) {
      FaultFromStep(fault, events, event, L, d, k);
    }
    if Joins(event, L) {
      InsertOnce(events, L);
      forall k: nat | k < n ensures !FaultFrom(fault, all, L, d, k) {
        assert all[k] == events[k];
      }
    }
    assert forall k: nat :: FaultFrom(fault, all, L, d, k) ==> k <= n;
  }

  lemma PresentGrows(events: seq<Event>, event: Event, L: string)
    requires PossibleRun(events) && Possible(Run(events), event)
    ensures L in Present(Step(Run(events), event)) <==> L in Present(Run(events)) || (event.Insert? && event.who == L)
  {
    RunSound(events);
    StepPresent(Run(events), event);
  }

  /** A display that has not joined has no insert behind it. */
  lemma InsertOnce(events: seq<Event>, L: string)
    requires PossibleRun(events) && L !in Present(Run(events))
    ensures forall k :: 0 <= k < |events| && events[k].Insert? ==> events[k].who != L
  {
    forall k | 0 <= k < |events| && events[k].Insert? ensures events[k].who != L {
      if events[k].who == L {
        JoinedStays(events, L, k);
      }
    }
  }

  lemma {:induction false} JoinedStays(events: seq<Event>, L: string, k: nat)
    requires PossibleRun(events) && k < |events| && events[k].Insert? && events[k].who == L
    ensures L in Present(Run(events))
    decreases |events|
  {
    var front, last := events[..|events| - 1], events[|events| - 1];
    PresentGrows(front, last, L);
    if k < |front| {
      JoinedStays(front, L, k);
    }
  }

  lemma {:induction false} FaultExactly(fault: Fault, events: seq<Event>, L: string, d: string)
    requires PossibleRun(events)
    ensures d in Faulty(fault, Run(events), L) <==> Stained(fault, events, L, d)
  {
    if events != [] {
      var front, last := events[..|events| - 1], events[|events| - 1];
      FaultExactly(fault, front, L, d);
      assert events == front + [last];
      RunSound(front);
      StepSound(Run(front), last, L, fault, d);
      StainedStep(fault, front, last, L, d);
    }
  }

  /** Over every order of events: a row is wrong if and only if at some event the listener joined with the source
      replayed and already shown, and no entry for the listener has left the source out since. */
  lemma WrongExactly(events: seq<Event>, L: string, d: string)
    requires PossibleRun(events)
    ensures d in Wrong(Run(events), L) <==> exists k: nat :: FaultFrom(ShownExcluded, events, L, d, k)
  {
    FaultExactly(ShownExcluded, events, L, d);
  }

  /** And a row is missing if and only if at some event the listener joined, its channel open, with the source pushed
      before, not shown and not replayed, and no event since was the source's push, an entry that left the source in the
      listener's set, or the proof of its channel. */
  lemma MissingExactly(events: seq<Event>, L: string, d: string)
    requires PossibleRun(events)
    ensures d in Missing(Run(events), L) <==> exists k: nat :: FaultFrom(NotShown, events, L, d, k)
  {
    FaultExactly(NotShown, events, L, d);
  }

  /** The rows stay right exactly when, at the join, the channel has not been shown anything that is replayed. */
  lemma InsertRightExactly(events: seq<Event>, L: string, replayed: set<string>)
    requires PossibleRun(events) && Possible(Run(events), Insert(L, replayed))
    ensures Wrong(Step(Run(events), Insert(L, replayed)), L) == {} <==> SessionOf(Run(events), L).shown !! replayed
    ensures !SessionOf(Run(events), L).dcOpen ==> SessionOf(Run(events), L).shown == {}
  {
    RunSound(events);
    assert SoundSession(Run(events), L);
    forall d ensures d in Wrong(Step(Run(events), Insert(L, replayed)), L)
      <==> d in SessionOf(Run(events), L).shown && d in replayed {
      StepSound(Run(events), Insert(L, replayed), L, ShownExcluded, d);
    }
  }

  /** The run the fence's argument leaves out: a channel ready between the session's room pointer and its insert shows a
      source the join then excludes. Taking the source out of the set and putting it back is what removes the row. */
  lemma EarlyReadinessShowsExcluded()
    ensures var events := [Insert("a", {}), DataReady("b"), Insert("b", {"a"})];
            && PossibleRun(events) && !AdmissibleRun(events) && Wrong(Run(events), "b") == {"a"}
            && var later := events + [Apply(Remove, Entry("b", ["a"])), Apply(Add, Entry("b", ["a"]))];
               Wrong(Run(later), "b") == {} && "a" in SessionOf(Run(later), "b").excluded
  {
    var a, b, c := Insert("a", {}), DataReady("b"), Insert("b", {"a"});
    var d, e := Apply(Remove, Entry("b", ["a"])), Apply(Add, Entry("b", ["a"]));
    var one, two := ReadyEarly();
    var three := ShownEarly(one, two);
    assert two == [a, b] && three == [a, b, c];
    assert !Admissible(Run(one), b) && !AdmissibleRun(two) && !AdmissibleRun(three);
    Recovered(three, d, e);
  }

  lemma ReadyEarly() returns (one: seq<Event>, two: seq<Event>)
    ensures one == [Insert("a", {})] && Present(Run(one)) == {"a"} && "b" !in Run(one).sessions
    ensures two == one + [DataReady("b")] && PossibleRun(two) && Run(two) == Step(Run(one), DataReady("b"))
    ensures two[..1] == one && PossibleRun(one)
  {
    var none: seq<Event> := [];
    assert Present(EMPTY) == {};
    one := RunTaken(none, Insert("a", {}));
    assert Present(Run(one)) == {"a"};
    two := RunTaken(one, DataReady("b"));
  }

  lemma ShownEarly(one: seq<Event>, two: seq<Event>) returns (three: seq<Event>)
    requires PossibleRun(one) && Present(Run(one)) == {"a"} && "b" !in Run(one).sessions
    requires two == one + [DataReady("b")] && PossibleRun(two) && Run(two) == Step(Run(one), DataReady("b"))
    ensures three == two + [Insert("b", {"a"})] && three[..|three| - 1] == two && PossibleRun(three)
    ensures Present(Run(three)) == {"a", "b"} && Wrong(Run(three), "b") == {"a"}
        && Run(three).sessions["b"].excluded == {"a"}
  {
    assert Run(two).sessions["b"].shown == {"a"} && Present(Run(two)) == {"a"};
    three := RunTaken(two, Insert("b", {"a"}));
  }

  lemma RunTaken(events: seq<Event>, event: Event) returns (more: seq<Event>)
    requires PossibleRun(events) && Possible(Run(events), event)
    ensures more == events + [event] && more[..|more| - 1] == events && PossibleRun(more)
        && Run(more) == Step(Run(events), event)
  {
    more := events + [event];
    assert more[..|more| - 1] == events;
  }

  lemma Recovered(three: seq<Event>, d: Event, e: Event)
    requires PossibleRun(three) && "b" in Present(Run(three)) && "a" in Present(Run(three))
    requires Run(three).sessions["b"].excluded == {"a"} && Wrong(Run(three), "b") == {"a"}
    requires d == Apply(Remove, Entry("b", ["a"])) && e == Apply(Add, Entry("b", ["a"]))
    ensures var later := three + [d, e]; Wrong(Run(later), "b") == {} && "a" in SessionOf(Run(later), "b").excluded
  {
    var four := RunTaken(three, d);
    RunSound(three);
    RunSound(four);
    StepPresent(Run(three), d);
    assert Run(four).sessions["b"].excluded == {};
    var five := RunTaken(four, e);
    assert five == three + [d, e];
    forall x ensures x !in Wrong(Run(five), "b") {
      StepSound(Run(four), e, "b", ShownExcluded, x);
    }
    assert SourceSet(["a"]) == {"a"};
  }
}
