/** What every interleaving of joins, leaves, sweeps and destroys keeps. */
module LifecycleTheorems {
  import opened Common
  import opened Lifecycle

  lemma CreatedInv(cfg: Config, now: int)
    requires now > 0
    ensures Inv(cfg, Created(cfg, now))
  {
  }

  lemma RefKeeps(cfg: Config, st: State, step: Step)
    requires Inv(cfg, st) && Enabled(cfg, st, step) && (step.JoinRef?)
    ensures Inv(cfg, Next(cfg, st, step))
  {
  }

  /** A join that stops before its pointer is set gives its one reference back. */
  function LetGo(st: State): State {
    st.(refs := st.refs - 1, joiner := NoJoin)
  }

  lemma LetGoCounts(st: State)
    requires Counted(st) && DroppedOnce(st) && (st.joiner.HasRef? || st.joiner.Checked?)
    ensures Counted(LetGo(st)) && DroppedOnce(LetGo(st))
  {
    assert InFlight(st.joiner) == {st.joiner.sid} && |InFlight(st.joiner)| == 1;
    assert InFlight(NoJoin) == {} && |InFlight(NoJoin)| == 0;
  }

  lemma LetGoKeeps(cfg: Config, st: State)
    requires Inv(cfg, st) && (st.joiner.HasRef? || st.joiner.Checked?)
    ensures Inv(cfg, LetGo(st))
  {
    LetGoCounts(st);
    assert Arriving(LetGo(st).joiner) == Arriving(st.joiner);
  }

  lemma CheckKeeps(cfg: Config, st: State)
    requires Inv(cfg, st) && Enabled(cfg, st, JoinCheck)
    ensures Inv(cfg, Next(cfg, st, JoinCheck))
  {
    if |st.participants| >= cfg.roomSize {
      LetGoKeeps(cfg, st);
    } else {
      assert InFlight(Checked(st.joiner.sid)) == InFlight(st.joiner);
    }
  }

  lemma PointCounts(cfg: Config, st: State, step: Step)
    requires Counted(st) && DroppedOnce(st) && Separate(st) && Enabled(cfg, st, step) && (step.JoinPoint?)
    ensures var next := Next(cfg, st, step); Counted(next) && DroppedOnce(next)
  {
    MultisetPlus(st.pointing, st.joiner.sid);
  }

  lemma PointMembers(cfg: Config, st: State, step: Step)
    requires Membership(st) && Separate(st) && Enabled(cfg, st, step) && (step.JoinPoint?)
    ensures var next := Next(cfg, st, step); Membership(next) && Separate(next)
  {
    var next := Next(cfg, st, step);
    assert next.pointing - Arriving(next.joiner) == st.pointing - Arriving(st.joiner);
  }

  lemma PointKeeps(cfg: Config, st: State, step: Step)
    requires Inv(cfg, st) && Enabled(cfg, st, step) && (step.JoinPoint?)
    ensures Inv(cfg, Next(cfg, st, step))
  {
    PointCounts(cfg, st, step);
    PointMembers(cfg, st, step);
  }

  lemma LookKeeps(cfg: Config, st: State, step: Step)
    requires Inv(cfg, st) && Enabled(cfg, st, step) && (step.JoinLook?)
    ensures Inv(cfg, Next(cfg, st, step))
  {
    var next := Next(cfg, st, step);
    assert Arriving(next.joiner) == Arriving(st.joiner) && InFlight(next.joiner) == InFlight(st.joiner);
  }

  lemma InsertCounts(cfg: Config, st: State, step: Step)
    requires Counted(st) && DroppedOnce(st) && Separate(st) && Enabled(cfg, st, step) && (step.JoinInsert?)
    ensures var next := Next(cfg, st, step); Counted(next) && DroppedOnce(next)
  {
  }

  lemma InsertMembers(cfg: Config, st: State, step: Step)
    requires Membership(st) && Separate(st) && Enabled(cfg, st, step) && (step.JoinInsert?) && !st.teardown.Evicting?
        && st.table
    ensures var next := Next(cfg, st, step); Membership(next) && Separate(next)
  {
    var next := Next(cfg, st, step);
    assert next.pointing - Arriving(next.joiner) == (st.pointing - Arriving(st.joiner)) + {st.joiner.sid};
  }

  lemma InsertKeeps(cfg: Config, st: State, step: Step)
    requires Inv(cfg, st) && Enabled(cfg, st, step) && (step.JoinInsert?)
    ensures Inv(cfg, Next(cfg, st, step))
  {
    InsertCounts(cfg, st, step);
    InsertMembers(cfg, st, step);
    assert |st.participants + {st.joiner.sid}| == |st.participants| + 1;
  }

  lemma UnpointCounts(cfg: Config, st: State)
    requires Counted(st) && DroppedOnce(st) && Separate(st) && Enabled(cfg, st, JoinUnpoint)
    ensures var next := Next(cfg, st, JoinUnpoint); Counted(next) && DroppedOnce(next)
  {
    var s := st.joiner.sid;
    MultisetPlus(st.pointing - {s}, s);
    assert st.pointing - {s} + {s} == st.pointing;
    assert |InFlight(Undoing(s))| == 1 && InFlight(st.joiner) == {};
  }

  lemma UnpointKeeps(cfg: Config, st: State)
    requires Inv(cfg, st) && Enabled(cfg, st, JoinUnpoint)
    ensures Inv(cfg, Next(cfg, st, JoinUnpoint))
  {
    UnpointCounts(cfg, st);
    var next := Next(cfg, st, JoinUnpoint);
    assert next.pointing - Arriving(next.joiner) == st.pointing - Arriving(st.joiner);
  }

  lemma UndoneKeeps(cfg: Config, st: State, step: Step)
    requires Inv(cfg, st) && Enabled(cfg, st, step) && (step.JoinUndone?)
    ensures Inv(cfg, Next(cfg, st, step))
  {
  }

  lemma FlipCounts(cfg: Config, st: State, s: Sid)
    requires Counted(st) && DroppedOnce(st) && Separate(st) && Enabled(cfg, st, LeaveFlip(s))
    ensures var next := Next(cfg, st, LeaveFlip(s)); Counted(next) && DroppedOnce(next)
  {
    MultisetPlus(st.pointing - {s}, s);
    MultisetPlus(st.flipped, s);
    assert st.pointing - {s} + {s} == st.pointing;
  }

  lemma FlipMembers(cfg: Config, st: State, s: Sid)
    requires Membership(st) && Separate(st) && Enabled(cfg, st, LeaveFlip(s))
    ensures var next := Next(cfg, st, LeaveFlip(s)); Membership(next) && Separate(next)
  {
    var next := Next(cfg, st, LeaveFlip(s));
    assert s !in Arriving(st.joiner);
    assert next.pointing - Arriving(next.joiner) == st.pointing - Arriving(st.joiner) - {s};
    assert s in st.pointing - Arriving(st.joiner);
    if st.teardown.Idle? || st.teardown.Marked? {
      assert next.participants == (next.pointing - Arriving(next.joiner)) + next.flipped;
    }
  }

  lemma FlipKeeps(cfg: Config, st: State, step: Step)
    requires Inv(cfg, st) && Enabled(cfg, st, step) && step.LeaveFlip?
    ensures Inv(cfg, Next(cfg, st, step))
  {
    FlipCounts(cfg, st, step.sid);
    FlipMembers(cfg, st, step.sid);
  }

  lemma RemoveCounts(cfg: Config, st: State, s: Sid, now: int)
    requires Counted(st) && DroppedOnce(st) && Separate(st) && Enabled(cfg, st, LeaveRemove(s, now))
    ensures var next := Next(cfg, st, LeaveRemove(s, now)); Counted(next) && DroppedOnce(next)
  {
    MultisetPlus(st.flipped - {s}, s);
    MultisetPlus(st.removed, s);
    assert st.flipped - {s} + {s} == st.flipped;
  }

  lemma RemoveMembers(cfg: Config, st: State, s: Sid, now: int)
    requires Membership(st) && Separate(st) && Enabled(cfg, st, LeaveRemove(s, now))
    ensures var next := Next(cfg, st, LeaveRemove(s, now)); Membership(next) && Separate(next)
  {
    var next := Next(cfg, st, LeaveRemove(s, now));
    assert s !in st.pointing;
    if st.teardown.Idle? || st.teardown.Marked? {
      assert next.participants == (next.pointing - Arriving(next.joiner)) + next.flipped;
    }
  }

  lemma RemoveKeeps(cfg: Config, st: State, step: Step)
    requires Inv(cfg, st) && Enabled(cfg, st, step) && step.LeaveRemove?
    ensures Inv(cfg, Next(cfg, st, step))
  {
    RemoveCounts(cfg, st, step.sid, step.now);
    RemoveMembers(cfg, st, step.sid, step.now);
    SubsetSize(st.participants - {step.sid}, st.participants);
    if st.teardown.Idle? {
      assert step.sid in st.participants;
    }
  }

  lemma DropCounts(cfg: Config, st: State, s: Sid)
    requires Counted(st) && DroppedOnce(st) && Enabled(cfg, st, LeaveDrop(s))
    ensures var next := Next(cfg, st, LeaveDrop(s)); Counted(next) && DroppedOnce(next)
  {
    MultisetPlus(st.removed - {s}, s);
    assert st.removed - {s} + {s} == st.removed;
  }

  lemma DropKeeps(cfg: Config, st: State, s: Sid)
    requires Inv(cfg, st) && Enabled(cfg, st, LeaveDrop(s))
    ensures Inv(cfg, Next(cfg, st, LeaveDrop(s)))
  {
    DropCounts(cfg, st, s);
  }

  lemma TeardownKeeps(cfg: Config, st: State, step: Step)
    requires Inv(cfg, st) && Enabled(cfg, st, step)
        && (step.DestroyMark? || step.SweepMark? || step.Rearm? || step.TickerEnd? || step.EvictBegin?
        || step.EvictEnd? || step.CallerDrop?)
    ensures Inv(cfg, Next(cfg, st, step))
  {
  }

  lemma EvictCounts(cfg: Config, st: State, s: Sid)
    requires Counted(st) && DroppedOnce(st) && Separate(st) && Enabled(cfg, st, EvictOne(s))
    ensures var next := Next(cfg, st, EvictOne(s)); Counted(next) && DroppedOnce(next)
  {
    if s in st.pointing {
      MultisetPlus(st.pointing - {s}, s);
      assert st.pointing - {s} + {s} == st.pointing;
    }
  }

  lemma EvictMembers(cfg: Config, st: State, s: Sid)
    requires Membership(st) && Separate(st) && Enabled(cfg, st, EvictOne(s))
    ensures var next := Next(cfg, st, EvictOne(s)); Membership(next) && Separate(next)
  {
    assert s in st.participants && s !in Arriving(st.joiner);
  }

  lemma EvictKeeps(cfg: Config, st: State, step: Step)
    requires Inv(cfg, st) && Enabled(cfg, st, step) && (step.EvictOne?)
    ensures Inv(cfg, Next(cfg, st, step))
  {
    EvictCounts(cfg, st, step.sid);
    EvictMembers(cfg, st, step.sid);
  }

  lemma BorrowKeeps(cfg: Config, st: State, step: Step)
    requires Inv(cfg, st) && Enabled(cfg, st, step) && (step.BorrowById? || step.BorrowBySession? || step.Return?)
    ensures Inv(cfg, Next(cfg, st, step))
  {
  }

  lemma MultisetPlus(a: set<Sid>, s: Sid)
    requires s !in a
    ensures multiset(a + {s}) == multiset(a) + multiset{s} && |a + {s}| == |a| + 1
  {
  }

  lemma StepKeeps(cfg: Config, st: State, step: Step)
    requires Inv(cfg, st) && Enabled(cfg, st, step)
    ensures Inv(cfg, Next(cfg, st, step))
  {
    match step {
      case JoinRef(_) => RefKeeps(cfg, st, step);
      case JoinRefuse => LetGoKeeps(cfg, st);
      case JoinCheck => CheckKeeps(cfg, st);
      case JoinGiveUp => LetGoKeeps(cfg, st);
      case JoinPoint => PointKeeps(cfg, st, step);
      case JoinLook => LookKeeps(cfg, st, step);
      case JoinInsert => InsertKeeps(cfg, st, step);
      case JoinUnpoint => UnpointKeeps(cfg, st);
      case JoinUndone => UndoneKeeps(cfg, st, step);
      case LeaveFlip(_) => FlipKeeps(cfg, st, step);
      case LeaveRemove(_, _) => RemoveKeeps(cfg, st, step);
      case LeaveDrop(s) => DropKeeps(cfg, st, s);
      case BorrowById => BorrowKeeps(cfg, st, step);
      case BorrowBySession(_) => BorrowKeeps(cfg, st, step);
      case Return => BorrowKeeps(cfg, st, step);
      case EvictOne(_) => EvictKeeps(cfg, st, step);
      case _ => TeardownKeeps(cfg, st, step);
    }
  }

  lemma {:induction false} RunKeeps(cfg: Config, states: seq<State>, steps: seq<Step>, k: nat)
    requires IsRun(cfg, states, steps) && k <= |steps|
    ensures Inv(cfg, states[k])
  {
    if k == 0 {
      var now :| now > 0 && states[0] == Created(cfg, now);
      CreatedInv(cfg, now);
    } else {
      RunKeeps(cfg, states, steps, k - 1);
      StepKeeps(cfg, states[k - 1], steps[k - 1]);
    }
  }

  /** Nobody holds the room any more. */
  predicate Unowned(st: State) {
    && !st.table && !st.ticker && !st.teardown.Gone? && st.borrowers == 0
    && InFlight(st.joiner) == {} && st.pointing == {} && st.flipped == {} && st.removed == {}
  }

  lemma EmptyMeansZero(s: set<Sid>)
    ensures |s| == 0 <==> s == {}
  {
  }

  /** At every point of every interleaving the count is the number of owners, so the room is freed exactly when its last
      owner lets go, never before; and every membership ever taken is still owned or was dropped exactly once. */
  lemma CountIsOwners(cfg: Config, states: seq<State>, steps: seq<Step>, k: nat)
    requires IsRun(cfg, states, steps) && k <= |steps|
    ensures var st := states[k];
            && st.refs == One(st.table) + One(st.ticker) + One(st.teardown.Gone?) + st.borrowers
                          + |InFlight(st.joiner)| + |st.pointing| + |st.flipped| + |st.removed|
            && (st.refs == 0 <==> Unowned(st))
            && st.dropped <= st.taken
            && (forall s :: st.taken[s] - st.dropped[s]
                  == One(s in st.pointing || s in st.flipped || s in st.removed || st.joiner == Undoing(s)))
  {
    RunKeeps(cfg, states, steps, k);
    var st := states[k];
    EmptyMeansZero(st.pointing);
    EmptyMeansZero(st.flipped);
    EmptyMeansZero(st.removed);
    EmptyMeansZero(InFlight(st.joiner));
    forall s ensures st.taken[s] - st.dropped[s]
                     == One(s in st.pointing || s in st.flipped || s in st.removed || st.joiner == Undoing(s)) {
      assert st.joiner == Undoing(s) ==> s in InFlight(st.joiner);
    }
  }

  /** The room never holds more than its size, although the capacity check and the insert are separate critical
      sections. */
  lemma NeverOverCapacity(cfg: Config, states: seq<State>, steps: seq<Step>, k: nat)
    requires IsRun(cfg, states, steps) && k <= |steps|
    ensures |states[k].participants| <= cfg.roomSize
  {
    RunKeeps(cfg, states, steps, k);
  }

  /** A live room that is not permanent has its grace clock running exactly while it is empty; a permanent one never. */
  lemma GraceClockExact(cfg: Config, states: seq<State>, steps: seq<Step>, k: nat)
    requires IsRun(cfg, states, steps) && k <= |steps| && !Destroyed(states[k])
    ensures states[k].emptySince != 0 <==> !cfg.permanent && states[k].participants == {}
  {
    RunKeeps(cfg, states, steps, k);
  }

  /** When somebody last left or the room was asked for again; its creation where neither happened. */
  function ClockOf(born: int, steps: seq<Step>): int {
    if steps == [] then born
    else match steps[|steps| - 1]
      case LeaveRemove(_, now) => now
      case Rearm(now) => now
      case _ => ClockOf(born, steps[..|steps| - 1])
  }

  predicate ClockRight(st: State, born: int, steps: seq<Step>) {
    st.participants == {} ==> st.emptySince == ClockOf(born, steps)
  }

  lemma ClockStep(cfg: Config, st: State, step: Step, born: int, steps: seq<Step>)
    requires GraceClock(cfg, st) && Enabled(cfg, st, step) && !Destroyed(Next(cfg, st, step)) && !cfg.permanent
    requires ClockRight(st, born, steps)
    ensures ClockRight(Next(cfg, st, step), born, steps + [step])
  {
    assert (steps + [step])[..|steps|] == steps;
  }

  lemma ClockMoves(cfg: Config, states: seq<State>, steps: seq<Step>, k: nat, born: int)
    requires IsRun(cfg, states, steps) && k < |steps| && !Destroyed(states[k + 1]) && !cfg.permanent
    requires ClockRight(states[k], born, steps[..k])
    ensures ClockRight(states[k + 1], born, steps[..k + 1])
  {
    StepOfRun(cfg, states, steps, k);
    ClockStep(cfg, states[k], steps[k], born, steps[..k]);
    assert steps[..k + 1] == steps[..k] + [steps[k]];
  }

  lemma LiveBefore(cfg: Config, states: seq<State>, steps: seq<Step>, k: nat)
    requires IsRun(cfg, states, steps) && k < |steps| && !Destroyed(states[k + 1])
    ensures !Destroyed(states[k])
  {
    StepOfRun(cfg, states, steps, k);
  }

  /** The grace clock of a live room that is empty and not permanent shows when it was last left or asked for. */
  lemma {:induction false} GraceClockValue(cfg: Config, states: seq<State>, steps: seq<Step>, k: nat, born: int)
    requires IsRun(cfg, states, steps) && k <= |steps| && !Destroyed(states[k]) && !cfg.permanent
    requires states[0] == Created(cfg, born)
    ensures ClockRight(states[k], born, steps[..k])
  {
    if k > 0 {
      LiveBefore(cfg, states, steps, k - 1);
      GraceClockValue(cfg, states, steps, k - 1, born);
      ClockMoves(cfg, states, steps, k - 1, born);
    }
  }

  lemma StepOfRun(cfg: Config, states: seq<State>, steps: seq<Step>, k: nat)
    requires IsRun(cfg, states, steps) && k < |steps|
    ensures Enabled(cfg, states[k], steps[k]) && states[k + 1] == Next(cfg, states[k], steps[k])
    ensures GraceClock(cfg, states[k])
  {
    RunKeeps(cfg, states, steps, k);
  }

  /** The sweep takes a room no sooner than its grace after it was last left or asked for. */
  lemma SweptAfterGrace(cfg: Config, states: seq<State>, steps: seq<Step>, k: nat, born: int)
    requires IsRun(cfg, states, steps) && k < |steps| && steps[k].SweepMark? && states[0] == Created(cfg, born)
    ensures !cfg.permanent && steps[k].now - ClockOf(born, steps[..k]) >= cfg.grace
  {
    assert Enabled(cfg, states[k], steps[k]);
    GraceClockValue(cfg, states, steps, k, born);
  }

  /** Once out of the table the room holds nobody, and nobody is ever admitted to it again. */
  lemma TornDownStaysEmpty(cfg: Config, states: seq<State>, steps: seq<Step>, k: nat)
    requires IsRun(cfg, states, steps) && k <= |steps| && !states[k].table
    ensures states[k].participants == {} && states[k].pointing <= Arriving(states[k].joiner)
    ensures k < |steps| ==> !steps[k].JoinInsert? && !steps[k].JoinRef?
  {
    RunKeeps(cfg, states, steps, k);
    assert states[k].pointing - Arriving(states[k].joiner) == {};
  }

  lemma StepAfterMark(cfg: Config, st: State, step: Step)
    requires Destroyed(st) && Enabled(cfg, st, step)
    ensures var next := Next(cfg, st, step);
            Destroyed(next) && (next.joiner.Inserting? ==> next.joiner == st.joiner && !step.JoinInsert?)
  {
  }

  /** A join that stands at its insert as the flag is set stays there, or has inserted; no other ever gets there. */
  lemma {:induction false} OnlyThatInsert(cfg: Config, states: seq<State>, steps: seq<Step>, i: nat, j: nat)
    requires IsRun(cfg, states, steps) && i <= j <= |steps| && Destroyed(states[i])
    ensures Destroyed(states[j])
    ensures states[j].joiner.Inserting? ==>
              states[i].joiner == states[j].joiner && forall k :: i <= k < j ==> !steps[k].JoinInsert?
    decreases j
  {
    if i < j {
      OnlyThatInsert(cfg, states, steps, i, j - 1);
      assert Enabled(cfg, states[j - 1], steps[j - 1]) && states[j] == Next(cfg, states[j - 1], steps[j - 1]);
      StepAfterMark(cfg, states[j - 1], steps[j - 1]);
    }
  }

  /** The sweep's decision is final: it takes an empty room past its grace, and no join that was on its way gets in
      later. */
  lemma NoInsertAfterSweep(cfg: Config, states: seq<State>, steps: seq<Step>, i: nat, j: nat)
    requires IsRun(cfg, states, steps) && i < j < |steps| && steps[i].SweepMark?
    ensures states[i].participants == {} && steps[i].now - states[i].emptySince >= cfg.grace
    ensures !steps[j].JoinInsert?
  {
    assert Enabled(cfg, states[i], steps[i]);
    assert states[i + 1] == Next(cfg, states[i], steps[i]);
    OnlyThatInsert(cfg, states, steps, i + 1, j);
    assert Enabled(cfg, states[j], steps[j]);
  }

  // ---- The explicit destroy -----------------------------------------------------------------------------------------

  lemma RunGrows(cfg: Config, states: seq<State>, steps: seq<Step>, step: Step)
    requires IsRun(cfg, states, steps) && Enabled(cfg, states[|steps|], step)
    ensures IsRun(cfg, states + [Next(cfg, states[|steps|], step)], steps + [step])
  {
    var more, later := states + [Next(cfg, states[|steps|], step)], steps + [step];
    assert more[0] == states[0];
    forall i | 0 <= i < |later| ensures Enabled(cfg, more[i], later[i]) && more[i + 1] == Next(cfg, more[i], later[i]) {
      if i < |steps| {
        assert more[i] == states[i] && more[i + 1] == states[i + 1] && later[i] == steps[i];
      }
    }
  }

  /** Whoever inserts after the explicit destroy has set its flag held room->mutex at that moment, past its look at the
      flag; so there is at most one. */
  lemma InsertAfterDestroyWasUnderWay(cfg: Config, states: seq<State>, steps: seq<Step>, i: nat, j: nat)
    requires IsRun(cfg, states, steps) && i < j < |steps| && steps[i].DestroyMark? && steps[j].JoinInsert?
    ensures states[i].joiner.Inserting? && states[j].joiner == states[i].joiner
    ensures forall k :: i < k < j ==> !steps[k].JoinInsert?
  {
    assert Enabled(cfg, states[j], steps[j]);
    assert states[i + 1] == Next(cfg, states[i], steps[i]);
    OnlyThatInsert(cfg, states, steps, i + 1, j);
  }

  /** The run goes on with `later` and some join inserts in it. */
  ghost predicate InsertsLater(cfg: Config, states: seq<State>, steps: seq<Step>, more: seq<State>, later: seq<Step>) {
    IsRun(cfg, states + more, steps + later) && exists j :: 0 <= j < |later| && later[j].JoinInsert?
  }

  /** The join's check of the flag is exact for the explicit destroy unless a join stands between its look and its
      insert: a run whose last step set the flag can go on with an insert if and only if that is so. */
  lemma DestroyOvertakenExactly(cfg: Config, states: seq<State>, steps: seq<Step>)
    requires IsRun(cfg, states, steps) && steps != [] && steps[|steps| - 1].DestroyMark?
    ensures (exists more: seq<State>, later: seq<Step> :: InsertsLater(cfg, states, steps, more, later)) <==>
        states[|steps| - 1].joiner.Inserting?
  {
    var last := |steps| - 1;
    assert Enabled(cfg, states[last], steps[last]) && states[last + 1] == Next(cfg, states[last], steps[last]);
    if more: seq<State>, later: seq<Step> :| InsertsLater(cfg, states, steps, more, later) {
      var j :| 0 <= j < |later| && later[j].JoinInsert?;
      assert (steps + later)[last] == steps[last] && (steps + later)[|steps| + j] == later[j];
      assert (states + more)[last] == states[last];
      InsertAfterDestroyWasUnderWay(cfg, states + more, steps + later, last, |steps| + j);
    }
    if states[last].joiner.Inserting? {
      var after := states[|steps|];
      RunGrows(cfg, states, steps, JoinInsert);
      assert InsertsLater(cfg, states, steps, [Next(cfg, after, JoinInsert)], [JoinInsert]) by {
        assert [JoinInsert][0].JoinInsert?;
      }
    }
  }

  /** Such a run exists in every room with a place; the eviction that follows finds the session among the participants.
      */
  lemma InsertMayFollowDestroy(cfg: Config, now: int, sid: Sid) returns (states: seq<State>, steps: seq<Step>)
    requires cfg.roomSize > 0 && now > 0
    ensures IsRun(cfg, states, steps) && |steps| == 6 && steps[4].DestroyMark? && steps[5].JoinInsert?
    ensures sid in states[6].participants && Destroyed(states[6])
  {
    states, steps := [Created(cfg, now)], [];
    states, steps := Take(cfg, states, steps, JoinRef(sid));
    states, steps := Take(cfg, states, steps, JoinCheck);
    states, steps := Take(cfg, states, steps, JoinPoint);
    states, steps := Take(cfg, states, steps, JoinLook);
    states, steps := Take(cfg, states, steps, DestroyMark);
    states, steps := Take(cfg, states, steps, JoinInsert);
  }

  lemma Take(cfg: Config, states: seq<State>, steps: seq<Step>, step: Step) returns (more: seq<State>, later: seq<Step>)
    requires IsRun(cfg, states, steps) && Enabled(cfg, states[|steps|], step)
    ensures IsRun(cfg, more, later) && later == steps + [step] && more == states + [Next(cfg, states[|steps|], step)]
  {
    RunGrows(cfg, states, steps, step);
    more, later := states + [Next(cfg, states[|steps|], step)], steps + [step];
  }

  // ---- Who gets in --------------------------------------------------------------------------------------------------

  /** A join that meets nobody else comes to its capacity check. */
  ghost predicate ComesToCheck(cfg: Config, st: State, sid: Sid, checked: State) {
    && Enabled(cfg, st, JoinRef(sid))
    && var one := Next(cfg, st, JoinRef(sid)); Enabled(cfg, one, JoinCheck) && checked == Next(cfg, one, JoinCheck)
  }

  /** From there it points, looks at the flag and inserts. */
  ghost predicate Inserts(cfg: Config, checked: State, end: State) {
    && Enabled(cfg, checked, JoinPoint)
    && var three := Next(cfg, checked, JoinPoint);
       && Enabled(cfg, three, JoinLook)
       && var four := Next(cfg, three, JoinLook); Enabled(cfg, four, JoinInsert) && end == Next(cfg, four, JoinInsert)
  }

  /** In a live room at rest a join comes to its check, and goes on to its insert if and only if the room is below its
      size; it then adds that session and one owner and stops the grace clock. At its size the check leaves the room as
      it was. */
  lemma JoinAdmittedExactly(cfg: Config, st: State, sid: Sid) returns (checked: State)
    requires Inv(cfg, st) && st.teardown.Idle? && st.joiner.NoJoin?
    requires sid !in st.pointing && sid !in st.flipped && sid !in st.removed
    ensures ComesToCheck(cfg, st, sid, checked)
    ensures (exists end :: Inserts(cfg, checked, end)) <==> |st.participants| < cfg.roomSize
    ensures forall end :: Inserts(cfg, checked, end) ==>
              && end.participants == st.participants + {sid} && end.pointing == st.pointing + {sid}
              && end.refs == st.refs + 1 && end.emptySince == 0 && end.joiner.NoJoin?
    ensures |st.participants| >= cfg.roomSize ==> checked == st
  {
    checked := Checks(cfg, st, sid);
    if |st.participants| < cfg.roomSize {
      Proceeds(cfg, checked);
    }
  }

  lemma Checks(cfg: Config, st: State, sid: Sid) returns (checked: State)
    requires st.table && st.teardown.Idle? && st.joiner.NoJoin?
    requires sid !in st.pointing && sid !in st.flipped && sid !in st.removed
    ensures ComesToCheck(cfg, st, sid, checked)
    ensures checked == if |st.participants| >= cfg.roomSize then st
                       else st.(refs := st.refs + 1, joiner := Checked(sid))
  {
    checked := Next(cfg, Next(cfg, st, JoinRef(sid)), JoinCheck);
  }

  lemma Proceeds(cfg: Config, checked: State)
    requires checked.joiner.Checked? && checked.teardown.Idle?
    ensures exists end :: Inserts(cfg, checked, end)
  {
    var four := Next(cfg, Next(cfg, checked, JoinPoint), JoinLook);
    assert Inserts(cfg, checked, Next(cfg, four, JoinInsert));
  }
}
