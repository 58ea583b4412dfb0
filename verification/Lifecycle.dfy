/** One room's life at lock-section granularity: joins, leaves, the empty-room sweep and the explicit destroy
    interleave, each step being one critical section. A session is known by its handle. One handler thread performs the
    joins, so at most one join is under way; a session's own join and leave do not overlap. */
module Lifecycle {

  type Sid = nat

  datatype Config = Config(roomSize: nat, permanent: bool, grace: int)

  /** How far the join under way has come. */
  datatype Joiner =
    | NoJoin
    | HasRef(sid: Sid)      // looked the room up and took a reference
    | Checked(sid: Sid)     // found it below capacity; negotiating
    | Pointed(sid: Sid)     // the reference now belongs to the session's room pointer
    | Inserting(sid: Sid)   // holds room->mutex and saw the room not destroyed
    | Refused(sid: Sid)     // saw it destroyed; pointer still to clear
    | Undoing(sid: Sid)     // pointer cleared again, reference still to drop

  /** How far the one teardown has come. rooms_mutex is held from the mark to the removal from the table. */
  datatype Teardown =
    | Idle
    | Marked                    // the destroyed flag is set
    | Evicting(left: set<Sid>)  // holds room->mutex; members still to visit
    | Gone                      // out of the table; the caller owns the table's reference
    | Over

  datatype State = State(
    table: bool,                // the room is in the table of rooms
    ticker: bool,               // the tick thread lives
    refs: int,
    participants: set<Sid>,
    emptySince: int,            // 0 while occupied
    pointing: set<Sid>,         // sessions whose room pointer is this room
    flipped: set<Sid>,          // leaving: pointer cleared, still a participant
    removed: set<Sid>,          // leaving: no participant any more, reference still to drop
    borrowers: nat,             // requests holding a reference for a while
    joiner: Joiner,
    teardown: Teardown,
    taken: multiset<Sid>,       // memberships given a reference so far
    dropped: multiset<Sid>)     // memberships whose reference was dropped so far

  /** A room just created at time `now`: the table and the ticker hold it. */
  function Created(cfg: Config, now: int): State {
    State(true, true, 2, {}, if cfg.permanent then 0 else now, {}, {}, {}, 0, NoJoin, Idle, multiset{}, multiset{})
  }

  predicate Destroyed(st: State) { !st.teardown.Idle? }

  predicate RoomsMutexFree(st: State) { st.teardown.Idle? || st.teardown.Gone? || st.teardown.Over? }

  predicate RoomMutexFree(st: State) { !st.teardown.Evicting? && !st.joiner.Inserting? }

  datatype Step =
    | JoinRef(sid: Sid)
    | JoinRefuse                 // no offer, or the capability refused
    | JoinCheck                  // the capacity check
    | JoinGiveUp                 // negotiation failed
    | JoinPoint
    | JoinLook                   // takes room->mutex and reads the destroyed flag
    | JoinInsert                 // inserts and releases room->mutex
    | JoinUnpoint
    | JoinUndone
    | LeaveFlip(sid: Sid)
    | LeaveRemove(sid: Sid, now: int)
    | LeaveDrop(sid: Sid)
    | BorrowById
    | BorrowBySession(sid: Sid)
    | Return
    | DestroyMark                // the explicit destroy: flag set under rooms_mutex alone
    | SweepMark(now: int)        // the sweep: flag set under room->mutex as well
    | Rearm(now: int)            // a create for the room that already exists
    | TickerEnd
    | EvictBegin
    | EvictOne(sid: Sid)
    | EvictEnd
    | CallerDrop

  predicate Enabled(cfg: Config, st: State, step: Step) {
    match step
    case JoinRef(s) =>
      && st.joiner.NoJoin? && RoomsMutexFree(st) && st.table && !Destroyed(st)
      && s !in st.pointing && s !in st.flipped && s !in st.removed
    case JoinRefuse => st.joiner.HasRef?
    case JoinCheck => st.joiner.HasRef? && RoomMutexFree(st)
    case JoinGiveUp => st.joiner.Checked?
    case JoinPoint => st.joiner.Checked?
    case JoinLook => st.joiner.Pointed? && RoomMutexFree(st)
    case JoinInsert => st.joiner.Inserting?
    case JoinUnpoint => st.joiner.Refused?
    case JoinUndone => st.joiner.Undoing?
    case LeaveFlip(s) => s in st.pointing && (st.joiner.NoJoin? || st.joiner.sid != s)
    case LeaveRemove(s, now) => s in st.flipped && RoomMutexFree(st) && now > 0
    case LeaveDrop(s) => s in st.removed
    case BorrowById => RoomsMutexFree(st) && st.table && !Destroyed(st)
    case BorrowBySession(s) => s in st.pointing && !Destroyed(st)
    case Return => st.borrowers > 0
    case DestroyMark => st.teardown.Idle?
    case SweepMark(now) =>
      && st.teardown.Idle? && RoomMutexFree(st) && !cfg.permanent
      && st.emptySince != 0 && st.participants == {} && now - st.emptySince >= cfg.grace
    case Rearm(now) => st.teardown.Idle? && RoomMutexFree(st) && now > 0
    case TickerEnd => st.ticker
    case EvictBegin => st.teardown.Marked? && !st.ticker && RoomMutexFree(st)
    case EvictOne(s) => st.teardown.Evicting? && s in st.teardown.left
    case EvictEnd => st.teardown.Evicting? && st.teardown.left == {}
    case CallerDrop => st.teardown.Gone?
  }

  function Next(cfg: Config, st: State, step: Step): State
    requires Enabled(cfg, st, step)
  {
    match step
    case JoinRef(s) => st.(refs := st.refs + 1, joiner := HasRef(s))
    case JoinRefuse => st.(refs := st.refs - 1, joiner := NoJoin)
    case JoinCheck =>
      if |st.participants| >= cfg.roomSize then st.(refs := st.refs - 1, joiner := NoJoin)
      else st.(joiner := Checked(st.joiner.sid))
    case JoinGiveUp => st.(refs := st.refs - 1, joiner := NoJoin)
    case JoinPoint =>
      var s := st.joiner.sid;
      st.(pointing := st.pointing + {s}, taken := st.taken + multiset{s}, joiner := Pointed(s))
    case JoinLook =>
      var s := st.joiner.sid;
      if Destroyed(st) then st.(joiner := Refused(s)) else st.(joiner := Inserting(s))
    case JoinInsert =>
      st.(participants := st.participants + {st.joiner.sid}, emptySince := 0, joiner := NoJoin)
    case JoinUnpoint => st.(pointing := st.pointing - {st.joiner.sid}, joiner := Undoing(st.joiner.sid))
    case JoinUndone => st.(refs := st.refs - 1, dropped := st.dropped + multiset{st.joiner.sid}, joiner := NoJoin)
    case LeaveFlip(s) => st.(pointing := st.pointing - {s}, flipped := st.flipped + {s})
    case LeaveRemove(s, now) =>
      var left := st.participants - {s};
      st.(participants := left, flipped := st.flipped - {s}, removed := st.removed + {s},
          emptySince := if !cfg.permanent && left == {} then now else st.emptySince)
    case LeaveDrop(s) => st.(refs := st.refs - 1, removed := st.removed - {s}, dropped := st.dropped + multiset{s})
    case BorrowById => st.(refs := st.refs + 1, borrowers := st.borrowers + 1)
    case BorrowBySession(_) => st.(refs := st.refs + 1, borrowers := st.borrowers + 1)
    case Return => st.(refs := st.refs - 1, borrowers := st.borrowers - 1)
    case DestroyMark => st.(teardown := Marked)
    case SweepMark(_) => st.(teardown := Marked)
    case Rearm(now) =>
      if !cfg.permanent && st.emptySince != 0 && st.participants == {} then st.(emptySince := now) else st
    case TickerEnd => st.(refs := st.refs - 1, ticker := false)
    case EvictBegin => st.(teardown := Evicting(st.participants))
    case EvictOne(s) =>
      var rest := Evicting(st.teardown.left - {s});
      if s in st.pointing
      then st.(refs := st.refs - 1, pointing := st.pointing - {s}, dropped := st.dropped + multiset{s}, teardown :=
        rest)
      else st.(teardown := rest)
    case EvictEnd => st.(participants := {}, table := false, teardown := Gone)
    case CallerDrop => st.(refs := st.refs - 1, teardown := Over)
  }

  /** The states a run of enabled steps goes through. */
  ghost predicate IsRun(cfg: Config, states: seq<State>, steps: seq<Step>) {
    && |states| == |steps| + 1
    && (exists now :: now > 0 && states[0] == Created(cfg, now))
    && forall i :: 0 <= i < |steps| ==>
         Enabled(cfg, states[i], steps[i]) && states[i + 1] == Next(cfg, states[i], steps[i])
  }

  // ---- The invariant ------------------------------------------------------------------------------------------------

  function One(b: bool): nat { if b then 1 else 0 }

  /** The references a join under way holds itself, before the pointer owns one or after it gave it back. */
  function InFlight(j: Joiner): set<Sid> {
    match j
    case HasRef(s) => {s}
    case Checked(s) => {s}
    case Undoing(s) => {s}
    case _ => {}
  }

  /** The session of a join whose pointer is set but which is no participant yet. */
  function Arriving(j: Joiner): set<Sid> {
    match j
    case Pointed(s) => {s}
    case Inserting(s) => {s}
    case Refused(s) => {s}
    case _ => {}
  }

  /** Every reference has exactly one owner. */
  ghost predicate Counted(st: State) {
    st.refs == One(st.table) + One(st.ticker) + One(st.teardown.Gone?) + st.borrowers
               + |InFlight(st.joiner)| + |st.pointing| + |st.flipped| + |st.removed|
  }

  ghost predicate Separate(st: State) {
    && st.pointing !! st.flipped && st.pointing !! st.removed && st.flipped !! st.removed
    && Arriving(st.joiner) <= st.pointing
    && (!st.joiner.NoJoin? ==>
          st.joiner.sid !in st.flipped && st.joiner.sid !in st.removed && st.joiner.sid !in st.participants)
    && InFlight(st.joiner) !! st.pointing
  }

  /** Who is a participant, by phase of the teardown. */
  ghost predicate Membership(st: State) {
    var settled := st.pointing - Arriving(st.joiner);
    && (st.table <==> st.teardown.Idle? || st.teardown.Marked? || st.teardown.Evicting?)
    && match st.teardown
       case Idle => st.participants == settled + st.flipped
       case Marked => st.participants == settled + st.flipped
       case Evicting(left) => settled <= left <= st.participants
       case _ => st.participants == {} && settled == {}
  }

  /** Each membership's reference is dropped once, by whoever cleared its pointer. */
  ghost predicate DroppedOnce(st: State) {
    st.taken == st.dropped + multiset(st.pointing) + multiset(st.flipped) + multiset(st.removed)
                + (if st.joiner.Undoing? then multiset{st.joiner.sid} else multiset{})
  }

  ghost predicate WithinCapacity(cfg: Config, st: State) {
    |st.participants| + One(st.joiner.Checked? || st.joiner.Pointed? || st.joiner.Inserting?) <= cfg.roomSize
  }

  ghost predicate GraceClock(cfg: Config, st: State) {
    !Destroyed(st) ==> (st.emptySince != 0 <==> !cfg.permanent && st.participants == {})
  }

  ghost predicate Inv(cfg: Config, st: State) {
    && Counted(st) && Separate(st) && Membership(st) && DroppedOnce(st)
    && WithinCapacity(cfg, st) && GraceClock(cfg, st)
    && (st.joiner.Inserting? ==> !st.teardown.Evicting?)
    && (st.joiner.Inserting? ==> st.table)
  }
}
