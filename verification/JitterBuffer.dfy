/** The fixed-lag jitter buffer on 16-bit wrapping sequence numbers, and the unbounded playout it stands for. */
module JitterBuffer {
  const SLOTS := 128
  const LAG := 3
  const MAX_LEAD := 16
  const PAYLOAD_MAX := 1500
  const WRAP := 65536
  const HALF := 32768

  type Payload = seq<int>

  /** One slot: the sequence number stored in it and its payload; an empty payload is an empty slot. */
  datatype Slot = Slot(tag: nat, payload: Payload)

  datatype State = State(slots: seq<Slot>, next: nat, newest: nat, first: nat, haveFirst: bool, primed: bool)

  datatype Pulled = Silence | Conceal | Frame(payload: Payload)

  /** A 16-bit two's-complement reading. */
  function Int16(x: int): int {
    var m := x % WRAP;
    if m < HALF then m else m - WRAP
  }

  function Insert(st: State, s: nat, payload: Payload): State
    requires |st.slots| == SLOTS
  {
    var st := if 0 < |payload| <= PAYLOAD_MAX then st.(slots := st.slots[s % SLOTS := Slot(s, payload)]) else st;
    if !st.haveFirst then st.(haveFirst := true, first := s, newest := s)
    else if Int16(s - st.newest) > 0 then st.(newest := s)
    else st
  }

  /** The frame at the cursor, which moves on by one. */
  function Play(st: State): (Pulled, State)
    requires |st.slots| == SLOTS
  {
    var i := st.next % SLOTS;
    var moved := st.(next := (st.next + 1) % WRAP);
    if |st.slots[i].payload| > 0 && st.slots[i].tag == st.next
    then (Frame(st.slots[i].payload), moved.(slots := st.slots[i := st.slots[i].(payload := [])]))
    else (Conceal, moved)
  }

  function Pull(st: State): (Pulled, State)
    requires |st.slots| == SLOTS
  {
    if !st.haveFirst then (Silence, st)
    else if !st.primed && Int16(st.newest - st.first) < LAG then (Silence, st)
    else
      var st := if st.primed then st else st.(primed := true, next := st.first);
      var lead := Int16(st.newest - st.next);
      if lead < 0 then (Silence, st)
      else Play(if lead > MAX_LEAD then st.(next := (st.newest - LAG) % WRAP) else st)
  }

  class Buffer {
    const slots: array<Slot>
    var next: nat
    var newest: nat
    var first: nat
    var haveFirst: bool
    var primed: bool

    ghost predicate Valid()
      reads this
    {
      && slots.Length == SLOTS
      && next < WRAP && newest < WRAP && first < WRAP
    }

    ghost function Value(): State
      reads this, slots
      requires Valid()
    {
      State(slots[..], next, newest, first, haveFirst, primed)
    }

    constructor ()
      ensures Valid() && fresh(slots) && Value() == Fresh()
    {
      slots := new Slot[SLOTS](i => Slot(0, []));
      next, newest, first := 0, 0, 0;
      haveFirst, primed := false, false;
      new;
      assert slots[..] == Fresh().slots;
    }

    method Store(s: nat, payload: Payload)
      requires Valid() && s < WRAP
      modifies this, slots
      ensures Valid() && Value() == Insert(old(Value()), s, payload)
    {
      ghost var was := Value();
      if 0 < |payload| <= PAYLOAD_MAX {
        var i := s % SLOTS;
        slots[i] := Slot(s, payload);
        assert slots[..] == was.slots[i := Slot(s, payload)];
      }
      if !haveFirst {
        haveFirst := true;
        first := s;
        newest := s;
      } else if Int16(s - newest) > 0 {
        newest := s;
      }
    }

    method Next() returns (r: Pulled)
      requires Valid()
      modifies this, slots
      ensures Valid() && (r, Value()) == Pull(old(Value()))
    {
      ghost var was := Value();
      if !haveFirst {
        return Silence;
      }
      if !primed {
        if Int16(newest - first) < LAG {
          return Silence;
        }
        primed := true;
        next := first;
      }
      var lead := Int16(newest - next);
      if lead < 0 {
        return Silence;
      }
      if lead > MAX_LEAD {
        next := (newest - LAG) % WRAP;
      }
      var i := next % SLOTS;
      if |slots[i].payload| > 0 && slots[i].tag == next {
        r := Frame(slots[i].payload);
        slots[i] := slots[i].(payload := []);
        assert slots[..] == was.slots[i := was.slots[i].(payload := [])];
      } else {
        r := Conceal;
      }
      next := (next + 1) % WRAP;
    }
  }

  // ---- The unbounded playout ----------------------------------------------------------------------------------------

  /** Arrivals carry the packet's true index; the buffer sees it modulo 2^16. */
  datatype Event = Arrive(index: int, payload: Payload) | Tick

  /** Where playout stands, on true indices. */
  datatype Track = Track(have: bool, primed: bool, first: int, newest: int, next: int)

  const START := Track(false, false, 0, 0, 0)

  function Max(a: int, b: int): int { if a < b then b else a }

  /** Whether a tick plays, and from where. */
  predicate Plays(t: Track) {
    t.have && (t.primed || t.newest - t.first >= LAG) && t.newest >= Cursor(t)
  }

  function Cursor(t: Track): int { if t.primed then t.next else t.first }

  /** The index a playing tick plays. */
  function Played(t: Track): int {
    if t.newest - Cursor(t) > MAX_LEAD then t.newest - LAG else Cursor(t)
  }

  function Advance(t: Track, e: Event): Track {
    match e
    case Arrive(k, _) => if !t.have then t.(have := true, first := k, newest := k) else t.(newest := Max(t.newest, k))
    case Tick =>
      if Plays(t) then t.(primed := true, next := Played(t) + 1)
      else if t.have && (t.primed || t.newest - t.first >= LAG) then t.(primed := true, next := Cursor(t))
      else t
  }

  function Follow(events: seq<Event>): Track {
    if events == [] then START else Advance(Follow(events[..|events| - 1]), events[|events| - 1])
  }

  function Deliver(st: State, e: Event): (r: (Pulled, State))
    requires |st.slots| == SLOTS
    ensures |r.1.slots| == SLOTS
  {
    match e
    case Arrive(k, payload) => (Silence, Insert(st, k % WRAP, payload))
    case Tick => Pull(st)
  }

  function EmptySlots(n: nat): (r: seq<Slot>)
    ensures |r| == n && forall i :: 0 <= i < n ==> r[i] == Slot(0, [])
  {
    if n == 0 then [] else EmptySlots(n - 1) + [Slot(0, [])]
  }

  function Fresh(): State { State(EmptySlots(SLOTS), 0, 0, 0, false, false) }

  function Run(events: seq<Event>): (st: State)
    ensures |st.slots| == SLOTS
  {
    if events == [] then Fresh() else Deliver(Run(events[..|events| - 1]), events[|events| - 1]).1
  }

  /** No distance the buffer measures reaches 2^15: of an arrival from the newest packet, and of the cursor from it. */
  predicate Near(t: Track, e: Event) {
    match e
    case Arrive(k, _) => t.have ==> -HALF < k - t.newest < HALF
    case Tick => t.have ==> t.newest - Cursor(t) < HALF
  }

  ghost predicate NearRun(events: seq<Event>) {
    forall n :: 0 <= n < |events| ==> Near(Follow(events[..n]), events[n])
  }

  // ---- The buffer follows the track ---------------------------------------------------------------------------------

  ghost predicate Follows(st: State, t: Track) {
    && |st.slots| == SLOTS
    && st.haveFirst == t.have && st.primed == t.primed
    && (t.primed ==> t.have && t.next <= t.newest + 1 && st.next == t.next % WRAP)
    && (t.have ==> t.first <= t.newest && st.newest == t.newest % WRAP && st.first == t.first % WRAP)
  }

  lemma Int16Exact(a: int, b: int)
    requires -HALF <= a - b < HALF
    ensures Int16(a % WRAP - b % WRAP) == a - b
  {
    var q := a / WRAP - b / WRAP;
    assert a % WRAP - b % WRAP == (a - b) - q * WRAP;
    ModShift(a - b, q);
  }

  lemma ModShift(x: int, q: int)
    ensures (x - q * WRAP) % WRAP == x % WRAP
  {
    var y := x - q * WRAP;
    assert y == WRAP * (x / WRAP - q) + x % WRAP;
    ModUnique(y, x / WRAP - q, x % WRAP);
  }

  lemma ModUnique(y: int, q: int, r: int)
    requires y == WRAP * q + r && 0 <= r < WRAP
    ensures y % WRAP == r
  {
    assert y / WRAP == q;
  }

  lemma ModSum(a: int, d: int)
    ensures (a % WRAP + d) % WRAP == (a + d) % WRAP
  {
    ModShift(a + d, a / WRAP);
  }

  /** The slot of a packet is the same for its index and for its sequence number. */
  lemma SlotOfIndex(k: int)
    ensures (k % WRAP) % SLOTS == k % SLOTS
  {
    var q, r := k / WRAP, k % WRAP;
    var a, b := r / SLOTS, r % SLOTS;
    assert k == 65536 * q + 128 * a + b;
    SlotUnique(k, 512 * q + a, b);
  }

  lemma SlotUnique(k: int, m: int, b: int)
    requires k == SLOTS * m + b && 0 <= b < SLOTS
    ensures k % SLOTS == b
  {
  }

  lemma ArriveFollows(st: State, t: Track, k: int, payload: Payload)
    requires Follows(st, t) && Near(t, Arrive(k, payload))
    ensures Follows(Insert(st, k % WRAP, payload), Advance(t, Arrive(k, payload)))
  {
    if t.have {
      Int16Exact(k, t.newest);
    }
  }

  /** The buffer's state with the cursor it pulls from. */
  function AtCursor(st: State): State {
    if st.primed then st else st.(primed := true, next := st.first)
  }

  lemma CursorExact(st: State, t: Track)
    requires Follows(st, t) && Near(t, Tick) && t.have
    ensures !t.primed ==> (Int16(st.newest - st.first) < LAG <==> t.newest - t.first < LAG)
    ensures Int16(st.newest - AtCursor(st).next) == t.newest - Cursor(t)
    ensures AtCursor(st).next == Cursor(t) % WRAP
  {
    Int16Exact(t.newest, Cursor(t));
  }

  /** Playing from a cursor that stands for index k. */
  lemma PlayExact(st: State, k: int)
    requires |st.slots| == SLOTS && st.next == k % WRAP
    ensures var i := k % SLOTS;
            var (r, after) := Play(st);
            && r == (if |st.slots[i].payload| > 0
              && st.slots[i].tag == k % WRAP then Frame(st.slots[i].payload) else Conceal)
            && after.slots == (if r.Frame? then st.slots[i := st.slots[i].(payload := [])] else st.slots)
            && after == st.(next := (k + 1) % WRAP, slots := after.slots)
  {
    SlotOfIndex(k);
    ModSum(k, 1);
  }

  lemma PullSilent(st: State, t: Track)
    requires Follows(st, t) && Near(t, Tick) && !Plays(t)
    ensures Pull(st).0 == Silence && Pull(st).1.slots == st.slots && Follows(Pull(st).1, Advance(t, Tick))
  {
    if t.have {
      CursorExact(st, t);
    }
  }

  lemma PullPlays(st: State, t: Track)
    requires Follows(st, t) && Near(t, Tick) && Plays(t)
    ensures var from := AtCursor(st).(next := Played(t) % WRAP); Pull(st) == Play(from) && from.slots == st.slots
  {
    CursorExact(st, t);
    ModSum(t.newest, -LAG);
  }

  /** On a tick the buffer is silent exactly when the track does not play; otherwise it plays the track's index. */
  lemma TickFollows(st: State, t: Track)
    requires Follows(st, t) && Near(t, Tick)
    ensures Follows(Pull(st).1, Advance(t, Tick))
    ensures Pull(st).0 == Silence <==> !Plays(t)
    ensures Plays(t) ==>
              var i := Played(t) % SLOTS;
              Pull(st).0 == (if |st.slots[i].payload| > 0 && st.slots[i].tag == Played(t) % WRAP
                             then Frame(st.slots[i].payload) else Conceal)
    ensures Pull(st).1.slots == if Pull(st).0.Frame?
        then st.slots[Played(t) % SLOTS := st.slots[Played(t) % SLOTS].(payload := [])] else st.slots
  {
    if Plays(t) {
      PullPlays(st, t);
      PlayExact(AtCursor(st).(next := Played(t) % WRAP), Played(t));
    } else {
      PullSilent(st, t);
    }
  }

  lemma {:induction false} RunFollows(events: seq<Event>)
    requires NearRun(events)
    ensures Follows(Run(events), Follow(events))
  {
    if events != [] {
      var front, last := events[..|events| - 1], events[|events| - 1];
      NearPrefix(events);
      RunFollows(front);
      match last {
        case Arrive(k, payload) => ArriveFollows(Run(front), Follow(front), k, payload);
        case Tick => TickFollows(Run(front), Follow(front));
      }
    }
  }

  lemma NearPrefix(events: seq<Event>)
    requires events != [] && NearRun(events)
    ensures NearRun(events[..|events| - 1]) && Near(Follow(events[..|events| - 1]), events[|events| - 1])
  {
    var front := events[..|events| - 1];
    forall n | 0 <= n < |front| ensures Near(Follow(front[..n]), front[n]) {
      assert front[..n] == events[..n];
    }
  }

  /** The outcome of event n, when it is a tick. */
  function Outcome(events: seq<Event>, n: nat): Pulled
    requires n < |events|
  {
    Deliver(Run(events[..n]), events[n]).0
  }

  /** The index event n plays or conceals. */
  function IndexPlayed(events: seq<Event>, n: nat): int
    requires n < |events|
  {
    Played(Follow(events[..n]))
  }

  lemma {:induction false} CursorNeverBack(events: seq<Event>, m: nat, n: nat)
    requires m <= n <= |events| && NearRun(events) && Follow(events[..m]).primed
    ensures Follow(events[..n]).primed && Follow(events[..m]).next <= Follow(events[..n]).next
    decreases n
  {
    if m < n {
      CursorNeverBack(events, m, n - 1);
      assert events[..n][..n - 1] == events[..n - 1];
    }
  }

  lemma NearUpTo(events: seq<Event>, n: nat)
    requires n <= |events| && NearRun(events)
    ensures NearRun(events[..n])
  {
    forall m | 0 <= m < n ensures Near(Follow(events[..n][..m]), events[..n][m]) {
      assert events[..n][..m] == events[..m];
    }
  }

  /** What one tick does, in terms of the track before it. */
  lemma TickOutcome(events: seq<Event>, n: nat)
    requires n < |events| && NearRun(events) && events[n].Tick?
    ensures Outcome(events, n) == Silence <==> !Plays(Follow(events[..n]))
    ensures Follow(events[..n + 1]) == Advance(Follow(events[..n]), Tick)
    ensures Follows(Run(events[..n]), Follow(events[..n]))
  {
    NearUpTo(events, n);
    RunFollows(events[..n]);
    TickFollows(Run(events[..n]), Follow(events[..n]));
    assert events[..n + 1][..n] == events[..n];
  }

  lemma PlayedBehindCursor(events: seq<Event>, n: nat)
    requires n < |events| && NearRun(events) && events[n].Tick? && Outcome(events, n) != Silence
    ensures var t := Follow(events[..n + 1]); t.primed && t.next == IndexPlayed(events, n) + 1
    ensures Run(events[..n + 1]).next == (IndexPlayed(events, n) + 1) % WRAP
    ensures Cursor(Follow(events[..n])) <= IndexPlayed(events, n)
  {
    TickOutcome(events, n);
    NearUpTo(events, n + 1);
    RunFollows(events[..n + 1]);
  }

  /** The indices played or concealed strictly increase, across every wrap of the 16-bit sequence number. */
  lemma IndicesIncrease(events: seq<Event>, m: nat, n: nat)
    requires m < n < |events| && NearRun(events) && events[m].Tick? && events[n].Tick?
    requires Outcome(events, m) != Silence && Outcome(events, n) != Silence
    ensures IndexPlayed(events, m) < IndexPlayed(events, n)
    ensures Run(events[..m + 1]).next == (IndexPlayed(events, m) + 1) % WRAP
  {
    PlayedBehindCursor(events, m);
    PlayedBehindCursor(events, n);
    CursorNeverBack(events, m + 1, n);
  }

  /** After each tick that is not silent the cursor is at most one past the newest packet and at most 15 behind it. */
  lemma LeadAfterPull(events: seq<Event>, n: nat)
    requires n < |events| && NearRun(events) && events[n].Tick? && Outcome(events, n) != Silence
    ensures var t := Follow(events[..n + 1]); -1 <= t.newest - t.next <= 15
    ensures var st := Run(events[..n + 1]); -1 <= Int16(st.newest - st.next) <= 15
  {
    TickOutcome(events, n);
    LeadOfTick(Follow(events[..n]));
    FollowsUpTo(events, n + 1);
    LeadOnTheWire(Run(events[..n + 1]), Follow(events[..n + 1]));
  }

  lemma FollowsUpTo(events: seq<Event>, n: nat)
    requires n <= |events| && NearRun(events)
    ensures Follows(Run(events[..n]), Follow(events[..n]))
  {
    NearUpTo(events, n);
    RunFollows(events[..n]);
  }

  lemma LeadOfTick(t: Track)
    requires Plays(t)
    ensures var after := Advance(t, Tick); after.primed && -1 <= after.newest - after.next <= 15
  {
  }

  lemma LeadOnTheWire(st: State, t: Track)
    requires Follows(st, t) && t.primed && -1 <= t.newest - t.next <= 15
    ensures Int16(st.newest - st.next) == t.newest - t.next
  {
    Int16Exact(t.newest, t.next);
  }

  // ---- Which index is played ----------------------------------------------------------------------------------------

  /** The first packet of the run. */
  ghost predicate FirstArrival(events: seq<Event>, n: nat, k: nat)
    requires n <= |events|
  {
    k < n && events[k].Arrive? && forall j :: 0 <= j < k ==> !events[j].Arrive?
  }

  /** This is the highest index that has arrived. */
  ghost predicate Newest(events: seq<Event>, n: nat, index: int)
    requires n <= |events|
  {
    && (exists k :: 0 <= k < n && events[k].Arrive? && events[k].index == index)
    && forall k :: 0 <= k < n && events[k].Arrive? ==> events[k].index <= index
  }

  ghost predicate Arrived(events: seq<Event>, n: nat)
    requires n <= |events|
  {
    exists k :: 0 <= k < n && events[k].Arrive?
  }

  lemma {:induction false} TrackOfArrivals(events: seq<Event>, n: nat)
    requires n <= |events|
    ensures var t := Follow(events[..n]);
            && (t.have <==> Arrived(events, n))
            && (t.have ==> Newest(events, n, t.newest))
            && forall k: nat :: FirstArrival(events, n, k) ==> t.first == events[k].index
  {
    if n > 0 {
      TrackOfArrivals(events, n - 1);
      assert events[..n][..n - 1] == events[..n - 1];
    }
  }

  /** Every tick of the stretch was silent. */
  ghost predicate SilentFrom(events: seq<Event>, m: nat, n: nat)
    requires n <= |events|
  {
    forall j :: m <= j < n && events[j].Tick? ==> Outcome(events, j) == Silence
  }

  /** Tick m is the last before n that was not silent. */
  ghost predicate LastPlayed(events: seq<Event>, n: nat, m: nat)
    requires n <= |events|
  {
    m < n && events[m].Tick? && Outcome(events, m) != Silence && SilentFrom(events, m + 1, n)
  }

  lemma {:induction false} CursorWaits(events: seq<Event>, m: nat, n: nat)
    requires m <= n <= |events| && NearRun(events) && SilentFrom(events, m, n) && Follow(events[..m]).primed
    ensures Follow(events[..n]).primed && Follow(events[..n]).next == Follow(events[..m]).next
    decreases n
  {
    if m < n {
      CursorWaits(events, m, n - 1);
      CursorStep(events, n - 1);
    }
  }

  lemma CursorStep(events: seq<Event>, n: nat)
    requires n < |events| && NearRun(events) && (events[n].Tick? ==> Outcome(events, n) == Silence)
    requires Follow(events[..n]).primed
    ensures Follow(events[..n + 1]).primed && Follow(events[..n + 1]).next == Follow(events[..n]).next
  {
    assert events[..n + 1][..n] == events[..n] && events[..n + 1][n] == events[n];
    if events[n].Tick? {
      TickOutcome(events, n);
    }
    AdvanceWaits(Follow(events[..n]), events[n]);
  }

  lemma AdvanceWaits(t: Track, e: Event)
    requires t.primed && (e.Tick? ==> !Plays(t))
    ensures Advance(t, e).primed && Advance(t, e).next == t.next
  {
  }

  lemma {:induction false} NothingPlayed(events: seq<Event>, n: nat)
    requires n <= |events| && NearRun(events)
    requires SilentFrom(events, 0, n)
    ensures !Follow(events[..n]).primed
  {
    if n > 0 {
      NothingPlayed(events, n - 1);
      assert events[..n][..n - 1] == events[..n - 1];
      if events[n - 1].Tick? {
        TickOutcome(events, n - 1);
      }
    }
  }

  /** From expected index `next` a tick plays on, unless it would then lie more than 16 behind the newest packet: then
      it resumes three behind it. */
  ghost predicate PlaysFrom(events: seq<Event>, n: nat, next: int, newest: int)
    requires n < |events|
  {
    IndexPlayed(events, n) == if newest - next > 16 then newest - 3 else next
  }

  /** Once something was played, each tick that is not silent plays the index after the last, or resumes; and a tick is
      silent exactly while that index lies ahead of every packet. */
  lemma PlaysOnExactly(events: seq<Event>, m: nat, n: nat, newest: int)
    requires n < |events| && NearRun(events) && events[n].Tick? && LastPlayed(events, n, m) && Newest(events, n, newest)
    ensures var next := IndexPlayed(events, m) + 1;
            && (Outcome(events, n) == Silence <==> newest < next)
            && (Outcome(events, n) != Silence ==> PlaysFrom(events, n, next, newest))
  {
    PlayedBehindCursor(events, m);
    CursorWaits(events, m + 1, n);
    TickOutcome(events, n);
    TrackOfArrivals(events, n);
  }

  /** Playing begins at the first tick that finds a packet three past the first one, and with the first one. */
  lemma PlaysFirstExactly(events: seq<Event>, n: nat, k: nat, newest: int)
    requires n < |events| && NearRun(events) && events[n].Tick?
    requires FirstArrival(events, n, k) && Newest(events, n, newest)
    requires SilentFrom(events, 0, n)
    ensures Outcome(events, n) == Silence <==> newest - events[k].index < 3
    ensures Outcome(events, n) != Silence ==> PlaysFrom(events, n, events[k].index, newest)
  {
    NothingPlayed(events, n);
    TickOutcome(events, n);
    TrackOfArrivals(events, n);
  }

  // ---- What a frame is ----------------------------------------------------------------------------------------------

  predicate Stores(e: Event, slot: nat) {
    e.Arrive? && 0 < |e.payload| <= 1500 && e.index % SLOTS == slot
  }

  /** Event n returned the content of this slot. */
  predicate Takes(events: seq<Event>, n: nat, slot: nat)
    requires n < |events|
  {
    events[n].Tick? && Outcome(events, n).Frame? && IndexPlayed(events, n) % SLOTS == slot
  }

  /** Event i put into the slot what it holds after n events: nothing later stored into it or took from it. */
  ghost predicate Holds(events: seq<Event>, n: nat, slot: nat, i: nat)
    requires n <= |events|
  {
    && i < n && Stores(events[i], slot)
    && forall j :: i < j < n ==> !Stores(events[j], slot) && !Takes(events, j, slot)
  }

  /** What one event does to one slot. */
  lemma SlotStep(events: seq<Event>, n: nat, slot: nat)
    requires n < |events| && slot < SLOTS && NearRun(events)
    ensures var before, after := Run(events[..n]).slots[slot], Run(events[..n + 1]).slots[slot];
            && (Stores(events[n], slot) ==> after == Slot(events[n].index % WRAP, events[n].payload))
            && (Takes(events, n, slot) ==> after.payload == [])
            && (!Stores(events[n], slot) && !Takes(events, n, slot) ==> after == before)
  {
    assert events[..n + 1][..n] == events[..n];
    if events[n].Tick? {
      TickOutcome(events, n);
      TickFollows(Run(events[..n]), Follow(events[..n]));
    } else {
      SlotOfIndex(events[n].index);
    }
  }

  lemma HoldsStep(events: seq<Event>, n: nat, slot: nat, i: nat)
    requires n < |events|
    ensures Holds(events, n + 1, slot, i) <==>
              (i == n && Stores(events[n], slot))
                || (Holds(events, n, slot, i) && !Stores(events[n], slot) && !Takes(events, n, slot))
  {
  }

  /** Some arrival's packet is still in the slot after n events. */
  ghost predicate InUse(events: seq<Event>, n: nat, slot: nat)
    requires n <= |events|
  {
    exists i: nat :: Holds(events, n, slot, i)
  }

  /** A slot is in use exactly when some arrival's packet is still in it, and then it carries that packet. */
  lemma SlotContent(events: seq<Event>, n: nat, slot: nat, i: nat)
    requires n <= |events| && slot < SLOTS && NearRun(events)
    ensures Holds(events, n, slot, i) ==>
              Run(events[..n]).slots[slot] == Slot(events[i].index % WRAP, events[i].payload)
    ensures InUse(events, n, slot) <==> Run(events[..n]).slots[slot].payload != []
  {
    SlotHeld(events, n, slot, i);
    SlotUsed(events, n, slot);
  }

  lemma {:induction false} SlotHeld(events: seq<Event>, n: nat, slot: nat, i: nat)
    requires n <= |events| && slot < SLOTS && NearRun(events)
    ensures Holds(events, n, slot, i) ==>
              Run(events[..n]).slots[slot] == Slot(events[i].index % WRAP, events[i].payload)
    decreases n
  {
    if n > 0 {
      SlotHeld(events, n - 1, slot, i);
      SlotStep(events, n - 1, slot);
      HoldsStep(events, n - 1, slot, i);
    }
  }

  lemma {:induction false} SlotUsed(events: seq<Event>, n: nat, slot: nat)
    requires n <= |events| && slot < SLOTS && NearRun(events)
    ensures InUse(events, n, slot) <==> Run(events[..n]).slots[slot].payload != []
    decreases n
  {
    if n > 0 {
      SlotUsed(events, n - 1, slot);
      SlotStep(events, n - 1, slot);
      InUseStep(events, n - 1, slot);
    }
  }

  lemma InUseStep(events: seq<Event>, n: nat, slot: nat)
    requires n < |events|
    ensures InUse(events, n + 1, slot) <==>
              Stores(events[n], slot) || (InUse(events, n, slot) && !Takes(events, n, slot))
  {
    if Stores(events[n], slot) {
      HoldsStep(events, n, slot, n);
    } else if InUse(events, n, slot) && !Takes(events, n, slot) {
      var i: nat :| Holds(events, n, slot, i);
      HoldsStep(events, n, slot, i);
    }
    if InUse(events, n + 1, slot) {
      var i: nat :| Holds(events, n + 1, slot, i);
      HoldsStep(events, n, slot, i);
    }
  }

  /** The packet arrival i brought is the one event n plays: still in the cursor's slot, under the very sequence number.
      */
  ghost predicate Supplies(events: seq<Event>, n: nat, i: nat)
    requires n < |events|
  {
    Holds(events, n, IndexPlayed(events, n) % SLOTS, i) && events[i].index % WRAP == IndexPlayed(events, n) % WRAP
  }

  /** A tick returns a frame exactly when the packet last stored into the cursor's slot, and not taken since, carries
      the very sequence number to be played; the frame is that packet's payload. */
  lemma FrameIsLastStored(events: seq<Event>, n: nat)
    requires n < |events| && NearRun(events) && events[n].Tick? && Outcome(events, n) != Silence
    ensures Outcome(events, n).Frame? <==> exists i: nat :: Supplies(events, n, i)
    ensures forall i: nat :: Supplies(events, n, i) ==> Outcome(events, n) == Frame(events[i].payload)
  {
    TickOutcome(events, n);
    var slot := IndexPlayed(events, n) % SLOTS;
    TickFollows(Run(events[..n]), Follow(events[..n]));
    forall i: nat | Supplies(events, n, i) ensures Outcome(events, n) == Frame(events[i].payload) {
      SlotContent(events, n, slot, i);
    }
    if Outcome(events, n).Frame? {
      SlotContent(events, n, slot, 0);
      var i: nat :| Holds(events, n, slot, i);
      SlotContent(events, n, slot, i);
      assert Supplies(events, n, i);
    }
  }

  // ---- Loss-free input ----------------------------------------------------------------------------------------------

  /** Arrivals are consecutive and every packet has a storable payload. */
  ghost predicate InOrder(events: seq<Event>) {
    forall n :: 0 <= n < |events| && events[n].Arrive? ==>
      && 0 < |events[n].payload| <= PAYLOAD_MAX
      && (Follow(events[..n]).have ==> events[n].index == Follow(events[..n]).newest + 1)
  }

  /** The packets still ahead of the cursor are in their slots, as far back as the ring reaches. */
  ghost predicate Ready(st: State, t: Track) {
    t.have ==> forall k :: Max(Cursor(t), t.newest - SLOTS + 1) <= k <= t.newest ==>
      (Stored(st, k) && k >= t.first)
  }

  predicate Stored(st: State, k: int) {
    |st.slots| == SLOTS && st.slots[k % SLOTS].payload != [] && st.slots[k % SLOTS].tag == k % WRAP
  }

  lemma SameSlot(a: int, b: int)
    requires a % SLOTS == b % SLOTS && -SLOTS < a - b < SLOTS
    ensures a == b
  {
    assert a - b == SLOTS * (a / SLOTS - b / SLOTS);
  }

  lemma ArriveReady(st: State, t: Track, k: int, payload: Payload)
    requires Follows(st, t) && Ready(st, t) && Near(t, Arrive(k, payload))
    requires 0 < |payload| <= PAYLOAD_MAX && (t.have ==> k == t.newest + 1) && (!t.have ==> !t.primed)
    ensures Ready(Insert(st, k % WRAP, payload), Advance(t, Arrive(k, payload)))
  {
    var st', t' := Insert(st, k % WRAP, payload), Advance(t, Arrive(k, payload));
    SlotOfIndex(k);
    forall j | Max(Cursor(t'), t'.newest - SLOTS + 1) <= j <= t'.newest ensures Stored(st', j) && j >= t'.first {
      if j < k {
        assert Stored(st, j);
        if j % SLOTS == k % SLOTS {
          SameSlot(j, k);
        }
      }
    }
  }

  lemma TickReady(st: State, t: Track)
    requires Follows(st, t) && Ready(st, t) && Near(t, Tick)
    ensures Ready(Pull(st).1, Advance(t, Tick)) && Pull(st).0 != Conceal
  {
    TickFollows(st, t);
    var st', t' := Pull(st).1, Advance(t, Tick);
    if Plays(t) {
      assert Stored(st, Played(t));
      forall j | Max(Cursor(t'), t'.newest - SLOTS + 1) <= j <= t'.newest ensures Stored(st', j) && j >= t'.first {
        assert Stored(st, j);
        if j % SLOTS == Played(t) % SLOTS {
          SameSlot(j, Played(t));
        }
      }
    }
  }

  lemma {:induction false} InOrderReady(events: seq<Event>)
    requires NearRun(events) && InOrder(events)
    ensures Ready(Run(events), Follow(events))
  {
    if events != [] {
      var front, last := events[..|events| - 1], events[|events| - 1];
      NearPrefix(events);
      forall n | 0 <= n < |front| ensures front[n] == events[n] && front[..n] == events[..n] {
      }
      InOrderReady(front);
      RunFollows(front);
      match last {
        case Arrive(k, payload) =>
          assert last == events[|events| - 1];
          ArriveReady(Run(front), Follow(front), k, payload);
        case Tick => TickReady(Run(front), Follow(front));
      }
    }
  }

  /** In-order, loss-free input is never concealed, however arrivals and ticks interleave. */
  lemma NoConcealmentInOrder(events: seq<Event>, n: nat)
    requires n < |events| && NearRun(events) && InOrder(events) && events[n].Tick?
    ensures Outcome(events, n) != Conceal
  {
    var front := events[..n];
    NearUpTo(events, n);
    forall m | 0 <= m < n ensures front[m] == events[m] && front[..m] == events[..m] {
    }
    InOrderReady(front);
    RunFollows(front);
    TickReady(Run(front), Follow(front));
  }
}
