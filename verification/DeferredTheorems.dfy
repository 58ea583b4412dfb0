/** What every run of the deferred store keeps: it behaves as a queue in insertion order, and a replay gives a listener
    exactly what live application would have given it. */
module DeferredTheorems {
  import opened Common
  import opened VisBatch
  import opened Deferred

  ghost predicate DistinctSlots(slots: seq<Slot>) {
    forall i, j :: 0 <= i < j < |slots| ==>
      slots[i].listener != slots[j].listener && slots[i].addedSeq != slots[j].addedSeq
  }

  ghost predicate GoodSlot(slot: Slot, stamp: nat) {
    && slot.addedSeq <= stamp
    && NoDuplicates(slot.excl) && NoDuplicates(slot.mute)
    && (slot.excl != [] || slot.mute != [])
  }

  ghost predicate Inv(st: State) {
    && |st.slots| <= MAX_DEFERRED
    && DistinctSlots(st.slots)
    && forall i :: 0 <= i < |st.slots| ==> GoodSlot(st.slots[i], st.stamp)
  }

  // ---- The reference: a queue in insertion order -------------------------------------------------------------------

  function Drop(queue: seq<Slot>, i: nat): seq<Slot>
    requires i < |queue|
  {
    queue[..i] + queue[i + 1..]
  }

  function QueueSettle(queue: seq<Slot>, i: nat, op: Op, sources: seq<string>, isMute: bool): seq<Slot>
    requires i < |queue|
  {
    var slot := Updated(queue[i], op, sources, isMute);
    if slot.excl == [] && slot.mute == [] then Drop(queue, i) else queue[i := slot]
  }

  function QueueRoom(queue: seq<Slot>): seq<Slot> {
    if |queue| >= MAX_DEFERRED then queue[1..] else queue
  }

  /** The same deposit on a queue: a new listener goes to the back, and a full queue first loses its front. */
  function QueuePut(queue: seq<Slot>, stamp: nat, listener: string, op: Op, sources: seq<string>,
                    isMute: bool): seq<Slot> {
    var i := IndexOf(queue, listener);
    if i < |queue| then QueueSettle(queue, i, op, sources, isMute)
    else if op.Remove? || sources == [] then queue
    else
      QueueSettle(QueueRoom(queue) + [Slot(listener, [], [], stamp + 1)], |QueueRoom(queue)|, op, sources, isMute)
  }

  ghost function Bag(slots: seq<Slot>): multiset<Slot> {
    if slots == [] then multiset{} else Bag(slots[..|slots| - 1]) + multiset{slots[|slots| - 1]}
  }

  lemma {:induction false} BagIs(slots: seq<Slot>)
    ensures Bag(slots) == multiset(slots)
  {
    if slots != [] {
      BagIs(slots[..|slots| - 1]);
      assert slots == slots[..|slots| - 1] + [slots[|slots| - 1]];
    }
  }

  ghost predicate Ordered(queue: seq<Slot>) {
    forall i, j :: 0 <= i < j < |queue| ==> queue[i].addedSeq < queue[j].addedSeq
  }

  /** The queue holds the store's records, oldest first. */
  ghost predicate Represents(queue: seq<Slot>, slots: seq<Slot>) {
    Bag(queue) == Bag(slots) && Ordered(queue)
  }

  lemma RemoveAtMultiset(slots: seq<Slot>, i: nat)
    requires i < |slots|
    ensures multiset(RemoveAt(slots, i)) == multiset(slots) - multiset{slots[i]}
  {
    var front, last := slots[..|slots| - 1], slots[|slots| - 1];
    assert slots == front + [last];
    if i == |slots| - 1 {
      assert RemoveAt(slots, i) == front;
    } else {
      assert RemoveAt(slots, i) == front[i := last];
    }
  }

  lemma DropMultiset(queue: seq<Slot>, i: nat)
    requires i < |queue|
    ensures multiset(Drop(queue, i)) == multiset(queue) - multiset{queue[i]}
  {
    assert queue == queue[..i] + [queue[i]] + queue[i + 1..];
  }

  lemma RemoveBag(queue: seq<Slot>, i: nat, slots: seq<Slot>, j: nat)
    requires Bag(queue) == Bag(slots) && i < |queue| && j < |slots| && queue[i] == slots[j]
    ensures Bag(Drop(queue, i)) == Bag(RemoveAt(slots, j))
  {
    RemoveAtMultiset(slots, j);
    DropMultiset(queue, i);
    BagIs(queue);
    BagIs(slots);
    BagIs(Drop(queue, i));
    BagIs(RemoveAt(slots, j));
  }

  lemma RemoveRefines(queue: seq<Slot>, i: nat, slots: seq<Slot>, j: nat)
    requires Represents(queue, slots) && i < |queue| && j < |slots| && queue[i] == slots[j]
    ensures Represents(Drop(queue, i), RemoveAt(slots, j))
  {
    RemoveBag(queue, i, slots, j);
    DropOrdered(queue, i);
  }

  lemma DropOrdered(queue: seq<Slot>, i: nat)
    requires i < |queue| && Ordered(queue)
    ensures Ordered(Drop(queue, i))
  {
    var dropped := Drop(queue, i);
    assert forall k :: 0 <= k < |dropped| ==> dropped[k] == queue[if k < i then k else k + 1];
  }

  /** A record is found by its listener alone, wherever it lies. */
  lemma FoundByListener(slots: seq<Slot>, slot: Slot)
    requires DistinctSlots(slots) && slot in slots
    ensures var i := IndexOf(slots, slot.listener); i < |slots| && slots[i] == slot
  {
    var k :| 0 <= k < |slots| && slots[k] == slot;
    assert IndexOf(slots, slot.listener) == k;
  }

  lemma SameMembers(queue: seq<Slot>, slots: seq<Slot>)
    requires Bag(queue) == Bag(slots)
    ensures |queue| == |slots|
    ensures forall s :: s in queue <==> s in slots
  {
    BagIs(queue);
    BagIs(slots);
    assert |multiset(queue)| == |multiset(slots)|;
    forall s ensures s in queue <==> s in slots {
      assert s in queue <==> s in multiset(queue);
      assert s in slots <==> s in multiset(slots);
    }
  }

  /** The queue of distinct records is distinct as well, and both sides find the same record for a listener. */
  lemma SameLookup(queue: seq<Slot>, slots: seq<Slot>, listener: string)
    requires Represents(queue, slots) && DistinctSlots(slots)
    ensures |queue| == |slots|
    ensures IndexOf(queue, listener) < |queue| <==> IndexOf(slots, listener) < |slots|
    ensures IndexOf(queue, listener) < |queue| ==> queue[IndexOf(queue, listener)] == slots[IndexOf(slots, listener)]
  {
    SameMembers(queue, slots);
    var i, j := IndexOf(queue, listener), IndexOf(slots, listener);
    if i < |queue| {
      FoundByListener(slots, queue[i]);
    }
    if j < |slots| {
      assert slots[j] in queue;
    }
  }

  /** The record with the lowest stamp is the front of the queue. */
  lemma OldestIsFront(queue: seq<Slot>, slots: seq<Slot>)
    requires Represents(queue, slots) && DistinctSlots(slots) && slots != []
    ensures queue != [] && queue[0] == slots[Oldest(slots)]
  {
    SameMembers(queue, slots);
    var oldest := Oldest(slots);
    assert queue[0] in slots;
    var k :| 0 <= k < |slots| && slots[k] == queue[0];
    assert slots[oldest] in queue;
    var m :| 0 <= m < |queue| && queue[m] == slots[oldest];
    assert slots[oldest].addedSeq <= slots[k].addedSeq;
  }

  lemma BagOfUpdate(slots: seq<Slot>, i: nat, slot: Slot)
    requires i < |slots|
    ensures Bag(slots[i := slot]) == Bag(slots) - multiset{slots[i]} + multiset{slot}
  {
    BagIs(slots);
    BagIs(slots[i := slot]);
  }

  lemma SettleRefines(queue: seq<Slot>, i: nat, st: State, j: nat, op: Op, sources: seq<string>, isMute: bool)
    requires Represents(queue, st.slots) && i < |queue| && j < |st.slots| && queue[i] == st.slots[j]
    ensures Represents(QueueSettle(queue, i, op, sources, isMute), Settle(st, j, op, sources, isMute).slots)
  {
    var slot := Updated(queue[i], op, sources, isMute);
    var slots := st.slots[j := slot];
    BagOfUpdate(queue, i, slot);
    BagOfUpdate(st.slots, j, slot);
    assert Represents(queue[i := slot], slots);
    if slot.excl == [] && slot.mute == [] {
      RemoveRefines(queue[i := slot], i, slots, j);
      assert Drop(queue[i := slot], i) == Drop(queue, i);
    }
  }

  lemma MakeRoomRefines(queue: seq<Slot>, st: State)
    requires DistinctSlots(st.slots) && Represents(queue, st.slots)
    ensures Represents(QueueRoom(queue), MakeRoom(st).slots)
  {
    assert |queue| == |st.slots| by { SameMembers(queue, st.slots); }
    if |queue| >= MAX_DEFERRED {
      var oldest := Oldest(st.slots);
      OldestIsFront(queue, st.slots);
      RemoveRefines(queue, 0, st.slots, oldest);
      assert Drop(queue, 0) == queue[1..];
    }
  }

  lemma AppendRefines(queue: seq<Slot>, slots: seq<Slot>, added: Slot)
    requires Represents(queue, slots)
    requires forall s :: s in slots ==> s.addedSeq < added.addedSeq
    ensures Represents(queue + [added], slots + [added])
  {
    SameMembers(queue, slots);
    assert (queue + [added])[..|queue|] == queue && (slots + [added])[..|slots|] == slots;
    forall k | 0 <= k < |queue| ensures queue[k].addedSeq < added.addedSeq {
      assert queue[k] in queue;
    }
  }

  lemma CreateRefines(queue: seq<Slot>, st: State, listener: string)
    requires Inv(st) && Represents(queue, st.slots)
    ensures Represents(QueueRoom(queue) + [Slot(listener, [], [], st.stamp + 1)], Created(st, listener).slots)
  {
    var made := MakeRoom(st);
    MakeRoomRefines(queue, st);
    MakeRoomKeeps(st);
    AppendRefines(QueueRoom(queue), made.slots, Slot(listener, [], [], st.stamp + 1));
  }

  /** The deposit for a new listener is the settling of a new record, on both sides. */
  lemma QueuePutNew(queue: seq<Slot>, stamp: nat, listener: string, op: Op, sources: seq<string>, isMute: bool,
                    settled: seq<Slot>)
    requires IndexOf(queue, listener) == |queue| && !op.Remove? && sources != []
    requires settled
        == QueueSettle(QueueRoom(queue) + [Slot(listener, [], [], stamp + 1)], |QueueRoom(queue)|, op, sources, isMute)
    ensures QueuePut(queue, stamp, listener, op, sources, isMute) == settled
  {
  }

  lemma PutNew(st: State, listener: string, op: Op, sources: seq<string>, isMute: bool, settled: State)
    requires IndexOf(st.slots, listener) == |st.slots| && !op.Remove? && sources != []
    requires var created := Created(st, listener); settled == Settle(created, |created.slots| - 1, op, sources, isMute)
    ensures Put(st, listener, op, sources, isMute) == settled
  {
  }

  lemma PutNewRefines(queue: seq<Slot>, st: State, listener: string, op: Op, sources: seq<string>, isMute: bool)
    requires Inv(st) && Represents(queue, st.slots)
    requires IndexOf(queue, listener) == |queue| && IndexOf(st.slots, listener) == |st.slots| && !op.Remove?
        && sources != []
    ensures Represents(QueuePut(queue, st.stamp, listener, op, sources, isMute),
        Put(st, listener, op, sources, isMute).slots)
  {
    var queueSettled, settled := SettleNewRefines(queue, st, listener, op, sources, isMute);
    QueuePutNew(queue, st.stamp, listener, op, sources, isMute, queueSettled);
    PutNew(st, listener, op, sources, isMute, settled);
  }

  lemma SettleNewRefines(queue: seq<Slot>, st: State, listener: string, op: Op, sources: seq<string>, isMute: bool)
    returns (queueSettled: seq<Slot>, settled: State)
    requires Inv(st) && Represents(queue, st.slots)
    ensures queueSettled
        == QueueSettle(QueueRoom(queue) + [Slot(listener, [], [], st.stamp + 1)], |QueueRoom(queue)|, op, sources,
        isMute)
    ensures settled == Settle(Created(st, listener), |Created(st, listener).slots| - 1, op, sources, isMute)
    ensures Represents(queueSettled, settled.slots)
  {
    var created := Created(st, listener);
    var added := Slot(listener, [], [], st.stamp + 1);
    CreateRefines(queue, st, listener);
    assert created.slots[|created.slots| - 1] == added;
    SettleRefines(QueueRoom(queue) + [added], |QueueRoom(queue)|, created, |created.slots| - 1, op, sources, isMute);
    queueSettled := QueueSettle(QueueRoom(queue) + [added], |QueueRoom(queue)|, op, sources, isMute);
    settled := Settle(created, |created.slots| - 1, op, sources, isMute);
  }

  lemma PutFoundRefines(queue: seq<Slot>, st: State, listener: string, op: Op, sources: seq<string>, isMute: bool)
    requires DistinctSlots(st.slots) && Represents(queue, st.slots)
    requires IndexOf(st.slots, listener) < |st.slots|
    ensures Represents(QueuePut(queue, st.stamp, listener, op, sources, isMute),
        Put(st, listener, op, sources, isMute).slots)
  {
    SameLookup(queue, st.slots, listener);
    var i, j := IndexOf(queue, listener), IndexOf(st.slots, listener);
    SettleRefines(queue, i, st.(replaced := st.replaced + 1), j, op, sources, isMute);
  }

  /** The victim of every eviction is the earliest-inserted record, and swap-remove never shows: one deposit on the
      array is one deposit on the queue in insertion order. */
  lemma PutRefinesQueue(queue: seq<Slot>, st: State, listener: string, op: Op, sources: seq<string>, isMute: bool)
    requires Inv(st) && Represents(queue, st.slots)
    ensures Represents(QueuePut(queue, st.stamp, listener, op, sources, isMute),
                       Put(st, listener, op, sources, isMute).slots)
  {
    SameSide(queue, st.slots, listener);
    if IndexOf(st.slots, listener) < |st.slots| {
      PutFoundRefines(queue, st, listener, op, sources, isMute);
    } else if op.Remove? || sources == [] {
      assert QueuePut(queue, st.stamp, listener, op, sources, isMute) == queue;
      assert Put(st, listener, op, sources, isMute).slots == st.slots;
    } else {
      PutNewRefines(queue, st, listener, op, sources, isMute);
    }
  }

  lemma SameSide(queue: seq<Slot>, slots: seq<Slot>, listener: string)
    requires Represents(queue, slots) && DistinctSlots(slots)
    ensures IndexOf(queue, listener) < |queue| <==> IndexOf(slots, listener) < |slots|
  {
    SameMembers(queue, slots);
    SameLookup(queue, slots, listener);
  }

  // ---- Invariant ---------------------------------------------------------------------------------------------------

  lemma RemoveAtKeeps(slots: seq<Slot>, i: nat, stamp: nat)
    requires i < |slots| && DistinctSlots(slots)
    requires forall k :: 0 <= k < |slots| && k != i ==> GoodSlot(slots[k], stamp)
    ensures DistinctSlots(RemoveAt(slots, i))
    ensures forall k :: 0 <= k < |slots| - 1 ==> GoodSlot(RemoveAt(slots, i)[k], stamp)
    ensures forall s :: s in RemoveAt(slots, i) <==> s in slots && s != slots[i]
  {
    var r := RemoveAt(slots, i);
    assert forall k :: 0 <= k < |r| ==> r[k] == if k == i then slots[|slots| - 1] else slots[k];
    forall s | s in slots && s != slots[i] ensures s in r {
      var k :| 0 <= k < |slots| && slots[k] == s;
      assert r[if k == |slots| - 1 then i else k] == s;
    }
  }

  lemma SettleKeeps(st: State, i: nat, op: Op, sources: seq<string>, isMute: bool)
    requires i < |st.slots| <= MAX_DEFERRED && DistinctSlots(st.slots)
    requires forall k :: 0 <= k < |st.slots| && k != i ==> GoodSlot(st.slots[k], st.stamp)
    requires st.slots[i].addedSeq <= st.stamp && NoDuplicates(st.slots[i].excl) && NoDuplicates(st.slots[i].mute)
    ensures Inv(Settle(st, i, op, sources, isMute))
  {
    var slot := Updated(st.slots[i], op, sources, isMute);
    ChannelUpdateRefinesSets(op, if isMute then st.slots[i].mute else st.slots[i].excl, sources);
    var slots := st.slots[i := slot];
    if slot.excl == [] && slot.mute == [] {
      RemoveAtKeeps(slots, i, st.stamp);
    }
  }

  lemma MakeRoomKeeps(st: State)
    requires Inv(st)
    ensures Inv(MakeRoom(st)) && |MakeRoom(st).slots| < MAX_DEFERRED
    ensures forall s :: s in MakeRoom(st).slots ==> s in st.slots
  {
    if |st.slots| >= MAX_DEFERRED {
      RemoveAtKeeps(st.slots, Oldest(st.slots), st.stamp);
    }
  }

  lemma PutKeepsInv(st: State, listener: string, op: Op, sources: seq<string>, isMute: bool)
    requires Inv(st)
    ensures Inv(Put(st, listener, op, sources, isMute))
  {
    var i := IndexOf(st.slots, listener);
    if i < |st.slots| {
      SettleKeeps(st.(replaced := st.replaced + 1), i, op, sources, isMute);
    } else if !(op.Remove? || sources == []) {
      MakeRoomKeeps(st);
      var created := Created(st, listener);
      var room := MakeRoom(st);
      forall k | 0 <= k < |room.slots| ensures room.slots[k].listener != listener
        && room.slots[k].addedSeq <= st.stamp {
        assert room.slots[k] in st.slots;
      }
      SettleKeeps(created, |created.slots| - 1, op, sources, isMute);
    }
  }

  lemma ReplayDoneKeepsInv(st: State, listener: string)
    requires Inv(st)
    ensures Inv(ReplayDone(st, listener))
  {
    var i := IndexOf(st.slots, listener);
    if i < |st.slots| {
      RemoveAtKeeps(st.slots, i, st.stamp);
    }
  }

  // ---- Deferral preserves meaning ----------------------------------------------------------------------------------

  /** The two columns of one listener, as sets. */
  datatype Columns = Columns(excl: set<string>, mute: set<string>)

  const NOTHING := Columns({}, {})

  /** What a replay for `listener` would hand over. */
  function Held(st: State, listener: string): Columns {
    var i := IndexOf(st.slots, listener);
    if i < |st.slots| then Columns(SourceSet(st.slots[i].excl), SourceSet(st.slots[i].mute)) else NOTHING
  }

  function ApplyLive(cols: Columns, op: Op, sources: seq<string>, isMute: bool): Columns {
    if isMute then cols.(mute := ApplyOp(op, cols.mute, sources)) else cols.(excl := ApplyOp(op, cols.excl, sources))
  }

  /** The listener whose record one deposit evicts. */
  function Victim(st: State, listener: string, op: Op, sources: seq<string>): Option<string> {
    if IndexOf(st.slots, listener) == |st.slots| && !op.Remove? && sources != [] && |st.slots| >= MAX_DEFERRED
    then Some(st.slots[Oldest(st.slots)].listener)
    else None
  }

  lemma HeldOfMember(st: State, slot: Slot)
    requires DistinctSlots(st.slots) && slot in st.slots
    ensures Held(st, slot.listener) == Columns(SourceSet(slot.excl), SourceSet(slot.mute))
  {
    FoundByListener(st.slots, slot);
  }

  lemma HeldOfNone(st: State, listener: string)
    requires forall s :: s in st.slots ==> s.listener != listener
    ensures Held(st, listener) == NOTHING
  {
  }

  /** Settling one record touches no other listener and applies the entry to its own. */
  lemma SettleHeld(st: State, i: nat, op: Op, sources: seq<string>, isMute: bool, other: string)
    requires i < |st.slots| <= MAX_DEFERRED && DistinctSlots(st.slots)
    requires NoDuplicates(st.slots[i].excl) && NoDuplicates(st.slots[i].mute)
    requires forall k :: 0 <= k < |st.slots| && k != i ==> GoodSlot(st.slots[k], st.stamp)
    ensures var after := Settle(st, i, op, sources, isMute);
            var own := st.slots[i].listener;
            && (other != own ==> Held(after, other) == Held(st, other))
            && Held(after, own) == ApplyLive(Held(st, own), op, sources, isMute)
  {
    var slot := Updated(st.slots[i], op, sources, isMute);
    var slots := st.slots[i := slot];
    var after := Settle(st, i, op, sources, isMute);
    var own := slot.listener;
    HeldOfMember(st, st.slots[i]);
    ChannelUpdateRefinesSets(op, if isMute then st.slots[i].mute else st.slots[i].excl, sources);
    assert DistinctSlots(slots);
    if slot.excl == [] && slot.mute == [] {
      RemoveAtKeeps(slots, i, st.stamp);
      HeldOfNone(after, own);
      assert SourceSet(slot.excl) == {} && SourceSet(slot.mute) == {};
    } else {
      assert slots[i] == slot;
      HeldOfMember(after, slot);
    }
    if other != own {
      var j := IndexOf(st.slots, other);
      if j < |st.slots| {
        assert slots[j] == st.slots[j];
        assert st.slots[j] in after.slots;
        HeldOfMember(after, st.slots[j]);
      } else {
        forall s | s in after.slots ensures s.listener != other {
          assert s in slots;
          var k :| 0 <= k < |slots| && slots[k] == s;
        }
        HeldOfNone(after, other);
      }
    }
  }

  lemma MakeRoomHeld(st: State, other: string)
    requires Inv(st)
    requires |st.slots| >= MAX_DEFERRED ==> st.slots[Oldest(st.slots)].listener != other
    ensures Held(MakeRoom(st), other) == Held(st, other)
  {
    if |st.slots| >= MAX_DEFERRED {
      var room := MakeRoom(st);
      RemoveAtKeeps(st.slots, Oldest(st.slots), st.stamp);
      var j := IndexOf(st.slots, other);
      if j < |st.slots| {
        assert st.slots[j] in room.slots;
        HeldOfMember(room, st.slots[j]);
      } else {
        HeldOfNone(room, other);
      }
    }
  }

  /** Creating a record gives its listener nothing yet, and takes something only from the one evicted. */
  lemma CreatedHeld(st: State, listener: string, other: string)
    requires Inv(st) && IndexOf(st.slots, listener) == |st.slots|
    ensures var created := Created(st, listener);
            && |created.slots| <= MAX_DEFERRED && DistinctSlots(created.slots)
            && (forall k :: 0 <= k < |created.slots| - 1 ==> GoodSlot(created.slots[k], created.stamp))
            && created.slots[|created.slots| - 1] == Slot(listener, [], [], created.stamp)
            && Held(created, listener) == NOTHING
            && (other != listener && (|st.slots| >= MAX_DEFERRED ==> st.slots[Oldest(st.slots)].listener != other) ==>
                  Held(created, other) == Held(st, other))
  {
    MakeRoomKeeps(st);
    var room, created := MakeRoom(st), Created(st, listener);
    var added := Slot(listener, [], [], room.stamp + 1);
    assert created.slots == room.slots + [added];
    forall k | 0 <= k < |room.slots| ensures room.slots[k].listener != listener && room.slots[k].addedSeq <= st.stamp {
      assert room.slots[k] in st.slots;
    }
    assert added in created.slots;
    HeldOfMember(created, added);
    if other != listener && (|st.slots| >= MAX_DEFERRED ==> st.slots[Oldest(st.slots)].listener != other) {
      MakeRoomHeld(st, other);
      var j := IndexOf(room.slots, other);
      if j < |room.slots| {
        assert room.slots[j] in created.slots;
        HeldOfMember(created, room.slots[j]);
      } else {
        HeldOfNone(created, other);
      }
    }
  }

  /** One deposit applies the entry to its own listener's columns exactly as live application would, and changes no
      other listener's except the one evicted. */
  lemma PutHeld(st: State, listener: string, op: Op, sources: seq<string>, isMute: bool, other: string)
    requires Inv(st)
    ensures var after := Put(st, listener, op, sources, isMute);
            && Held(after, listener) == ApplyLive(Held(st, listener), op, sources, isMute)
            && (other != listener && Victim(st, listener, op, sources) != Some(other) ==>
              Held(after, other) == Held(st, other))
  {
    var i := IndexOf(st.slots, listener);
    if i < |st.slots| {
      SettleHeld(st.(replaced := st.replaced + 1), i, op, sources, isMute, other);
    } else if op.Remove? || sources == [] {
      HeldOfNone(st, listener);
    } else {
      CreatedHeld(st, listener, other);
      var created := Created(st, listener);
      SettleHeld(created, |created.slots| - 1, op, sources, isMute, other);
    }
  }

  lemma ReplayDoneHeld(st: State, listener: string, other: string)
    requires Inv(st)
    ensures var after := ReplayDone(st, listener);
            Held(after, listener) == NOTHING && (other != listener ==> Held(after, other) == Held(st, other))
  {
    var after := ReplayDone(st, listener);
    var i := IndexOf(st.slots, listener);
    if i < |st.slots| {
      RemoveAtKeeps(st.slots, i, st.stamp);
      HeldOfNone(after, listener);
      var j := IndexOf(st.slots, other);
      if other != listener {
        if j < |st.slots| {
          assert st.slots[j] in after.slots;
          HeldOfMember(after, st.slots[j]);
        } else {
          HeldOfNone(after, other);
        }
      }
    }
  }

  // ---- Whole runs --------------------------------------------------------------------------------------------------

  datatype Call =
    | Deposit(listener: string, op: Op, sources: seq<string>, isMute: bool)
    | Replayed(listener: string)

  function After(st: State, call: Call): State {
    match call
    case Deposit(listener, op, sources, isMute) => Put(st, listener, op, sources, isMute)
    case Replayed(listener) => ReplayDone(st, listener)
  }

  function Run(st: State, calls: seq<Call>): State {
    if calls == [] then st else After(Run(st, calls[..|calls| - 1]), calls[|calls| - 1])
  }

  /** The run never evicts this listener's record. */
  predicate NeverEvicted(st: State, calls: seq<Call>, listener: string) {
    calls == [] ||
    var before, last := calls[..|calls| - 1], calls[|calls| - 1];
    && NeverEvicted(st, before, listener)
    && (last.Deposit? ==> Victim(Run(st, before), last.listener, last.op, last.sources) != Some(listener))
  }

  /** The listener's own entries of the run applied live, from `cols`. */
  function Live(cols: Columns, calls: seq<Call>, listener: string): Columns {
    if calls == [] then cols
    else
      var before, last := Live(cols, calls[..|calls| - 1], listener), calls[|calls| - 1];
      if last.listener != listener then before
      else if last.Replayed? then NOTHING
      else ApplyLive(before, last.op, last.sources, last.isMute)
  }

  lemma {:induction false} RunKeepsInv(st: State, calls: seq<Call>)
    requires Inv(st)
    ensures Inv(Run(st, calls))
  {
    if calls != [] {
      var last := calls[|calls| - 1];
      var before := Run(st, calls[..|calls| - 1]);
      RunKeepsInv(st, calls[..|calls| - 1]);
      match last {
        case Deposit(listener, op, sources, isMute) => PutKeepsInv(before, listener, op, sources, isMute);
        case Replayed(listener) => ReplayDoneKeepsInv(before, listener);
      }
    }
  }

  /** Deferral preserves meaning over every run: what the store holds for a listener is what live application of its own
      entries would have given, unless the listener's record was evicted on the way. */
  lemma {:induction false} DeferralIsLiveApplication(st: State, calls: seq<Call>, listener: string)
    requires Inv(st) && NeverEvicted(st, calls, listener)
    ensures Held(Run(st, calls), listener) == Live(Held(st, listener), calls, listener)
  {
    if calls != [] {
      var last := calls[|calls| - 1];
      var before := Run(st, calls[..|calls| - 1]);
      RunKeepsInv(st, calls[..|calls| - 1]);
      DeferralIsLiveApplication(st, calls[..|calls| - 1], listener);
      match last {
        case Deposit(l, op, sources, isMute) => PutHeld(before, l, op, sources, isMute, listener);
        case Replayed(l) => ReplayDoneHeld(before, l, listener);
      }
    }
  }

  function QueueAfter(queue: seq<Slot>, stamp: nat, call: Call): seq<Slot> {
    match call
    case Deposit(listener, op, sources, isMute) => QueuePut(queue, stamp, listener, op, sources, isMute)
    case Replayed(listener) => var i := IndexOf(queue, listener); if i < |queue| then Drop(queue, i) else queue
  }

  function QueueRun(st: State, calls: seq<Call>): seq<Slot> {
    if calls == [] then []
    else
      var before := calls[..|calls| - 1];
      QueueAfter(QueueRun(st, before), Run(st, before).stamp, calls[|calls| - 1])
  }

  /** Over every run from the empty store the array holds exactly the queue's records. */
  lemma {:induction false} StoreRefinesQueue(calls: seq<Call>)
    ensures Represents(QueueRun(EMPTY, calls), Run(EMPTY, calls).slots)
  {
    if calls != [] {
      var front, last := calls[..|calls| - 1], calls[|calls| - 1];
      StoreRefinesQueue(front);
      RunKeepsInv(EMPTY, front);
      var before, queue := Run(EMPTY, front), QueueRun(EMPTY, front);
      match last {
        case Deposit(listener, op, sources, isMute) => PutRefinesQueue(queue, before, listener, op, sources, isMute);
        case Replayed(listener) => ReplayRefines(queue, before, listener);
      }
    }
  }

  lemma ReplayRefines(queue: seq<Slot>, st: State, listener: string)
    requires Inv(st) && Represents(queue, st.slots)
    ensures Represents(QueueAfter(queue, st.stamp, Replayed(listener)), ReplayDone(st, listener).slots)
  {
    SameLookup(queue, st.slots, listener);
    var i, j := IndexOf(queue, listener), IndexOf(st.slots, listener);
    if j < |st.slots| {
      RemoveRefines(queue, i, st.slots, j);
    }
  }

  /** After any run, a deposit that evicts gives up the record that was inserted first of all those held. */
  lemma VictimIsEarliestInserted(calls: seq<Call>, listener: string, op: Op, sources: seq<string>)
    requires Victim(Run(EMPTY, calls), listener, op, sources).Some?
    ensures QueueRun(EMPTY, calls) != []
    ensures Victim(Run(EMPTY, calls), listener, op, sources) == Some(QueueRun(EMPTY, calls)[0].listener)
  {
    StoreRefinesQueue(calls);
    RunKeepsInv(EMPTY, calls);
    OldestIsFront(QueueRun(EMPTY, calls), Run(EMPTY, calls).slots);
  }
}
