/** The per-room store of columns deferred for listeners that have not joined yet. A fixed array, compacted by moving
    the last record into a hole; the oldest record is found by its stamp, never by its position. */
module Deferred {
  import opened VisBatch

  const MAX_DEFERRED := 256

  /** One deferred listener's latest intended columns. */
  datatype Slot = Slot(listener: string, excl: seq<string>, mute: seq<string>, addedSeq: nat)

  /** The value of a store: its live records in array order, the stamp source and the cumulative counters. */
  datatype State = State(slots: seq<Slot>, stamp: nat, adds: nat, replaced: nat, replayed: nat, evicted: nat)

  const EMPTY := State([], 0, 0, 0, 0, 0)

  // ---- Columns ---------------------------------------------------------------------------------------------------

  ghost predicate NoDuplicates<T>(s: seq<T>) {
    forall i, j :: 0 <= i < j < |s| ==> s[i] != s[j]
  }

  /** The rows of `column` that are not in `sources`, in order. */
  function Subtract(column: seq<string>, sources: seq<string>): seq<string> {
    if column == [] then []
    else
      var last := column[|column| - 1];
      Subtract(column[..|column| - 1], sources) + if last in sources then [] else [last]
  }

  /** `column` followed by each source it does not hold yet. */
  function AppendNew(column: seq<string>, sources: seq<string>): seq<string> {
    if sources == [] then column
    else
      var last := sources[|sources| - 1];
      var before := AppendNew(column, sources[..|sources| - 1]);
      if last in before then before else before + [last]
  }

  function ChannelUpdate(op: Op, column: seq<string>, sources: seq<string>): seq<string> {
    match op
    case Remove => Subtract(column, sources)
    case Add => AppendNew(column, sources)
    case Replace => AppendNew([], sources)
  }

  lemma {:induction false} SubtractMeaning(column: seq<string>, sources: seq<string>)
    ensures SourceSet(Subtract(column, sources)) == SourceSet(column) - SourceSet(sources)
    ensures NoDuplicates(column) ==> NoDuplicates(Subtract(column, sources))
  {
    if column != [] {
      var front, last := column[..|column| - 1], column[|column| - 1];
      SubtractMeaning(front, sources);
      assert column == front + [last];
      assert SourceSet(column) == SourceSet(front) + {last};
      var rest := Subtract(front, sources);
      if last in sources {
        assert Subtract(column, sources) == rest;
      } else {
        assert Subtract(column, sources) == rest + [last];
        assert SourceSet(rest + [last]) == SourceSet(rest) + {last};
        if NoDuplicates(column) {
          assert last !in SourceSet(front);
          assert last !in SourceSet(rest);
          assert last !in rest;
        }
      }
    }
  }

  lemma {:induction false} AppendNewMeaning(column: seq<string>, sources: seq<string>)
    requires NoDuplicates(column)
    ensures SourceSet(AppendNew(column, sources)) == SourceSet(column) + SourceSet(sources)
    ensures NoDuplicates(AppendNew(column, sources))
  {
    if sources != [] {
      var front, last := sources[..|sources| - 1], sources[|sources| - 1];
      AppendNewMeaning(column, front);
      assert sources == front + [last];
      assert SourceSet(sources) == SourceSet(front) + {last};
      var before := AppendNew(column, front);
      if last !in before {
        assert SourceSet(before + [last]) == SourceSet(before) + {last};
      } else {
        assert last in SourceSet(before);
      }
    }
  }

  /** Updating a stored column is applying the operation to the set it holds; no row is ever stored twice. */
  lemma ChannelUpdateRefinesSets(op: Op, column: seq<string>, sources: seq<string>)
    requires NoDuplicates(column)
    ensures SourceSet(ChannelUpdate(op, column, sources)) == ApplyOp(op, SourceSet(column), sources)
    ensures NoDuplicates(ChannelUpdate(op, column, sources))
  {
    match op {
      case Remove => SubtractMeaning(column, sources);
      case Add => AppendNewMeaning(column, sources);
      case Replace => AppendNewMeaning([], sources);
    }
  }

  /** The rows of an array column not named by `sources`, moved down in place; `w` is how many are left. */
  method SubtractInPlace(column: array<string>, n: nat, sources: seq<string>) returns (w: nat)
    requires n <= column.Length
    modifies column
    ensures w <= n && column[..w] == Subtract(old(column[..n]), sources)
  {
    ghost var was := column[..n];
    w := 0;
    for i := 0 to n
      invariant w <= i
      invariant column[i..n] == was[i..]
      invariant column[..w] == Subtract(was[..i], sources)
    {
      ghost var rest := column[i + 1..n];
      assert column[i] == column[i..n][0] == was[i] && rest == column[i..n][1..] == was[i..][1..];
      assert was[..i + 1][..i] == was[..i];
      if column[i] !in sources {
        var row := column[i];
        column[w] := row;
        w := w + 1;
        assert column[..w] == Subtract(was[..i], sources) + [row];
      }
      assert column[i + 1..n] == rest;
    }
    assert was[..n] == was;
  }

  /** One channel of a record updated in place, as the store keeps it. */
  method UpdateChannel(op: Op, column: seq<string>, sources: seq<string>) returns (r: seq<string>)
    ensures r == ChannelUpdate(op, column, sources)
  {
    if op.Remove? {
      var rows := new string[|column|](i requires 0 <= i < |column| => column[i]);
      assert rows[..|column|] == column;
      var w := SubtractInPlace(rows, |column|, sources);
      return rows[..w];
    }
    r := if op.Add? then column else [];
    ghost var start := r;
    for j := 0 to |sources|
      invariant r == AppendNew(start, sources[..j])
    {
      assert sources[..j + 1][..j] == sources[..j];
      if sources[j] !in r {
        r := r + [sources[j]];
      }
    }
    assert sources[..|sources|] == sources;
  }

  // ---- Records ---------------------------------------------------------------------------------------------------

  /** The first record of `listener`, or the number of records when there is none. */
  function IndexOf(slots: seq<Slot>, listener: string): (i: nat)
    ensures i <= |slots|
    ensures i < |slots| ==> slots[i].listener == listener
    ensures forall k :: 0 <= k < i ==> slots[k].listener != listener
  {
    if slots == [] || slots[0].listener == listener then 0 else 1 + IndexOf(slots[1..], listener)
  }

  lemma IndexUnique(slots: seq<Slot>, listener: string, i: nat)
    requires i < |slots| && slots[i].listener == listener
    requires forall k :: 0 <= k < i ==> slots[k].listener != listener
    ensures IndexOf(slots, listener) == i
  {
    assert IndexOf(slots, listener) >= i;
  }

  /** The record with the lowest stamp. */
  function Oldest(slots: seq<Slot>): (i: nat)
    requires slots != []
    ensures i < |slots|
    ensures forall k :: 0 <= k < |slots| ==> slots[i].addedSeq <= slots[k].addedSeq
    ensures forall k :: 0 <= k < i ==> slots[i].addedSeq < slots[k].addedSeq
  {
    if |slots| == 1 then 0
    else
      var i := Oldest(slots[..|slots| - 1]);
      assert forall k :: 0 <= k < |slots| - 1 ==> slots[k] == slots[..|slots| - 1][k];
      if slots[|slots| - 1].addedSeq < slots[i].addedSeq then |slots| - 1 else i
  }

  /** The last record moves into the hole. */
  function RemoveAt(slots: seq<Slot>, i: nat): seq<Slot>
    requires i < |slots|
  {
    slots[i := slots[|slots| - 1]][..|slots| - 1]
  }

  function Updated(slot: Slot, op: Op, sources: seq<string>, isMute: bool): Slot {
    if isMute then slot.(mute := ChannelUpdate(op, slot.mute, sources))
    else slot.(excl := ChannelUpdate(op, slot.excl, sources))
  }

  /** Room for one more record: the oldest is evicted when the store is full. */
  function MakeRoom(st: State): State {
    if |st.slots| >= MAX_DEFERRED
    then st.(slots := RemoveAt(st.slots, Oldest(st.slots)), evicted := st.evicted + 1)
    else st
  }

  /** A new, empty record at the end of the array. */
  function Created(st: State, listener: string): (r: State)
    ensures r.slots != []
  {
    var room := MakeRoom(st);
    room.(slots := room.slots + [Slot(listener, [], [], room.stamp + 1)], stamp := room.stamp + 1, adds :=
      room.adds + 1)
  }

  /** The record at `i` after one more entry for its listener; a record left with nothing is dropped. */
  function Settle(st: State, i: nat, op: Op, sources: seq<string>, isMute: bool): State
    requires i < |st.slots|
  {
    var slot := Updated(st.slots[i], op, sources, isMute);
    var slots := st.slots[i := slot];
    if slot.excl == [] && slot.mute == [] then st.(slots := RemoveAt(slots, i)) else st.(slots := slots)
  }

  /** Depositing one channel entry of an absent listener. */
  function Put(st: State, listener: string, op: Op, sources: seq<string>, isMute: bool): State {
    var i := IndexOf(st.slots, listener);
    if i < |st.slots| then Settle(st.(replaced := st.replaced + 1), i, op, sources, isMute)
    else if op.Remove? || sources == [] then st
    else
      var created := Created(st, listener);
      Settle(created, |created.slots| - 1, op, sources, isMute)
  }

  /** Taking a listener's record once it has been replayed. */
  function ReplayDone(st: State, listener: string): State {
    var i := IndexOf(st.slots, listener);
    if i < |st.slots| then st.(slots := RemoveAt(st.slots, i), replayed := st.replayed + 1) else st
  }

  // ---- The store itself ------------------------------------------------------------------------------------------

  class Store {
    const entries: array<Slot>
    var n: nat
    var stamp: nat
    var adds: nat
    var replaced: nat
    var replayed: nat
    var evicted: nat

    ghost predicate Valid()
      reads this
    {
      entries.Length == MAX_DEFERRED && n <= MAX_DEFERRED
    }

    ghost function Value(): State
      reads this, entries
      requires Valid()
    {
      State(entries[..n], stamp, adds, replaced, replayed, evicted)
    }

    constructor ()
      ensures Valid() && Value() == EMPTY && fresh(entries)
    {
      entries := new Slot[MAX_DEFERRED](i => Slot("", [], [], 0));
      n, stamp, adds, replaced, replayed, evicted := 0, 0, 0, 0, 0, 0;
    }

    method FindIndex(listener: string) returns (i: nat)
      requires Valid()
      ensures i == IndexOf(entries[..n], listener)
    {
      i := 0;
      while i < n
        invariant i <= n
        invariant forall k :: 0 <= k < i ==> entries[k].listener != listener
      {
        if entries[i].listener == listener {
          IndexUnique(entries[..n], listener, i);
          return;
        }
        i := i + 1;
      }
    }

    method FindOldest() returns (oldest: nat)
      requires Valid() && n > 0
      ensures oldest == Oldest(entries[..n])
    {
      oldest := 0;
      for k := 1 to n
        invariant oldest == Oldest(entries[..k])
      {
        assert entries[..k + 1][..k] == entries[..k];
        if entries[k].addedSeq < entries[oldest].addedSeq {
          oldest := k;
        }
      }
    }

    method RemoveRecord(i: nat)
      requires Valid() && i < n
      modifies this`n, entries
      ensures Valid() && Value() == old(Value()).(slots := RemoveAt(old(entries[..n]), i))
    {
      if i != n - 1 {
        entries[i] := entries[n - 1];
      }
      entries[n - 1] := Slot("", [], [], 0);
      n := n - 1;
      assert entries[..n] == RemoveAt(old(entries[..n]), i);
    }

    /** A new, empty record for `listener` at the end, after evicting the oldest one of a full store. */
    method NewRecord(listener: string)
      requires Valid()
      modifies this, entries
      ensures Valid() && Value() == Created(old(Value()), listener)
    {
      ghost var before := Value();
      if n >= MAX_DEFERRED {
        var oldest := FindOldest();
        RemoveRecord(oldest);
        evicted := evicted + 1;
      }
      assert Value() == MakeRoom(before);
      stamp := stamp + 1;
      entries[n] := Slot(listener, [], [], stamp);
      n := n + 1;
      adds := adds + 1;
      assert entries[..n] == MakeRoom(before).slots + [Slot(listener, [], [], stamp)];
    }

    /** One entry applied to the record at `i`, which goes when both of its columns are left empty. */
    method RewriteRecord(i: nat, op: Op, sources: seq<string>, isMute: bool)
      requires Valid() && i < n
      modifies this`n, entries
      ensures Valid() && Value() == Settle(old(Value()), i, op, sources, isMute)
    {
      ghost var before := Value();
      var slot := entries[i];
      if isMute {
        var column := UpdateChannel(op, slot.mute, sources);
        slot := slot.(mute := column);
      } else {
        var column := UpdateChannel(op, slot.excl, sources);
        slot := slot.(excl := column);
      }
      entries[i] := slot;
      assert entries[..n] == before.slots[i := slot];
      if slot.excl == [] && slot.mute == [] {
        RemoveRecord(i);
      }
    }

    /** Depositing one channel entry: create, update, evict or clear a record. */
    method Deposit(listener: string, op: Op, sources: seq<string>, isMute: bool)
      requires Valid()
      modifies this, entries
      ensures Valid() && Value() == Put(old(Value()), listener, op, sources, isMute)
    {
      var i := FindIndex(listener);
      if i == n {
        if op.Remove? || |sources| <= 0 {
          return;
        }
        NewRecord(listener);
        i := n - 1;
      } else {
        replaced := replaced + 1;
      }
      RewriteRecord(i, op, sources, isMute);
    }

    method TakeReplayed(listener: string) returns (taken: bool)
      requires Valid()
      modifies this, entries
      ensures Valid() && Value() == ReplayDone(old(Value()), listener)
      ensures taken <==> Value() != old(Value())
    {
      var i := FindIndex(listener);
      taken := i < n;
      if taken {
        RemoveRecord(i);
        replayed := replayed + 1;
      }
    }
  }
}
