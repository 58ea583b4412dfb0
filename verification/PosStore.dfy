/** The room's store of sim-reported positions: a fixed open-addressing table with linear probing, filled by sequenced
    requests. */
module PosStore {
  import opened Common

  const SLOTS := 512
  const STORE_MAX := 256

  /** One participant as the sim reports it: global centimetres, centimetres per second, centimetres. */
  datatype Entry = Entry(uuid: string, x: int, y: int, z: int, speed: nat, tolerance: nat)
  datatype Sim = Sim(e: Entry, recvUs: int)
  datatype Slot = Free | Used(sim: Sim)

  // ---- The table ----------------------------------------------------------------------------------------------------

  /** Exclusive or, bit by bit. */
  function Xor(a: nat, b: nat): nat
    decreases a + b
  {
    if a == 0 && b == 0 then 0 else 2 * Xor(a / 2, b / 2) + if a % 2 != b % 2 then 1 else 0
  }

  /** FNV-1a in 32-bit unsigned arithmetic, over the whole text. */
  function Hash(s: string): (h: nat)
    ensures h < 0x1_0000_0000
  {
    if s == "" then 2166136261 else Xor(Hash(s[..|s| - 1]), s[|s| - 1] as int) * 16777619 % 0x1_0000_0000
  }

  function Home(uuid: string): (h: nat)
    ensures h < SLOTS
  {
    Hash(uuid) % SLOTS
  }

  /** Step i of the probe that starts at a home slot. */
  function At(home: nat, i: nat): (p: nat)
    requires home < SLOTS && i < SLOTS
    ensures p < SLOTS
  {
    if home + i < SLOTS then home + i else home + i - SLOTS
  }

  /** The step whose slot is p. */
  function StepOf(home: nat, p: nat): (i: nat)
    requires home < SLOTS && p < SLOTS
    ensures i < SLOTS && At(home, i) == p
  {
    if p >= home then p - home else p + SLOTS - home
  }

  /** The 32-bit sum the probe masks is the step's slot, even where the sum wraps. */
  lemma MaskedSum(h: nat, i: nat)
    requires h < 0x1_0000_0000 && i < SLOTS
    ensures (h + i) % 0x1_0000_0000 % SLOTS == At(h % SLOTS, i)
  {
    assert 0x1_0000_0000 == 8388608 * SLOTS;
    var q := h / SLOTS;
    assert h == q * SLOTS + h % SLOTS;
    if h + i >= 0x1_0000_0000 {
      assert (h + i) % 0x1_0000_0000 == h + i - 0x1_0000_0000;
    }
  }

  type Slots = t: seq<Slot> | |t| == SLOTS witness seq(SLOTS, _ => Free)

  ghost predicate Holds(t: Slots, p: nat, uuid: string) {
    p < SLOTS && t[p].Used? && t[p].sim.e.uuid == uuid
  }

  /** Every used slot is reached from its key's home through slots other keys use. */
  ghost predicate Chained(t: Slots) {
    forall p {:trigger Reached(t, p)} :: 0 <= p < SLOTS && t[p].Used? ==> Reached(t, p)
  }

  ghost predicate Reached(t: Slots, p: nat)
    requires p < SLOTS && t[p].Used?
  {
    var home := Home(t[p].sim.e.uuid);
    forall i :: 0 <= i < StepOf(home, p) ==> t[At(home, i)].Used? && t[At(home, i)].sim.e.uuid != t[p].sim.e.uuid
  }

  /** Where a probe from step i stops: at the key, at a free slot, or nowhere. */
  function Probe(t: Slots, uuid: string, i: nat): (r: nat)
    requires i <= SLOTS
    ensures i <= r <= SLOTS
    ensures r < SLOTS ==> t[At(Home(uuid), r)].Free? || t[At(Home(uuid), r)].sim.e.uuid == uuid
    ensures forall j :: i <= j < r ==> t[At(Home(uuid), j)].Used? && t[At(Home(uuid), j)].sim.e.uuid != uuid
    decreases SLOTS - i
  {
    if i == SLOTS then SLOTS
    else
      var s := t[At(Home(uuid), i)];
      if s.Free? || s.sim.e.uuid == uuid then i else Probe(t, uuid, i + 1)
  }

  ghost function Keys(t: seq<Slot>): set<string> {
    set p | 0 <= p < |t| && t[p].Used? :: t[p].sim.e.uuid
  }

  /** The map a table stands for. */
  ghost function View(t: Slots): (m: map<string, Sim>)
    requires Chained(t)
    ensures m.Keys == Keys(t)
  {
    map u | u in Keys(t) :: PointOf(t, u)
  }

  ghost function PointOf(t: Slots, uuid: string): Sim
    requires Chained(t) && uuid in Keys(t)
  {
    ProbeEndsAtKey(t, uuid);
    t[At(Home(uuid), Probe(t, uuid, 0))].sim
  }

  /** A stored key's probe ends at it. */
  lemma ProbeEndsAtKey(t: Slots, uuid: string)
    requires Chained(t) && uuid in Keys(t)
    ensures Probe(t, uuid, 0) < SLOTS && Holds(t, At(Home(uuid), Probe(t, uuid, 0)), uuid)
  {
    var p :| 0 <= p < |t| && t[p].Used? && t[p].sim.e.uuid == uuid;
    ProbeStops(t, uuid, StepOf(Home(uuid), p));
    FirstStop(t, uuid, p);
  }

  /** A probe does not pass a slot that holds its key. */
  lemma ProbeStops(t: Slots, uuid: string, i: nat)
    requires i < SLOTS && Holds(t, At(Home(uuid), i), uuid)
    ensures Probe(t, uuid, 0) <= i
  {
  }

  lemma FirstStop(t: Slots, uuid: string, p: nat)
    requires Chained(t) && Holds(t, p, uuid) && Probe(t, uuid, 0) <= StepOf(Home(uuid), p)
    ensures Holds(t, At(Home(uuid), Probe(t, uuid, 0)), uuid)
  {
    assert Reached(t, p);
  }

  /** A key not stored ends its probe at a free slot while the table is not full. */
  lemma ProbeEndsAtFree(t: Slots, uuid: string)
    requires Chained(t) && uuid !in Keys(t) && |Keys(t)| < SLOTS
    ensures Probe(t, uuid, 0) < SLOTS && t[At(Home(uuid), Probe(t, uuid, 0))].Free?
  {
    var r := Probe(t, uuid, 0);
    if r == SLOTS {
      ProbedOut(t, uuid);
      KeysAreDistinct(t);
      CountUsed(t, SLOTS);
      assert false;
    }
    AbsentStop(t, uuid, At(Home(uuid), r));
  }

  lemma AbsentStop(t: Slots, uuid: string, p: nat)
    requires p < SLOTS && uuid !in Keys(t) && (t[p].Free? || t[p].sim.e.uuid == uuid)
    ensures t[p].Free?
  {
    if t[p].Used? {
      KeyOf(t, p);
    }
  }

  lemma KeyOf(t: Slots, p: nat)
    requires p < SLOTS && t[p].Used?
    ensures t[p].sim.e.uuid in Keys(t)
  {
  }

  lemma ProbedOut(t: Slots, uuid: string)
    requires Probe(t, uuid, 0) == SLOTS
    ensures forall p :: 0 <= p < SLOTS ==> t[p].Used?
    ensures t[..SLOTS] == t
  {
    forall p | 0 <= p < SLOTS ensures t[p].Used? {
      assert At(Home(uuid), StepOf(Home(uuid), p)) == p;
    }
  }

  lemma KeysAreDistinct(t: Slots)
    requires Chained(t)
    ensures forall p, q :: 0 <= p < q < SLOTS && t[p].Used? && t[q].Used? ==> t[p].sim.e.uuid != t[q].sim.e.uuid
  {
    forall p, q | 0 <= p < q < SLOTS && t[p].Used? && t[q].Used? ensures t[p].sim.e.uuid != t[q].sim.e.uuid {
      var home := Home(t[p].sim.e.uuid);
      var i, j := StepOf(home, p), StepOf(home, q);
      assert Reached(t, p) && Reached(t, q);
      assert At(home, i) == p && At(home, j) == q;
    }
  }

  lemma {:induction false} CountUsed(t: Slots, n: nat)
    requires n <= SLOTS && forall p :: 0 <= p < n ==> t[p].Used?
    requires forall p, q :: 0 <= p < q < n ==> t[p].sim.e.uuid != t[q].sim.e.uuid
    ensures |Keys(t[..n])| == n
  {
    if n > 0 {
      CountUsed(t, n - 1);
      var more, less, u := t[..n], t[..n - 1], t[n - 1].sim.e.uuid;
      assert forall p :: 0 <= p < n - 1 ==> more[p] == less[p];
      assert more[n - 1].sim.e.uuid == u;
      assert Keys(more) == Keys(less) + {u};
      assert u !in Keys(less);
    }
  }

  /** Writing a key's point where its probe ends keeps the table sound and changes that key's point alone. */
  lemma PutKeeps(t: Slots, sim: Sim)
    requires Chained(t) && Probe(t, sim.e.uuid, 0) < SLOTS
    ensures var after: Slots := t[At(Home(sim.e.uuid), Probe(t, sim.e.uuid, 0)) := Used(sim)];
            Chained(after) && View(after) == View(t)[sim.e.uuid := sim]
  {
    var u := sim.e.uuid;
    var at := At(Home(u), Probe(t, u, 0));
    var after: Slots := t[at := Used(sim)];
    PutKeepsChain(t, after, at, sim);
    KeysAfter(t, after, at, sim);
    forall v | v in Keys(after) ensures View(after)[v] == View(t)[u := sim][v] {
      PutKeepsPoint(t, after, at, sim, v);
    }
  }

  lemma PutKeepsPoint(t: Slots, after: Slots, at: nat, sim: Sim, v: string)
    requires at < SLOTS && after == t[at := Used(sim)] && (t[at].Free? || t[at].sim.e.uuid == sim.e.uuid)
    requires Chained(t) && Chained(after) && v in Keys(after)
    ensures v == sim.e.uuid || v in Keys(t)
    ensures View(after)[v] == if v == sim.e.uuid then sim else View(t)[v]
  {
    if v == sim.e.uuid {
      ViewIs(after, at);
    } else {
      var p :| 0 <= p < |after| && after[p].Used? && after[p].sim.e.uuid == v;
      assert p != at && t[p] == after[p];
      ViewIs(t, p);
      ViewIs(after, p);
    }
  }

  lemma PutKeepsChain(t: Slots, after: Slots, at: nat, sim: Sim)
    requires Chained(t) && Probe(t, sim.e.uuid, 0) < SLOTS && at == At(Home(sim.e.uuid), Probe(t, sim.e.uuid, 0))
    requires after == t[at := Used(sim)]
    ensures Chained(after)
  {
    forall p | 0 <= p < SLOTS && after[p].Used? ensures Reached(after, p) {
      StaysReached(t, after, at, sim, p);
    }
  }

  /** A used slot is the one the map shows for its key. */
  lemma ViewIs(t: Slots, p: nat)
    requires Chained(t) && p < SLOTS && t[p].Used?
    ensures t[p].sim.e.uuid in Keys(t) && View(t)[t[p].sim.e.uuid] == t[p].sim
  {
    var u := t[p].sim.e.uuid;
    assert u in Keys(t);
    ProbeEndsAtKey(t, u);
    KeysAreDistinct(t);
  }

  /** A probe for any key ends at its slot, at a free one, or nowhere when every slot is another key's. */
  lemma ProbeEnds(t: Slots, uuid: string)
    requires Chained(t)
    ensures var n := Probe(t, uuid, 0);
            && (n == SLOTS <==> uuid !in View(t) && |View(t)| == SLOTS)
            && (n < SLOTS ==> t[At(Home(uuid), n)] == if uuid in View(t) then Used(View(t)[uuid]) else Free)
  {
    assert |View(t)| == |Keys(t)| by { assert |View(t).Keys| == |Keys(t)|; }
    KeysAtMost(t);
    if uuid in Keys(t) {
      ProbeEndsAtKey(t, uuid);
    } else if |Keys(t)| < SLOTS {
      ProbeEndsAtFree(t, uuid);
    } else {
      FullTable(t, uuid);
    }
  }

  lemma {:induction false} KeysAtMost(t: seq<Slot>)
    ensures |Keys(t)| <= |t|
  {
    if t != [] {
      var front, last := t[..|t| - 1], t[|t| - 1];
      KeysAtMost(front);
      assert Keys(t) <= Keys(front) + if last.Used? then {last.sim.e.uuid} else {};
      SubsetSize(Keys(t), Keys(front) + if last.Used? then {last.sim.e.uuid} else {});
    }
  }

  lemma FullTable(t: Slots, uuid: string)
    requires |Keys(t)| == SLOTS && uuid !in Keys(t)
    ensures Probe(t, uuid, 0) == SLOTS
  {
    var n := Probe(t, uuid, 0);
    if n < SLOTS {
      var p := At(Home(uuid), n);
      AbsentStop(t, uuid, p);
      KeysAtMost(t[..p]);
      KeysAtMost(t[p + 1..]);
      KeysWithout(t, p);
      SubsetSize(Keys(t), Keys(t[..p]) + Keys(t[p + 1..]));
      assert false;
    }
  }

  lemma KeysWithout(t: Slots, p: nat)
    requires p < SLOTS && t[p].Free?
    ensures Keys(t) <= Keys(t[..p]) + Keys(t[p + 1..])
  {
    forall u | u in Keys(t) ensures u in Keys(t[..p]) + Keys(t[p + 1..]) {
      var q :| 0 <= q < |t| && t[q].Used? && t[q].sim.e.uuid == u;
      if q < p {
        assert t[..p][q] == t[q];
      } else {
        assert t[p + 1..][q - p - 1] == t[q];
      }
    }
  }

  lemma EmptyTable(t: Slots)
    requires forall p :: 0 <= p < SLOTS ==> t[p].Free?
    ensures Chained(t) && View(t) == map[]
  {
    assert Keys(t) == {};
  }

  lemma CountAfter(m: map<string, Sim>, sim: Sim)
    ensures |m[sim.e.uuid := sim]| == if sim.e.uuid in m then |m| else |m| + 1
  {
    var after := m[sim.e.uuid := sim];
    assert after.Keys == m.Keys + {sim.e.uuid};
    if sim.e.uuid in m {
      assert after.Keys == m.Keys;
    }
    assert |after| == |after.Keys| && |m| == |m.Keys|;
  }

  lemma StaysReached(t: Slots, after: Slots, at: nat, sim: Sim, p: nat)
    requires Chained(t) && Probe(t, sim.e.uuid, 0) < SLOTS && at == At(Home(sim.e.uuid), Probe(t, sim.e.uuid, 0))
    requires after == t[at := Used(sim)] && p < SLOTS && after[p].Used?
    ensures Reached(after, p)
  {
    var u := sim.e.uuid;
    if p == at {
      assert StepOf(Home(u), at) == Probe(t, u, 0);
      forall i | 0 <= i < Probe(t, u, 0) ensures At(Home(u), i) != at {
        assert StepOf(Home(u), at) != i;
      }
    } else {
      assert Reached(t, p);
      assert t[at].Free? || t[at].sim.e.uuid == u;
    }
  }

  lemma KeysAfter(t: Slots, after: Slots, at: nat, sim: Sim)
    requires at < SLOTS && after == t[at := Used(sim)] && (t[at].Free? || t[at].sim.e.uuid == sim.e.uuid)
    ensures Keys(after) == Keys(t) + {sim.e.uuid}
  {
    forall v | v in Keys(t) + {sim.e.uuid} ensures v in Keys(after) {
      if v == sim.e.uuid {
        assert after[at].sim.e.uuid == v;
      } else {
        var p :| 0 <= p < |t| && t[p].Used? && t[p].sim.e.uuid == v;
        assert after[p] == t[p];
      }
    }
  }

  // ---- The store ----------------------------------------------------------------------------------------------------

  function Lower(c: char): char {
    if 'A' <= c <= 'Z' then (c as int - 'A' as int + 'a' as int) as char else c
  }

  function LowerAll(s: string): (r: string)
    ensures |r| == |s| && forall i :: 0 <= i < |s| ==> r[i] == Lower(s[i])
  {
    seq(|s|, i requires 0 <= i < |s| => Lower(s[i]))
  }

  /** Two texts are one key exactly when they differ at most in the case of their letters. */
  lemma SameKeyExactly(a: string, b: string)
    ensures LowerAll(a) == LowerAll(b) <==>
              |a| == |b| && forall i :: 0 <= i < |a| ==>
                || a[i] == b[i]
                || ('A' <= a[i] <= 'Z' && b[i] as int == a[i] as int + 32)
                || ('A' <= b[i] <= 'Z' && a[i] as int == b[i] as int + 32)
  {
    var p, q := LowerAll(a), LowerAll(b);
    if |a| == |b| {
      forall i | 0 <= i < |a| ensures p[i] == q[i] <==>
                  || a[i] == b[i]
                  || ('A' <= a[i] <= 'Z' && b[i] as int == a[i] as int + 32)
                  || ('A' <= b[i] <= 'Z' && a[i] as int == b[i] as int + 32)
      {
      }
    }
  }

  /** The map after one entry: a new participant beyond the bound is dropped. */
  function PutBounded(m: map<string, Sim>, sim: Sim): map<string, Sim> {
    if sim.e.uuid in m || |m| < STORE_MAX then m[sim.e.uuid := sim] else m
  }

  function PutAll(m: map<string, Sim>, entries: seq<Entry>, now: int): map<string, Sim> {
    if entries == [] then m
    else PutBounded(PutAll(m, entries[..|entries| - 1], now), Sim(entries[|entries| - 1], now))
  }

  /** The entries a full store had no place for. */
  function Refusals(m: map<string, Sim>, entries: seq<Entry>, now: int): nat {
    if entries == [] then 0
    else
      var front, last := entries[..|entries| - 1], entries[|entries| - 1];
      var before := PutAll(m, front, now);
      Refusals(m, front, now) + if last.uuid !in before && |before| >= STORE_MAX then 1 else 0
  }

  method Lowered(s: string) returns (r: string)
    ensures r == LowerAll(s)
  {
    r := "";
    for i := 0 to |s|
      invariant r == LowerAll(s)[..i]
    {
      r := r + [if 'A' <= s[i] <= 'Z' then (s[i] as int - 'A' as int + 'a' as int) as char else s[i]];
    }
  }

  method HashOf(s: string) returns (h: nat)
    ensures h == Hash(s)
  {
    h := 2166136261;
    for i := 0 to |s|
      invariant h == Hash(s[..i])
    {
      assert s[..i + 1][..i] == s[..i];
      h := Xor(h, s[i] as int) * 16777619 % 0x1_0000_0000;
    }
    assert s[..|s|] == s;
  }

  class Store {
    const slots: array<Slot>
    var count: nat

    /** The table is sound and counts its keys. */
    ghost predicate Valid()
      reads this, slots
    {
      slots.Length == SLOTS && Chained(slots[..]) && count == |View(slots[..])| <= STORE_MAX
    }

    ghost function Points(): map<string, Sim>
      reads this, slots
      requires Valid()
    {
      View(slots[..])
    }

    constructor ()
      ensures Valid() && Points() == map[] && fresh(slots)
    {
      slots := new Slot[SLOTS](_ => Free);
      count := 0;
      new;
      EmptyTable(slots[..]);
    }

    method Clear()
      requires Valid()
      modifies this, slots
      ensures Valid() && Points() == map[]
    {
      for i := 0 to SLOTS
        invariant forall p :: 0 <= p < i ==> slots[p].Free?
      {
        slots[i] := Free;
      }
      count := 0;
      EmptyTable(slots[..]);
    }

    /** The slot holding the key, or the free one it belongs in, or none exactly when the table is full of other keys.
        */
    method FindSlot(uuid: string, ghost t: Slots) returns (r: Option<nat>)
      requires slots.Length == SLOTS && t == slots[..] && Chained(t)
      ensures r.None? <==> uuid !in View(t) && |View(t)| == SLOTS
      ensures r.Some? ==> r.value < SLOTS && Probe(t, uuid, 0) < SLOTS && r.value == At(Home(uuid), Probe(t, uuid, 0))
      ensures r.Some? ==> t[r.value] == if uuid in View(t) then Used(View(t)[uuid]) else Free
    {
      ProbeEnds(t, uuid);
      r := ProbeSlots(uuid, t);
    }

    method ProbeSlots(uuid: string, ghost t: Slots) returns (r: Option<nat>)
      requires slots.Length == SLOTS && t == slots[..]
      ensures var n := Probe(t, uuid, 0);
              r == if n < SLOTS then Some(At(Home(uuid), n)) else None
    {
      var h := HashOf(uuid);
      for i := 0 to SLOTS
        invariant Probe(t, uuid, 0) == Probe(t, uuid, i)
      {
        MaskedSum(h, i);
        var p := (h + i) % 0x1_0000_0000 % SLOTS;
        assert p == At(Home(uuid), i) && t[p] == slots[p];
        if slots[p].Free? || slots[p].sim.e.uuid == uuid {
          return Some(p);
        }
      }
      return None;
    }

    method PutOne(e: Entry, now: int) returns (stored: bool)
      requires Valid()
      modifies this, slots
      ensures Valid() && Points() == PutBounded(old(Points()), Sim(e, now))
      ensures stored <==> e.uuid in old(Points()) || |old(Points())| < STORE_MAX
    {
      ghost var t: Slots := slots[..];
      var s := FindSlot(e.uuid, t);
      if s.None? || (slots[s.value].Free? && count >= STORE_MAX) {
        return false;
      }
      PutKeeps(t, Sim(e, now));
      CountAfter(View(t), Sim(e, now));
      if slots[s.value].Free? {
        count := count + 1;
      }
      slots[s.value] := Used(Sim(e, now));
      assert slots[..] == t[s.value := Used(Sim(e, now))];
      return true;
    }

    /** A full request first empties the store; entries beyond the bound are dropped and counted. */
    method Apply(full: bool, entries: seq<Entry>, now: int) returns (stored: nat, dropped: nat)
      requires Valid()
      modifies this, slots
      ensures Valid() && Points() == PutAll(if full then map[] else old(Points()), entries, now)
      ensures stored + dropped == |entries|
      ensures dropped == Refusals(if full then map[] else old(Points()), entries, now)
    {
      stored, dropped := 0, 0;
      if full {
        Clear();
      }
      ghost var start := Points();
      for i := 0 to |entries|
        invariant Valid() && Points() == PutAll(start, entries[..i], now) && stored + dropped == i
        invariant dropped == Refusals(start, entries[..i], now)
      {
        assert entries[..i + 1][..i] == entries[..i];
        var ok := PutOne(entries[i], now);
        if ok {
          stored := stored + 1;
        } else {
          dropped := dropped + 1;
        }
      }
      assert entries[..|entries|] == entries;
    }

    /** The stored point of a participant, in any letter case. */
    method Find(uuid: string) returns (r: Option<Sim>)
      requires Valid()
      ensures r == var key := LowerAll(uuid);
                   if 0 < |uuid| < UUID_LEN && key in Points() then Some(Points()[key]) else None
    {
      var n := |uuid|;
      if n == 0 || n >= UUID_LEN {
        return None;
      }
      var key := Lowered(uuid);
      ghost var t: Slots := slots[..];
      var s := FindSlot(key, t);
      if s.Some? && slots[s.value].Used? {
        return Some(slots[s.value].sim);
      }
      return None;
    }
  }
}
