/** The distance cull's per-listener table: one latch per source, the least recently seen one evicted when it is full.
    */
module Hysteresis {
  import opened Common

  datatype Latch = Latch(uuid: string, culled: bool, seen: nat)

  /** Beyond `cutoff` an audible source is culled; inside `readd` a culled one comes back. */
  datatype Limits = Limits(cutoff: real, readd: real)

  /** A uuid as it fits the slot's buffer. */
  function Fit(uuid: string): string {
    if |uuid| < UUID_LEN then uuid else uuid[..UUID_LEN - 1]
  }

  function Find(slots: seq<Latch>, uuid: string): (i: nat)
    ensures i <= |slots|
    ensures i < |slots| ==> slots[i].uuid == uuid
    ensures forall k :: 0 <= k < i ==> slots[k].uuid != uuid
  {
    if slots == [] || slots[0].uuid == uuid then 0 else 1 + Find(slots[1..], uuid)
  }

  function LeastSeen(slots: seq<Latch>): (i: nat)
    requires slots != []
    ensures i < |slots|
    ensures forall k :: 0 <= k < |slots| ==> slots[i].seen <= slots[k].seen
    ensures forall k :: 0 <= k < i ==> slots[i].seen < slots[k].seen
  {
    if |slots| == 1 then 0
    else
      var i := LeastSeen(slots[..|slots| - 1]);
      assert forall k :: 0 <= k < |slots| - 1 ==> slots[k] == slots[..|slots| - 1][k];
      if slots[|slots| - 1].seen < slots[i].seen then |slots| - 1 else i
  }

  /** The two-threshold automaton: first sight is a plain threshold, then each state has its own. */
  function Threshold(lim: Limits, before: Option<bool>, d: real): bool {
    match before
    case None => d > lim.cutoff
    case Some(true) => !(d < lim.readd)
    case Some(false) => d > lim.cutoff
  }

  function Cull(slots: seq<Latch>, lim: Limits, uuid: string, d: real, now: nat): (bool, seq<Latch>) {
    var i := Find(slots, uuid);
    if i < |slots| then
      var culled := Threshold(lim, Some(slots[i].culled), d);
      (culled, slots[i := slots[i].(culled := culled, seen := now)])
    else
      var culled := Threshold(lim, None, d);
      var added := Latch(Fit(uuid), culled, now);
      (culled, if |slots| < MAX_MIX then slots + [added] else slots[LeastSeen(slots) := added])
  }

  class Table {
    const slots: array<Latch>
    var n: nat

    ghost predicate Valid()
      reads this
    {
      slots.Length == MAX_MIX && n <= MAX_MIX
    }

    constructor ()
      ensures Valid() && n == 0 && fresh(slots)
    {
      slots := new Latch[MAX_MIX](i => Latch("", false, 0));
      n := 0;
    }

    /** Whether the source must be dropped from this listener's mix; its latch is found or made, and stamped. */
    method DistanceCull(lim: Limits, uuid: string, d: real, now: nat) returns (culled: bool)
      requires Valid()
      modifies this, slots
      ensures Valid() && (culled, slots[..n]) == Cull(old(slots[..n]), lim, uuid, d, now)
    {
      ghost var was := slots[..n];
      var k := FindSlot(uuid);
      if k == n {
        if n < MAX_MIX {
          n := n + 1;
        } else {
          k := OldestSlot();
        }
        slots[k] := Latch(Fit(uuid), d > lim.cutoff, now);
      } else if slots[k].culled {
        if d < lim.readd {
          slots[k] := slots[k].(culled := false);
        }
      } else if d > lim.cutoff {
        slots[k] := slots[k].(culled := true);
      }
      slots[k] := slots[k].(seen := now);
      culled := slots[k].culled;
      assert slots[..n] == Cull(was, lim, uuid, d, now).1;
    }

    method FindSlot(uuid: string) returns (k: nat)
      requires Valid()
      ensures k == Find(slots[..n], uuid)
    {
      k := 0;
      while k < n && slots[k].uuid != uuid
        invariant k <= n && forall j :: 0 <= j < k ==> slots[j].uuid != uuid
      {
        k := k + 1;
      }
      FindIs(slots[..n], uuid, k);
    }

    method OldestSlot() returns (oldest: nat)
      requires Valid() && n > 0
      ensures oldest == LeastSeen(slots[..n])
    {
      oldest := 0;
      for k := 1 to n
        invariant oldest == LeastSeen(slots[..k])
      {
        assert slots[..k + 1][..k] == slots[..k];
        if slots[k].seen < slots[oldest].seen {
          oldest := k;
        }
      }
    }
  }

  lemma FindIs(slots: seq<Latch>, uuid: string, k: nat)
    requires k <= |slots| && (k < |slots| ==> slots[k].uuid == uuid)
    requires forall j :: 0 <= j < k ==> slots[j].uuid != uuid
    ensures Find(slots, uuid) == k
  {
  }

  // ---- Runs of evaluations ------------------------------------------------------------------------------------------

  /** One source evaluated for this listener in one tick. */
  datatype Eval = Eval(tick: nat, uuid: string, d: real)

  function Run(lim: Limits, evals: seq<Eval>): seq<Latch> {
    if evals == [] then []
    else
      var e := evals[|evals| - 1];
      Cull(Run(lim, evals[..|evals| - 1]), lim, e.uuid, e.d, e.tick).1
  }

  /** The verdict of evaluation n. */
  function Verdict(lim: Limits, evals: seq<Eval>, n: nat): bool
    requires n < |evals|
  {
    Cull(Run(lim, evals[..n]), lim, evals[n].uuid, evals[n].d, evals[n].tick).0
  }

  /** Ticks never run backwards. */
  ghost predicate Ordered(evals: seq<Eval>) {
    forall i, j :: 0 <= i < j < |evals| ==> evals[i].tick <= evals[j].tick
  }

  /** Every uuid fits its buffer. */
  ghost predicate ShortNames(evals: seq<Eval>) {
    forall i :: 0 <= i < |evals| ==> |evals[i].uuid| < UUID_LEN
  }

  ghost predicate Timed(evals: seq<Eval>) {
    Ordered(evals) && ShortNames(evals)
  }

  /** The uuids evaluated in ticks t and t + 1. */
  ghost function Working(evals: seq<Eval>, t: int): set<string> {
    set i | 0 <= i < |evals| && t <= evals[i].tick <= t + 1 :: evals[i].uuid
  }

  /** Any two consecutive ticks evaluate at most as many uuids as the table holds. */
  ghost predicate Fits(evals: seq<Eval>) {
    forall t :: |Working(evals, t)| <= 110
  }

  /** The last evaluation of a uuid, or the length of the run when there is none. */
  function LastOf(evals: seq<Eval>, uuid: string): (n: nat)
    ensures n <= |evals|
    ensures n < |evals| ==> evals[n].uuid == uuid
    ensures forall k :: 0 <= k < |evals| && (n < k || n == |evals|) ==> evals[k].uuid != uuid
  {
    if evals == [] then 0
    else if evals[|evals| - 1].uuid == uuid then |evals| - 1
    else
      var n := LastOf(evals[..|evals| - 1], uuid);
      if n == |evals| - 1 then |evals| else n
  }

  ghost predicate Distinct(slots: seq<Latch>) {
    forall i, j :: 0 <= i < j < |slots| ==> slots[i].uuid != slots[j].uuid
  }

  /** Every latch belongs to the last evaluation of its uuid, and no uuid of the last two ticks is missing. */
  ghost predicate Tracks(lim: Limits, evals: seq<Eval>) {
    AllKept(lim, evals) && forall i :: 0 <= i < |evals| ==> Present(lim, evals, i)
  }

  ghost predicate AllKept(lim: Limits, evals: seq<Eval>) {
    var slots := Run(lim, evals);
    |slots| <= MAX_MIX && Distinct(slots) && forall k :: 0 <= k < |slots| ==> Kept(lim, evals, slots[k])
  }

  /** When evaluation i is in the last two ticks, its uuid is in the table. */
  ghost predicate Present(lim: Limits, evals: seq<Eval>, i: nat)
    requires i < |evals|
  {
    var slots := Run(lim, evals);
    evals[i].tick + 1 >= evals[|evals| - 1].tick ==> Find(slots, evals[i].uuid) < |slots|
  }

  ghost predicate Kept(lim: Limits, evals: seq<Eval>, slot: Latch) {
    var n := LastOf(evals, slot.uuid);
    n < |evals| && slot.seen == evals[n].tick && slot.culled == Verdict(lim, evals, n)
  }

  ghost function Names(slots: seq<Latch>): set<string> {
    set k | 0 <= k < |slots| :: slots[k].uuid
  }

  lemma {:induction false} DistinctCount(slots: seq<Latch>)
    requires Distinct(slots)
    ensures |Names(slots)| == |slots|
  {
    if slots != [] {
      var front, last := slots[..|slots| - 1], slots[|slots| - 1];
      DistinctCount(front);
      assert Names(slots) == Names(front) + {last.uuid};
      assert last.uuid !in Names(front);
    }
  }

  /** A full table that must make room for an evaluated uuid holds one that neither this tick nor the one before
      evaluated. */
  lemma VictimIsOld(lim: Limits, evals: seq<Eval>, n: nat)
    requires n < |evals| && Timed(evals) && Fits(evals) && Tracks(lim, evals[..n])
    requires var slots := Run(lim, evals[..n]); |slots| == MAX_MIX && Find(slots, evals[n].uuid) == |slots|
    ensures var slots := Run(lim, evals[..n]); slots[LeastSeen(slots)].seen + 1 < evals[n].tick
  {
    var slots := Run(lim, evals[..n]);
    if slots[LeastSeen(slots)].seen + 1 >= evals[n].tick {
      var t := evals[n].tick - 1;
      forall u | u in Names(slots) ensures u in Working(evals, t) {
        var k :| 0 <= k < |slots| && slots[k].uuid == u;
        StoredIsWorking(lim, evals, n, k);
      }
      OneMoreName(slots, evals[n].uuid);
      SubsetSize(Names(slots) + {evals[n].uuid}, Working(evals, t));
      assert false;
    }
  }

  lemma OneMoreName(slots: seq<Latch>, uuid: string)
    requires Distinct(slots) && Find(slots, uuid) == |slots|
    ensures |Names(slots) + {uuid}| == |slots| + 1
  {
    DistinctCount(slots);
    assert uuid !in Names(slots);
  }

  lemma StoredIsWorking(lim: Limits, evals: seq<Eval>, n: nat, k: nat)
    requires n < |evals| && Ordered(evals) && k < |Run(lim, evals[..n])|
        && Kept(lim, evals[..n], Run(lim, evals[..n])[k])
    requires Run(lim, evals[..n])[k].seen + 1 >= evals[n].tick
    ensures Run(lim, evals[..n])[k].uuid in Working(evals, evals[n].tick - 1)
  {
    var m := LastOf(evals[..n], Run(lim, evals[..n])[k].uuid);
    assert evals[m] == evals[..n][m] && evals[m].tick <= evals[n].tick;
  }

  lemma LastOfMore(evals: seq<Eval>, e: Eval, uuid: string)
    ensures LastOf(evals + [e], uuid) == if e.uuid == uuid then |evals| else
              if LastOf(evals, uuid) == |evals| then |evals| + 1 else LastOf(evals, uuid)
  {
    assert (evals + [e])[..|evals|] == evals;
  }

  lemma VerdictOfPrefix(lim: Limits, evals: seq<Eval>, n: nat, m: nat)
    requires m < n <= |evals|
    ensures Verdict(lim, evals[..n], m) == Verdict(lim, evals, m)
  {
    assert evals[..n][..m] == evals[..m];
  }

  lemma OthersKept(lim: Limits, evals: seq<Eval>, n: nat, slot: Latch)
    requires n < |evals| && Kept(lim, evals[..n], slot) && slot.uuid != evals[n].uuid
    ensures Kept(lim, evals[..n + 1], slot)
  {
    assert evals[..n + 1] == evals[..n] + [evals[n]];
    LastOfMore(evals[..n], evals[n], slot.uuid);
    var m := LastOf(evals[..n], slot.uuid);
    VerdictOfPrefix(lim, evals, n, m);
    VerdictOfPrefix(lim, evals, n + 1, m);
  }

  lemma OwnKept(lim: Limits, evals: seq<Eval>, n: nat)
    requires n < |evals| && |evals[n].uuid| < UUID_LEN
    ensures Kept(lim, evals[..n + 1], Latch(evals[n].uuid, Verdict(lim, evals, n), evals[n].tick))
  {
    assert evals[..n + 1] == evals[..n] + [evals[n]];
    LastOfMore(evals[..n], evals[n], evals[n].uuid);
    VerdictOfPrefix(lim, evals, n + 1, n);
  }

  /** The slot an evaluation writes. */
  function Target(slots: seq<Latch>, uuid: string): (i: nat)
    requires |slots| <= MAX_MIX
  {
    var i := Find(slots, uuid);
    if i < |slots| || |slots| < MAX_MIX then i else LeastSeen(slots)
  }

  /** An evaluation writes its latch to one slot and leaves every other one alone. */
  lemma CullWrites(slots: seq<Latch>, lim: Limits, e: Eval)
    requires |slots| <= MAX_MIX && |e.uuid| < UUID_LEN
    ensures var (culled, after) := Cull(slots, lim, e.uuid, e.d, e.tick);
            var i := Target(slots, e.uuid);
            && i < |after| <= MAX_MIX && |slots| <= |after| <= |slots| + 1 && (|after| > |slots| ==> i == |slots|)
            && after[i] == Latch(e.uuid, culled, e.tick)
            && forall k :: 0 <= k < |slots| && k != i ==> after[k] == slots[k]
  {
  }

  /** Every latch after an evaluation still belongs to the last evaluation of its uuid, and none is stored twice. */
  lemma StepKeeps(lim: Limits, evals: seq<Eval>, n: nat)
    requires n < |evals| && Timed(evals) && AllKept(lim, evals[..n])
    ensures AllKept(lim, evals[..n + 1])
  {
    var e := evals[n];
    var slots := Run(lim, evals[..n]);
    assert evals[..n + 1][..n] == evals[..n];
    var after := Run(lim, evals[..n + 1]);
    CullWrites(slots, lim, e);
    var i := Target(slots, e.uuid);
    OwnKept(lim, evals, n);
    OthersDiffer(slots, e.uuid);
    forall k | 0 <= k < |after| && k != i ensures Kept(lim, evals[..n + 1], after[k]) {
      assert after[k] == slots[k];
      OthersKept(lim, evals, n, slots[k]);
    }
  }

  lemma OthersDiffer(slots: seq<Latch>, uuid: string)
    requires |slots| <= MAX_MIX && Distinct(slots)
    ensures forall k :: 0 <= k < |slots| && k != Target(slots, uuid) ==> slots[k].uuid != uuid
  {
  }

  lemma StepTracks(lim: Limits, evals: seq<Eval>, n: nat)
    requires n < |evals| && Timed(evals) && Fits(evals) && Tracks(lim, evals[..n])
    ensures Tracks(lim, evals[..n + 1])
  {
    StepKeeps(lim, evals, n);
    var upto := evals[..n + 1];
    forall j | 0 <= j < |upto| ensures Present(lim, upto, j) {
      RecentSurvives(lim, evals, n, j);
    }
  }

  lemma RecentSurvives(lim: Limits, evals: seq<Eval>, n: nat, j: nat)
    requires j <= n < |evals| && Timed(evals) && Fits(evals) && Tracks(lim, evals[..n])
    ensures Present(lim, evals[..n + 1], j)
  {
    var e, u := evals[n], evals[j].uuid;
    var slots := Run(lim, evals[..n]);
    assert evals[..n + 1][..n] == evals[..n] && evals[..n + 1][n] == e && evals[..n + 1][j] == evals[j];
    var after := Run(lim, evals[..n + 1]);
    CullWrites(slots, lim, e);
    if evals[j].tick + 1 >= e.tick {
      if u == e.uuid {
        assert after[Target(slots, u)].uuid == u;
      } else {
        StaysPut(lim, evals, n, j);
        assert after[Find(slots, u)].uuid == u;
      }
    }
  }

  lemma StaysPut(lim: Limits, evals: seq<Eval>, n: nat, j: nat)
    requires j < n < |evals| && Timed(evals) && Fits(evals) && Tracks(lim, evals[..n])
    requires evals[j].tick + 1 >= evals[n].tick && evals[j].uuid != evals[n].uuid
    ensures var slots := Run(lim, evals[..n]);
            Find(slots, evals[j].uuid) < |slots| && Find(slots, evals[j].uuid) != Target(slots, evals[n].uuid)
  {
    SeenLately(lim, evals, n, j);
    var slots := Run(lim, evals[..n]);
    if |slots| == MAX_MIX && Find(slots, evals[n].uuid) == |slots| {
      VictimIsOld(lim, evals, n);
    }
  }

  lemma SeenLately(lim: Limits, evals: seq<Eval>, n: nat, j: nat)
    requires j < n < |evals| && Ordered(evals) && Tracks(lim, evals[..n]) && evals[j].tick + 1 >= evals[n].tick
    ensures var slots := Run(lim, evals[..n]);
            var k := Find(slots, evals[j].uuid);
            k < |slots| && slots[k].seen + 1 >= evals[n].tick
  {
    var u, slots := evals[j].uuid, Run(lim, evals[..n]);
    assert evals[..n][j] == evals[j] && evals[..n][n - 1].tick <= evals[n].tick && Present(lim, evals[..n], j);
    assert Kept(lim, evals[..n], slots[Find(slots, u)]);
    var m := LastOf(evals[..n], u);
    assert evals[..n][m] == evals[m] && j <= m;
  }

  lemma {:induction false} RunTracks(lim: Limits, evals: seq<Eval>, n: nat)
    requires n <= |evals| && Timed(evals) && Fits(evals)
    ensures Tracks(lim, evals[..n])
  {
    if n > 0 {
      RunTracks(lim, evals, n - 1);
      StepTracks(lim, evals, n - 1);
    }
  }

  /** Stored uuids stay distinct, and eviction never displaces a uuid evaluated in this tick or the one before. */
  lemma EvictionSparesRecent(lim: Limits, evals: seq<Eval>, n: nat, j: nat)
    requires j < n <= |evals| && Timed(evals) && Fits(evals) && evals[j].tick + 1 >= evals[n - 1].tick
    ensures var slots := Run(lim, evals[..n]);
            Distinct(slots) && |slots| <= MAX_MIX && exists k :: 0 <= k < |slots| && slots[k].uuid == evals[j].uuid
  {
    RunTracks(lim, evals, n);
    assert evals[..n][j] == evals[j] && evals[..n][n - 1] == evals[n - 1] && Present(lim, evals[..n], j);
    var slots := Run(lim, evals[..n]);
    assert slots[Find(slots, evals[j].uuid)].uuid == evals[j].uuid;
  }

  /** The automaton run over the evaluations of one uuid alone. */
  function Automaton(lim: Limits, evals: seq<Eval>, uuid: string): Option<bool> {
    if evals == [] then None
    else
      var before, e := Automaton(lim, evals[..|evals| - 1], uuid), evals[|evals| - 1];
      if e.uuid != uuid then before
      else Some(if before == Some(true) then e.d >= lim.readd else e.d > lim.cutoff)
  }

  /** From its first evaluation on, the source is evaluated every tick. */
  ghost predicate EveryTick(evals: seq<Eval>, uuid: string) {
    forall n :: 0 <= n < |evals| && evals[n].uuid == uuid ==> LastBefore(evals, n) < n ==>
      evals[n].tick <= evals[LastBefore(evals, n)].tick + 1
  }

  /** The evaluation of the same uuid before evaluation n, or n when n is the first. */
  function LastBefore(evals: seq<Eval>, n: nat): (m: nat)
    requires n < |evals|
    ensures m <= n
  {
    LastOf(evals[..n], evals[n].uuid)
  }

  lemma {:induction false} AutomatonSkips(lim: Limits, evals: seq<Eval>, uuid: string)
    ensures var m := LastOf(evals, uuid);
            Automaton(lim, evals, uuid) == if m == |evals| then None else Automaton(lim, evals[..m + 1], uuid)
  {
    if evals != [] && evals[|evals| - 1].uuid != uuid {
      AutomatonSkips(lim, evals[..|evals| - 1], uuid);
      var m := LastOf(evals[..|evals| - 1], uuid);
      if m < |evals| - 1 {
        assert evals[..|evals| - 1][..m + 1] == evals[..m + 1];
      }
    } else if evals != [] {
      assert evals[..|evals|] == evals;
    }
  }

  /** A verdict follows from the verdict before it by one step of the automaton. */
  lemma VerdictOfLast(lim: Limits, evals: seq<Eval>, n: nat)
    requires n < |evals| && Timed(evals) && Fits(evals) && EveryTick(evals, evals[n].uuid)
    ensures var m := LastBefore(evals, n);
            Verdict(lim, evals, n) == Threshold(lim, if m < n then Some(Verdict(lim, evals, m)) else None, evals[n].d)
  {
    LatchOfLast(lim, evals, n);
  }

  lemma AutomatonOfLast(lim: Limits, evals: seq<Eval>, n: nat)
    requires n < |evals|
    ensures var m, u := LastBefore(evals, n), evals[n].uuid;
            Automaton(lim, evals[..n + 1], u)
            == Some(Threshold(lim, if m < n then Automaton(lim, evals[..m + 1], u) else None, evals[n].d))
  {
    var m, u := LastBefore(evals, n), evals[n].uuid;
    assert evals[..n + 1][..n] == evals[..n];
    AutomatonSkips(lim, evals[..n], u);
    if m < n {
      assert evals[..n][..m + 1] == evals[..m + 1];
    }
  }

  /** A source evaluated every tick follows exactly the two-threshold automaton: its verdict is the automaton's over its
      own evaluations, whatever the other sources do to the table. */
  lemma {:induction false} FollowsAutomaton(lim: Limits, evals: seq<Eval>, n: nat)
    requires n < |evals| && Timed(evals) && Fits(evals) && EveryTick(evals, evals[n].uuid)
    ensures Automaton(lim, evals[..n + 1], evals[n].uuid) == Some(Verdict(lim, evals, n))
    decreases n
  {
    var m := LastBefore(evals, n);
    if m < n {
      assert evals[..n][m] == evals[m];
      FollowsAutomaton(lim, evals, m);
    }
    AutomatonOfLast(lim, evals, n);
    VerdictOfLast(lim, evals, n);
  }

  /** The latch an evaluation finds is the verdict of the evaluation before it, and there is none exactly at first
      sight. */
  lemma LatchOfLast(lim: Limits, evals: seq<Eval>, n: nat)
    requires n < |evals| && Timed(evals) && Fits(evals) && EveryTick(evals, evals[n].uuid)
    ensures var slots, m := Run(lim, evals[..n]), LastBefore(evals, n);
            var k := Find(slots, evals[n].uuid);
            && (k < |slots| <==> m < n)
            && (m < n ==> slots[k].culled == Verdict(lim, evals, m))
  {
    var u := evals[n].uuid;
    var m := LastBefore(evals, n);
    RunTracks(lim, evals, n);
    var slots := Run(lim, evals[..n]);
    var k := Find(slots, u);
    if k < |slots| {
      assert Kept(lim, evals[..n], slots[k]);
      VerdictOfPrefix(lim, evals, n, m);
    }
    if m < n {
      assert evals[..n][m] == evals[m] && Present(lim, evals[..n], m);
      assert evals[..n][n - 1] == evals[n - 1];
    }
  }

  // ---- The band -----------------------------------------------------------------------------------------------------

  /** A source culled at its evaluation before stays culled until it is below the re-add distance; any other is culled
      beyond the cutoff. */
  lemma BandStep(lim: Limits, evals: seq<Eval>, n: nat)
    requires n < |evals| && Timed(evals) && Fits(evals) && EveryTick(evals, evals[n].uuid)
    ensures var m, d := LastBefore(evals, n), evals[n].d;
            Verdict(lim, evals, n) <==> if m < n && Verdict(lim, evals, m) then d >= lim.readd else d > lim.cutoff
  {
    VerdictOfLast(lim, evals, n);
  }

  /** Evaluation j put the source of evaluation n beyond the cutoff, and none of its evaluations since, n included,
      brought it below the re-add distance. */
  ghost predicate BeyondSince(lim: Limits, evals: seq<Eval>, j: nat, n: nat)
    requires n < |evals|
  {
    && j <= n && evals[j].uuid == evals[n].uuid && evals[j].d > lim.cutoff
    && forall m :: j < m <= n && evals[m].uuid == evals[n].uuid ==> evals[m].d >= lim.readd
  }

  ghost predicate Beyond(lim: Limits, evals: seq<Eval>, n: nat)
    requires n < |evals|
  {
    exists j: nat :: BeyondSince(lim, evals, j, n)
  }

  lemma BeyondStep(lim: Limits, evals: seq<Eval>, n: nat)
    requires n < |evals| && lim.readd <= lim.cutoff
    ensures var m, d := LastBefore(evals, n), evals[n].d;
            Beyond(lim, evals, n) <==> if m < n && Beyond(lim, evals, m) then d >= lim.readd else d > lim.cutoff
  {
    var m, d := LastBefore(evals, n), evals[n].d;
    assert forall k :: 0 <= k < n && evals[k].uuid == evals[n].uuid ==> evals[..n][k] == evals[k];
    if m < n {
      assert evals[..n][m] == evals[m];
      forall j: nat | j < n ensures BeyondSince(lim, evals, j, n) <==> BeyondSince(lim, evals, j, m) && d >= lim.readd {
        assert forall k :: m < k < n ==> evals[..n][k] == evals[k] && evals[k].uuid != evals[n].uuid;
      }
    } else {
      assert forall j: nat :: BeyondSince(lim, evals, j, n) ==> j == n;
    }
    assert d > lim.cutoff ==> BeyondSince(lim, evals, n, n);
    assert forall j: nat :: BeyondSince(lim, evals, j, n) && j == n ==> d > lim.cutoff;
  }

  /** Over every run: a source evaluated every tick is culled if and only if some evaluation had it beyond the cutoff
      and none since had it below the re-add distance. */
  lemma {:induction false} CulledExactly(lim: Limits, evals: seq<Eval>, n: nat)
    requires n < |evals| && Timed(evals) && Fits(evals) && EveryTick(evals, evals[n].uuid) && lim.readd <= lim.cutoff
    ensures Verdict(lim, evals, n) <==> Beyond(lim, evals, n)
    decreases n
  {
    var m := LastBefore(evals, n);
    if m < n {
      assert evals[..n][m] == evals[m];
      CulledExactly(lim, evals, m);
    }
    BandStep(lim, evals, n);
    BeyondStep(lim, evals, n);
  }

  // ---- Displays that do not fit -------------------------------------------------------------------------------------

  lemma {:induction false} StoredNamesFit(lim: Limits, evals: seq<Eval>)
    ensures forall k :: 0 <= k < |Run(lim, evals)| ==> |Run(lim, evals)[k].uuid| < UUID_LEN
  {
    if evals != [] {
      StoredNamesFit(lim, evals[..|evals| - 1]);
    }
  }

  /** In every run a display that does not fit its buffer is never found: each evaluation is a first sight, and each
      stores the truncation once more while there is room. */
  lemma LongDisplayForgets(lim: Limits, evals: seq<Eval>, n: nat)
    requires n < |evals| && |evals[n].uuid| >= 40
    ensures var before, after, e := Run(lim, evals[..n]), Run(lim, evals[..n + 1]), evals[n];
            && Find(before, e.uuid) == |before| && Find(after, e.uuid) == |after|
            && Verdict(lim, evals, n) == (e.d > lim.cutoff)
            && (|before| < MAX_MIX ==> after == before + [Latch(e.uuid[..39], e.d > lim.cutoff, e.tick)])
  {
    assert evals[..n + 1][..n] == evals[..n];
    StoredNamesFit(lim, evals[..n]);
    StoredNamesFit(lim, evals[..n + 1]);
  }

  /** The uuid of every evaluation of the last two ticks is in the table, at every point of the run. */
  ghost predicate RecentStored(lim: Limits, evals: seq<Eval>) {
    forall n, j :: 0 <= j < n <= |evals| && evals[j].tick + 1 >= evals[n - 1].tick ==>
      Find(Run(lim, evals[..n]), evals[j].uuid) < |Run(lim, evals[..n])|
  }

  /** When any two consecutive ticks evaluate at most as many sources as the table holds, the table never loses a recent
      one if and only if every display fits its buffer. */
  lemma RecentStoredExactly(lim: Limits, evals: seq<Eval>)
    requires Ordered(evals) && Fits(evals)
    ensures RecentStored(lim, evals) <==> ShortNames(evals)
  {
    if ShortNames(evals) {
      forall n, j | 0 <= j < n <= |evals| && evals[j].tick + 1 >= evals[n - 1].tick
        ensures Find(Run(lim, evals[..n]), evals[j].uuid) < |Run(lim, evals[..n])|
      {
        EvictionSparesRecent(lim, evals, n, j);
      }
    } else {
      var i :| 0 <= i < |evals| && |evals[i].uuid| >= UUID_LEN;
      LongDisplayForgets(lim, evals, i);
      assert Find(Run(lim, evals[..i + 1]), evals[i].uuid) == |Run(lim, evals[..i + 1])|;
    }
  }
}
