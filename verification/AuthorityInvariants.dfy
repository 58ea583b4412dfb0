/** What every reachable state of the authority keeps: records carry the adopted epoch, and a listener that lost its
    standing regains it through a replace only. */
module AuthorityInvariants {
  import opened Common
  import opened VisBatch
  import opened Authority
  import Deferred

  ghost predicate AuthInv(auth: Auth) {
    && (auth.epoch == 0 ==> auth.records == map[] && auth.policyGen == 0)
    && |auth.records| <= MAX_RECORDS
    && forall L :: L in auth.records ==> auth.records[L].epoch == auth.epoch && auth.records[L].gen <= auth.policyGen
  }

  function Get(records: map<string, Record>, L: string): Option<Record> {
    if L in records then Some(records[L]) else None
  }

  // ---- What a batch does to one record -----------------------------------------------------------------------------

  /** A record after a batch that names its listener, when the table is not full. */
  function NamedRecord(records: map<string, Record>, b: Batch, epoch: nat, now: int, L: string): Option<Record>
    requires b.stamp.Some?
  {
    var gen := b.stamp.value.generation;
    if b.op.Replace? then
      var r := if L in records then records[L] else Record(0, 0, 0, false, {}, {});
      Some(Mirrored(Record(epoch, gen, now, false, r.excl, r.mute), b, L))
    else if BaseMatches(records, epoch, b, L) then Some(Mirrored(records[L].(gen := gen, confirmed := now), b, L))
    else if L in records then Some(records[L].(stale := true))
    else None
  }

  /** Walking the named listeners in any order gives each its own update, and changes no other record. */
  lemma {:induction false} NameAllEffect(t: Tally, b: Batch, epoch: nat, now: int, order: seq<string>, L: string)
    requires b.stamp.Some? && Deferred.NoDuplicates(order)
    ensures var after := NameAll(t, b, epoch, now, order);
            && (L !in order ==> Get(after.records, L) == Get(t.records, L))
            && (L in order ==>
                  || Get(after.records, L) == NamedRecord(t.records, b, epoch, now, L)
                  || (b.op.Replace? && L in after.unarmed && L !in t.records && L !in after.records))
            && (forall M :: M in after.unarmed ==>
              M in t.unarmed || (M in order && b.op.Replace? && M !in t.records && M !in after.records))
            && (forall M :: M in after.stale ==>
              M in t.stale || (M in order && !b.op.Replace? && !BaseMatches(t.records, epoch, b, M)))
            && (L in order && !b.op.Replace? && !BaseMatches(t.records, epoch, b, L) ==> L in after.stale)
  {
    if order != [] {
      var front, M := order[..|order| - 1], order[|order| - 1];
      var before := NameAll(t, b, epoch, now, front);
      NameAllEffect(t, b, epoch, now, front, L);
      NameAllEffect(t, b, epoch, now, front, M);
      assert order == front + [M];
      assert M !in front;
      assert Get(before.records, M) == Get(t.records, M);
      assert L in order <==> L in front || L == M;
      var after := NameOne(before, b, epoch, now, M);
      if L != M {
        assert Get(after.records, L) == Get(before.records, L);
      }
      forall N | N in after.unarmed && N !in t.unarmed
        ensures N in order && b.op.Replace? && N !in t.records && N !in after.records
      {
        if N in before.unarmed {
          assert N != M;
        } else {
          assert N == M;
        }
      }
      forall N | N in after.stale && N !in t.stale
        ensures N in order && !b.op.Replace? && !BaseMatches(t.records, epoch, b, N)
      {
        if N !in before.stale {
          assert N == M;
        }
      }
    }
  }

  lemma {:induction false} NameAllKeeps(t: Tally, b: Batch, epoch: nat, now: int, order: seq<string>, gen: nat)
    requires b.stamp.Some? && epoch > 0 && |t.records| <= MAX_RECORDS
    requires gen < b.stamp.value.generation
    requires forall L :: L in t.records ==> t.records[L].epoch == epoch && t.records[L].gen <= gen
    ensures var after := NameAll(t, b, epoch, now, order);
            && |after.records| <= MAX_RECORDS
            && forall L :: L in after.records ==>
              after.records[L].epoch == epoch && after.records[L].gen <= b.stamp.value.generation
  {
    if order != [] {
      NameAllKeeps(t, b, epoch, now, order[..|order| - 1], gen);
    }
  }

  // ---- Every step keeps the invariant -------------------------------------------------------------------------------

  lemma AdoptedKeeps(cfg: Settings, auth: Auth, incoming: nat, now: int)
    requires AuthInv(auth) && incoming > 0
    ensures AuthInv(Adopted(cfg, auth, incoming, now))
    ensures !VerdictOn(cfg, auth, incoming, now).StaleEpoch? ==> Adopted(cfg, auth, incoming, now).epoch == incoming
  {
  }

  lemma BatchKeeps(cfg: Settings, auth: Auth, b: Batch, now: int, order: seq<string>)
    requires AuthInv(auth) && Parsed(b)
    ensures AuthInv(BatchAuthority(cfg, auth, b, now, order).1)
  {
    if b.stamp.Some? {
      var stamp := b.stamp.value;
      var adopted := Adopted(cfg, auth, stamp.epoch, now);
      AdoptedKeeps(cfg, auth, stamp.epoch, now);
      if !VerdictOn(cfg, auth, stamp.epoch, now).StaleEpoch? && stamp.generation > adopted.policyGen {
        NameAllKeeps(Tally(adopted.records, [], []), b, adopted.epoch, now, order, adopted.policyGen);
      }
    }
  }

  lemma {:induction false} ConfirmAllKeeps(t: Tally, epoch: nat, now: int, listed: seq<Listed>)
    ensures var after := ConfirmAll(t, epoch, now, listed);
            && after.records.Keys == t.records.Keys
            && (forall L :: L in t.records ==>
                 && after.records[L]
                   == t.records[L].(confirmed := after.records[L].confirmed, stale := after.records[L].stale)
                 && (t.records[L].stale ==> after.records[L].stale)
                 && (after.records[L].confirmed == now || after.records[L].confirmed == t.records[L].confirmed))
  {
    if listed != [] {
      ConfirmAllKeeps(t, epoch, now, listed[..|listed| - 1]);
    }
  }

  lemma FilterSize(records: map<string, Record>, names: set<string>)
    ensures |map L | L in records && L in names :: records[L]| <= |records|
  {
    var kept := map L | L in records && L in names :: records[L];
    SubsetSize(kept.Keys, records.Keys);
    assert |kept| == |kept.Keys| && |records| == |records.Keys|;
  }

  lemma HeartbeatKeeps(cfg: Settings, auth: Auth, hb: Heartbeat, now: int)
    requires AuthInv(auth) && hb.epoch > 0
    ensures AuthInv(HeartbeatAuth(cfg, auth, hb, now).1)
  {
    var adopted := Adopted(cfg, auth, hb.epoch, now);
    AdoptedKeeps(cfg, auth, hb.epoch, now);
    ConfirmAllKeeps(Tally(adopted.records, [], []), adopted.epoch, now, hb.listeners);
    var t := ConfirmAll(Tally(adopted.records, [], []), adopted.epoch, now, hb.listeners);
    FilterSize(t.records, ListedNames(hb.listeners));
    assert |t.records| == |t.records.Keys| == |adopted.records.Keys| == |adopted.records|;
    var marked := MarkAllStale(adopted.records);
    assert marked.Keys == adopted.records.Keys;
    assert |marked| == |marked.Keys|;
  }

  lemma StepInv(cfg: Settings, room: Room, event: Event)
    requires AuthInv(room.auth) && Admissible(room, event)
    ensures AuthInv(Step(cfg, room, event).1.auth)
  {
    match event {
      case BatchMessage(now, batch, order) => BatchKeeps(cfg, room.auth, batch, now, order);
      case HeartbeatMessage(now, heartbeat) => HeartbeatKeeps(cfg, room.auth, heartbeat, now);
      case Join(_, _) =>
      case Leave(_) =>
    }
  }

  /** In every reachable state each record carries the adopted, non-zero epoch and a generation at most the room's, so
      no display ever stands in row 2. */
  lemma RowTwoUnreachable(cfg: Settings, events: seq<Event>, display: Option<string>, now: int)
    requires AdmissibleRun(cfg, BORN, events)
    ensures var auth := Run(cfg, BORN, events).auth;
            && RowOf(cfg, auth, display, now) != 2
            && forall L :: L in auth.records ==>
                 0 < auth.epoch == auth.records[L].epoch && auth.records[L].gen <= auth.policyGen
  {
    RunInv(cfg, BORN, events);
  }

  // ---- Regaining standing -------------------------------------------------------------------------------------------

  /** Disarmed, or marked stale: in neither case row 4. */
  predicate Down(auth: Auth, L: string) {
    L !in auth.records || auth.records[L].stale
  }

  /** An accepted replace that names `L` and found room for it. */
  predicate Rearms(cfg: Settings, auth: Auth, event: Event, L: string) {
    && event.BatchMessage?
    && event.batch.stamp.Some? && event.batch.op.Replace? && L in Named(event.batch)
    && var out := BatchAuthority(cfg, auth, event.batch, event.now, event.order).0;
       !out.verdict.StaleEpoch? && !out.staleGeneration && L !in out.unarmed
  }

  lemma BatchRearm(cfg: Settings, auth: Auth, b: Batch, now: int, order: seq<string>, L: string)
    requires Down(auth, L) && Walks(order, Named(b))
    ensures var after := BatchAuthority(cfg, auth, b, now, order).1;
            && (!Down(after, L) <==> Rearms(cfg, auth, BatchMessage(now, b, order), L))
            && (!Down(after, L) ==> RowOf(cfg, after, Some(L), now) != 3)
  {
    if b.stamp.Some? {
      var stamp := b.stamp.value;
      var adopted := Adopted(cfg, auth, stamp.epoch, now);
      assert Down(adopted, L);
      assert L in Named(b) <==> L in order;
      if !VerdictOn(cfg, auth, stamp.epoch, now).StaleEpoch? && stamp.generation > adopted.policyGen {
        NameAllEffect(Tally(adopted.records, [], []), b, adopted.epoch, now, order, L);
      }
    }
  }

  lemma HeartbeatNeverRearms(cfg: Settings, auth: Auth, hb: Heartbeat, now: int, L: string)
    requires Down(auth, L)
    ensures Down(HeartbeatAuth(cfg, auth, hb, now).1, L)
  {
    var adopted := Adopted(cfg, auth, hb.epoch, now);
    ConfirmAllKeeps(Tally(adopted.records, [], []), adopted.epoch, now, hb.listeners);
  }

  /** A disarmed or stale-marked listener stands again exactly after an accepted replace naming it (with room for its
      record), and then at once in row 4; no heartbeat, delta, join or leave does it. */
  lemma OnlyReplaceRearms(cfg: Settings, room: Room, event: Event, L: string)
    requires AuthInv(room.auth) && Admissible(room, event) && Down(room.auth, L)
    ensures forall now :: RowOf(cfg, room.auth, Some(L), now) != 4
    ensures !Down(Step(cfg, room, event).1.auth, L) <==> Rearms(cfg, room.auth, event, L)
    ensures Rearms(cfg, room.auth, event, L) ==> RowOf(cfg, Step(cfg, room, event).1.auth, Some(L), event.now) == 4
  {
    match event {
      case BatchMessage(now, batch, order) =>
        BatchRearm(cfg, room.auth, batch, now, order, L);
        BatchKeeps(cfg, room.auth, batch, now, order);
      case HeartbeatMessage(now, heartbeat) => HeartbeatNeverRearms(cfg, room.auth, heartbeat, now, L);
      case Join(_, _) =>
      case Leave(_) =>
    }
  }

  lemma {:induction false} RunInv(cfg: Settings, room: Room, events: seq<Event>)
    requires AuthInv(room.auth) && AdmissibleRun(cfg, room, events)
    ensures AuthInv(Run(cfg, room, events).auth)
  {
    if events != [] {
      RunInv(cfg, room, events[..|events| - 1]);
      StepInv(cfg, Run(cfg, room, events[..|events| - 1]), events[|events| - 1]);
    }
  }

  lemma {:induction false} SomeReplaceRearmed(cfg: Settings, room: Room, events: seq<Event>, L: string) returns (k: nat)
    requires AuthInv(room.auth) && AdmissibleRun(cfg, room, events)
    requires Down(room.auth, L) && !Down(Run(cfg, room, events).auth, L)
    ensures k < |events| && Rearms(cfg, Run(cfg, room, events[..k]).auth, events[k], L)
  {
    var front := events[..|events| - 1];
    RunInv(cfg, room, front);
    if Down(Run(cfg, room, front).auth, L) {
      k := |events| - 1;
      OnlyReplaceRearms(cfg, Run(cfg, room, front), events[k], L);
    } else {
      k := SomeReplaceRearmed(cfg, room, front, L);
      assert front[..k] == events[..k];
    }
  }

  /** Over whole runs: whoever had lost its standing and is in row 4 again was named by an accepted replace in between.
      */
  lemma RegainedThroughReplace(cfg: Settings, room: Room, events: seq<Event>, L: string, now: int)
    requires AuthInv(room.auth) && AdmissibleRun(cfg, room, events) && Down(room.auth, L)
    requires RowOf(cfg, Run(cfg, room, events).auth, Some(L), now) == 4
    ensures exists k :: 0 <= k < |events| && Rearms(cfg, Run(cfg, room, events[..k]).auth, events[k], L)
  {
    var k := SomeReplaceRearmed(cfg, room, events, L);
  }
}
