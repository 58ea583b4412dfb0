/** The rules of the authority told from messages and answers alone: whose epoch is heard, whose generation counts, and
    what a listener's standing rests on. */
module AuthorityRules {
  import opened Common
  import opened VisBatch
  import opened Authority
  import opened AuthorityInvariants

  // ---- What a sender is told ----------------------------------------------------------------------------------------

  /** The epoch a message carries. */
  function EpochIn(event: Event): Option<nat> {
    match event
    case BatchMessage(_, batch, _) => if batch.stamp.Some? then Some(batch.stamp.value.epoch) else None
    case HeartbeatMessage(_, heartbeat) => Some(heartbeat.epoch)
    case _ => None
  }

  function TimeIn(event: Event): int
    requires EpochIn(event).Some?
  {
    event.now
  }

  /** What the check of a batch answers. */
  function BatchReply(cfg: Settings, room: Room, event: Event): Outcome
    requires event.BatchMessage?
  {
    BatchAuthority(cfg, room.auth, event.batch, event.now, event.order).0
  }

  /** The reply says stale_epoch; a batch is told so even where nothing is enforced. */
  predicate ToldStaleEpoch(cfg: Settings, room: Room, event: Event) {
    if event.BatchMessage? then BatchReply(cfg, room, event).verdict.StaleEpoch?
    else Step(cfg, room, event).0.StaleEpochAnswer?
  }

  /** The message carries an epoch and is refused neither for it nor for a starved feed. */
  predicate Heard(cfg: Settings, room: Room, event: Event) {
    && EpochIn(event).Some? && !ToldStaleEpoch(cfg, room, event)
    && !Step(cfg, room, event).0.FeedStaleAnswer?
  }

  /** A heartbeat whose feed is older than the window; one that announces a stop is believed however old it is. */
  predicate FeedTooOld(cfg: Settings, event: Event) {
    && event.HeartbeatMessage? && !event.heartbeat.stopping
    && event.heartbeat.feedAge.Some? && event.heartbeat.feedAge.value > cfg.staleMs
  }

  predicate SaysStopping(event: Event) {
    event.HeartbeatMessage? && event.heartbeat.stopping
  }

  ghost predicate HeardAt(cfg: Settings, events: seq<Event>, k: nat)
    requires k < |events|
  {
    Heard(cfg, Run(cfg, BORN, events[..k]), events[k])
  }

  /** Event k is the last message heard. */
  ghost predicate LastHeard(cfg: Settings, events: seq<Event>, k: nat) {
    && k < |events| && HeardAt(cfg, events, k)
    && forall m :: k < m < |events| ==> !HeardAt(cfg, events, m)
  }

  lemma UnheardKeepsAuth(cfg: Settings, room: Room, event: Event)
    requires !Heard(cfg, room, event)
    ensures Step(cfg, room, event).1.auth == room.auth
  {
  }

  /** The authority is that of this message. */
  predicate SpeaksFor(auth: Auth, event: Event) {
    && EpochIn(event) == Some(auth.epoch) && TimeIn(event) > 0
    && auth.lastAccept == if SaysStopping(event) then 0 else TimeIn(event)
  }

  lemma HeardSetsAuth(cfg: Settings, room: Room, event: Event)
    requires AuthInv(room.auth) && Admissible(room, event) && Heard(cfg, room, event)
    ensures SpeaksFor(Step(cfg, room, event).1.auth, event)
  {
  }

  /** The authority's epoch and time are those of the last message heard. */
  lemma {:induction false} AuthOfLastHeard(cfg: Settings, events: seq<Event>, k: nat)
    requires AdmissibleRun(cfg, BORN, events) && LastHeard(cfg, events, k)
    ensures SpeaksFor(Run(cfg, BORN, events).auth, events[k])
    decreases |events|
  {
    var n := |events| - 1;
    if k == n {
      RunInv(cfg, BORN, events[..n]);
      HeardSetsAuth(cfg, Run(cfg, BORN, events[..n]), events[n]);
    } else {
      LastInFront(cfg, events, k);
      AuthOfLastHeard(cfg, events[..n], k);
    }
  }

  lemma LastInFront(cfg: Settings, events: seq<Event>, k: nat)
    requires LastHeard(cfg, events, k) && k < |events| - 1
    ensures var front := events[..|events| - 1];
            LastHeard(cfg, front, k) && Run(cfg, BORN, events).auth == Run(cfg, BORN, front).auth
  {
    HeardInFront(cfg, events);
    assert !HeardAt(cfg, events, |events| - 1);
    UnheardKeepsAuth(cfg, Run(cfg, BORN, events[..|events| - 1]), events[|events| - 1]);
  }

  lemma HeardInFront(cfg: Settings, events: seq<Event>)
    requires events != []
    ensures var front := events[..|events| - 1];
            forall m :: 0 <= m < |front| ==> HeardAt(cfg, front, m) == HeardAt(cfg, events, m)
  {
    var front := events[..|events| - 1];
    forall m | 0 <= m < |front| ensures HeardAt(cfg, front, m) == HeardAt(cfg, events, m) {
      assert front[..m] == events[..m];
    }
  }

  lemma {:induction false} NothingHeard(cfg: Settings, events: seq<Event>)
    requires forall m :: 0 <= m < |events| ==> !HeardAt(cfg, events, m)
    ensures Run(cfg, BORN, events).auth == NO_AUTH
  {
    if events != [] {
      var n := |events| - 1;
      HeardInFront(cfg, events);
      NothingHeard(cfg, events[..n]);
      assert !HeardAt(cfg, events, n);
      UnheardKeepsAuth(cfg, Run(cfg, BORN, events[..n]), events[n]);
    }
  }

  // ---- Adoption -----------------------------------------------------------------------------------------------------

  /** Over every run: with e and a the epoch and time of the last message heard, a message is told stale_epoch if and
      only if its epoch is below e and it comes within the window of a, unless that last message said the authority was
      stopping. A message not heard changes nothing; one heard under another epoch leaves only what it armed itself. */
  lemma AdoptionExactly(cfg: Settings, events: seq<Event>, k: nat, event: Event)
    requires AdmissibleRun(cfg, BORN, events) && Admissible(Run(cfg, BORN, events), event)
    requires LastHeard(cfg, events, k) && EpochIn(event).Some?
    ensures var room, e, a := Run(cfg, BORN, events), EpochIn(events[k]).value, TimeIn(events[k]);
            var after := Step(cfg, room, event).1.auth;
            && (Step(cfg, room, event).0.FeedStaleAnswer? <==> FeedTooOld(cfg, event))
            && (ToldStaleEpoch(cfg, room, event) <==>
                  && EpochIn(event).value < e && !FeedTooOld(cfg, event)
                  && !SaysStopping(events[k]) && TimeIn(event) - a <= cfg.StaleUs())
            && (cfg.Enforced() || event.HeartbeatMessage? ==>
                  (Step(cfg, room, event).0.StaleEpochAnswer? <==> ToldStaleEpoch(cfg, room, event)))
            && (!Heard(cfg, room, event) ==> after == room.auth)
            && (Heard(cfg, room, event) ==> after.epoch == EpochIn(event).value)
            && (Heard(cfg, room, event) && EpochIn(event).value != e ==> ArmedBy(after.records, event))
  {
    AuthOfLastHeard(cfg, events, k);
    RunInv(cfg, BORN, events);
    var room := Run(cfg, BORN, events);
    if Heard(cfg, room, event) {
      HeardSetsAuth(cfg, room, event);
      if EpochIn(event).value != room.auth.epoch {
        HeardElsewhere(cfg, room, event);
      }
    } else {
      UnheardKeepsAuth(cfg, room, event);
    }
  }

  lemma HeardElsewhere(cfg: Settings, room: Room, event: Event)
    requires AuthInv(room.auth) && Admissible(room, event) && Heard(cfg, room, event)
    requires EpochIn(event).value != room.auth.epoch
    ensures ArmedBy(Step(cfg, room, event).1.auth.records, event)
  {
    match event {
      case BatchMessage(now, b, order) =>
        var none: map<string, Record> := map[];
        forall L ensures L in NameAll(Tally(none, [], []), b, b.stamp.value.epoch, now, order).records ==>
                    b.op.Replace? && IsNamed(b, L) {
          NameAllEffect(Tally(none, [], []), b, b.stamp.value.epoch, now, order, L);
          NamedIs(b, L);
        }
      case HeartbeatMessage(now, hb) =>
        ConfirmAllKeeps(Tally(map[], [], []), hb.epoch, now, hb.listeners);
    }
  }

  /** Nothing heard yet: every message is heard, but for a starved feed. */
  lemma FirstIsHeard(cfg: Settings, events: seq<Event>, event: Event)
    requires forall m :: 0 <= m < |events| ==> !HeardAt(cfg, events, m)
    requires EpochIn(event).Some?
    ensures Heard(cfg, Run(cfg, BORN, events), event) <==> !FeedTooOld(cfg, event)
  {
    NothingHeard(cfg, events);
  }

  /** An entry of either channel is for L. */
  ghost predicate IsNamed(b: Batch, L: string) {
    || (exists i :: 0 <= i < |b.entries| && b.entries[i].listener == L)
    || (exists i :: 0 <= i < |b.muteEntries| && b.muteEntries[i].listener == L)
  }

  lemma NamedIs(b: Batch, L: string)
    ensures L in Named(b) <==> IsNamed(b, L)
  {
    EntryIs(b.entries, L);
    EntryIs(b.muteEntries, L);
  }

  lemma EntryIs(entries: seq<Entry>, L: string)
    ensures L in Listeners(entries) <==> exists i :: 0 <= i < |entries| && entries[i].listener == L
  {
    if L in Listeners(entries) {
      var e :| e in entries && e.listener == L;
    }
  }

  /** No record but those a replace has just armed. */
  ghost predicate ArmedBy(records: map<string, Record>, event: Event) {
    forall L :: L in records ==> event.BatchMessage? && event.batch.op.Replace? && IsNamed(event.batch, L)
  }

  // ---- Generations --------------------------------------------------------------------------------------------------

  /** A batch that is heard and whose generation is not told stale. */
  predicate Taken(cfg: Settings, room: Room, event: Event) {
    event.BatchMessage? && Heard(cfg, room, event) && !BatchReply(cfg, room, event).staleGeneration
  }

  /** A batch of at least generation g was taken at event j, and every message heard since is of its epoch. */
  ghost predicate ReachedAt(cfg: Settings, events: seq<Event>, epoch: nat, g: nat, j: nat) {
    && j < |events| && Taken(cfg, Run(cfg, BORN, events[..j]), events[j])
    && EpochIn(events[j]) == Some(epoch) && events[j].batch.stamp.value.generation >= g
    && forall m :: j < m < |events| && HeardAt(cfg, events, m) ==> EpochIn(events[m]) == Some(epoch)
  }

  ghost predicate ReachedBy(cfg: Settings, events: seq<Event>, epoch: nat, g: nat) {
    exists j: nat :: ReachedAt(cfg, events, epoch, g, j)
  }

  lemma ReachedStep(cfg: Settings, events: seq<Event>, event: Event, epoch: nat, g: nat)
    ensures var room := Run(cfg, BORN, events);
            ReachedBy(cfg, events + [event], epoch, g) <==>
              || (Taken(cfg, room, event) && EpochIn(event) == Some(epoch) && event.batch.stamp.value.generation >= g)
              || (ReachedBy(cfg, events, epoch, g) && (Heard(cfg, room, event) ==> EpochIn(event) == Some(epoch)))
  {
    var all, n := events + [event], |events|;
    assert all[..n] == events;
    forall m | 0 <= m < n ensures all[m] == events[m] && HeardAt(cfg, all, m) == HeardAt(cfg, events, m) {
      assert all[..m] == events[..m];
    }
    forall j: nat | j < n ensures ReachedAt(cfg, all, epoch, g, j)
      <==> ReachedAt(cfg, events, epoch, g, j)
           && (Heard(cfg, Run(cfg, BORN, events), event) ==> EpochIn(event) == Some(epoch))
    {
      assert all[..j] == events[..j];
      assert HeardAt(cfg, all, n) == Heard(cfg, Run(cfg, BORN, events), event);
    }
    assert ReachedAt(cfg, all, epoch, g, n) <==>
      Taken(cfg, Run(cfg, BORN, events), event) && EpochIn(event) == Some(epoch)
      && event.batch.stamp.value.generation >= g;
    assert forall j: nat :: ReachedAt(cfg, all, epoch, g, j) ==> j <= n;
  }

  lemma GenerationAfter(cfg: Settings, room: Room, event: Event, g: nat)
    requires AuthInv(room.auth) && Admissible(room, event) && g > 0
    ensures var auth := Step(cfg, room, event).1.auth;
            g <= auth.policyGen <==>
              || (Taken(cfg, room, event) && event.batch.stamp.value.generation >= g)
              || (g <= room.auth.policyGen && (Heard(cfg, room, event) ==> EpochIn(event) == Some(room.auth.epoch)))
  {
  }

  lemma {:induction false} GenerationReached(cfg: Settings, events: seq<Event>, g: nat)
    requires AdmissibleRun(cfg, BORN, events) && g > 0
    ensures var auth := Run(cfg, BORN, events).auth;
            g <= auth.policyGen <==> ReachedBy(cfg, events, auth.epoch, g)
    ensures forall epoch: nat :: ReachedBy(cfg, events, epoch, g) ==> epoch == Run(cfg, BORN, events).auth.epoch
  {
    if events != [] {
      var front, last := events[..|events| - 1], events[|events| - 1];
      GenerationReached(cfg, front, g);
      RunInv(cfg, BORN, front);
      assert events == front + [last];
      GenerationStep(cfg, front, Run(cfg, BORN, front), last, g);
    }
  }

  lemma GenerationStep(cfg: Settings, front: seq<Event>, room: Room, last: Event, g: nat)
    requires room == Run(cfg, BORN, front) && AuthInv(room.auth) && Admissible(room, last) && g > 0
    requires g <= room.auth.policyGen <==> ReachedBy(cfg, front, room.auth.epoch, g)
    requires forall epoch: nat :: ReachedBy(cfg, front, epoch, g) ==> epoch == room.auth.epoch
    ensures var auth := Step(cfg, room, last).1.auth;
            && (g <= auth.policyGen <==> ReachedBy(cfg, front + [last], auth.epoch, g))
            && forall epoch: nat :: ReachedBy(cfg, front + [last], epoch, g) ==> epoch == auth.epoch
  {
    var auth := Step(cfg, room, last).1.auth;
    if Heard(cfg, room, last) {
      HeardSetsAuth(cfg, room, last);
    } else {
      UnheardKeepsAuth(cfg, room, last);
    }
    GenerationAfter(cfg, room, last, g);
    ReachedStep(cfg, front, last, auth.epoch, g);
    forall epoch: nat | ReachedBy(cfg, front + [last], epoch, g) ensures epoch == auth.epoch {
      ReachedStep(cfg, front, last, epoch, g);
    }
  }

  /** Over every run: a batch that is heard is told its generation is stale if and only if a batch of its own epoch with
      at least that generation was taken before and no other epoch has been heard since. */
  lemma GenerationExactly(cfg: Settings, events: seq<Event>, event: Event)
    requires AdmissibleRun(cfg, BORN, events) && Admissible(Run(cfg, BORN, events), event)
    requires event.BatchMessage? && Heard(cfg, Run(cfg, BORN, events), event)
    ensures var stamp := event.batch.stamp.value;
            BatchReply(cfg, Run(cfg, BORN, events), event).staleGeneration
            <==> ReachedBy(cfg, events, stamp.epoch, stamp.generation)
  {
    GenerationReached(cfg, events, event.batch.stamp.value.generation);
    RunInv(cfg, BORN, events);
  }

  // ---- One batch and one record -------------------------------------------------------------------------------------

  /** Entry k is the first that names L. */
  ghost predicate FirstBase(base: seq<Base>, L: string, k: nat) {
    k < |base| && base[k].listener == L && forall j :: 0 <= j < k ==> base[j].listener != L
  }

  /** The sender believes the mixer to hold this generation for L. */
  ghost predicate BasedOn(base: seq<Base>, L: string, gen: nat) {
    exists k: nat :: FirstBase(base, L, k) && base[k].gen == gen
  }

  lemma {:induction false} BaseIsFirst(base: seq<Base>, L: string, gen: nat)
    ensures BaseOf(base, L) == Some(gen) <==> BasedOn(base, L, gen)
  {
    if base != [] {
      var rest := base[1..];
      BaseIsFirst(rest, L, gen);
      if base[0].listener == L {
        assert FirstBase(base, L, 0);
      } else {
        forall k: nat ensures FirstBase(base, L, k + 1) <==> FirstBase(rest, L, k) {
          assert forall j :: 1 <= j < |base| ==> base[j] == rest[j - 1];
        }
        forall k: nat | FirstBase(base, L, k) ensures k > 0 {
          assert base[k] != base[0];
        }
        if BasedOn(base, L, gen) {
          var k: nat :| FirstBase(base, L, k) && base[k].gen == gen;
          assert FirstBase(rest, L, k - 1) && rest[k - 1] == base[k];
        }
        if BasedOn(rest, L, gen) {
          var k: nat :| FirstBase(rest, L, k) && rest[k].gen == gen;
          assert FirstBase(base, L, k + 1) && base[k + 1] == rest[k];
        }
      }
    }
  }

  /** What the entries of a channel make of a column: nothing where none names L. */
  ghost predicate Updated(op: Op, entries: seq<Entry>, L: string, before: set<string>, after: set<string>) {
    && (forall i :: 0 <= i < |entries| && entries[i].listener == L ==> after == ApplyOp(op, before, entries[i].sources))
    && ((forall i :: 0 <= i < |entries| ==> entries[i].listener != L) ==> after == before)
  }

  lemma MirrorUpdates(op: Op, entries: seq<Entry>, L: string, before: set<string>)
    requires DistinctListeners(entries)
    ensures Updated(op, entries, L, before, Mirror(op, before, FindEntry(entries, L)))
  {
    var e := FindEntry(entries, L);
    forall i | 0 <= i < |entries| && entries[i].listener == L ensures e == Some(entries[i]) {
      assert entries[i] in entries;
      if e.Some? {
        var j :| 0 <= j < |entries| && entries[j] == e.value;
      }
    }
  }

  /** A delta of the adopted epoch that is in order: a named listener with a record advances to its generation, its
      columns updated, if and only if the delta is based on the generation of the record; otherwise the record is marked
      stale and nothing else of it changes. Whoever does not advance is reported, and under enforcement its entries are
      skipped. */
  lemma DeltaExactly(cfg: Settings, auth: Auth, b: Batch, now: int, order: seq<string>, L: string)
    requires AuthInv(auth) && Parsed(b) && Walks(order, Named(b)) && IsNamed(b, L)
    requires b.stamp.Some? && !b.op.Replace? && b.stamp.value.epoch == auth.epoch > 0
    requires b.stamp.value.generation > auth.policyGen
    ensures var (out, after) := BatchAuthority(cfg, auth, b, now, order);
            var good := L in auth.records && BasedOn(b.stamp.value.base, L, auth.records[L].gen);
            && (L in after.records <==> L in auth.records)
            && (good ==>
                  var r, r' := auth.records[L], after.records[L];
                  && r' == r.(gen := b.stamp.value.generation, confirmed := now, excl := r'.excl, mute := r'.mute)
                  && Updated(b.op, b.entries, L, r.excl, r'.excl) && Updated(b.op, b.muteEntries, L, r.mute, r'.mute))
            && (L in auth.records && !good ==> after.records[L] == auth.records[L].(stale := true))
            && (L in out.stale <==> !good)
            && (L in Skipped(cfg, out) <==> cfg.Enforced() && !good)
  {
    NamedIs(b, L);
    NameAllEffect(Tally(auth.records, [], []), b, auth.epoch, now, order, L);
    if L in auth.records {
      BaseIsFirst(b.stamp.value.base, L, auth.records[L].gen);
      MirrorUpdates(b.op, b.entries, L, auth.records[L].excl);
      MirrorUpdates(b.op, b.muteEntries, L, auth.records[L].mute);
    }
  }

  /** A replace of the adopted epoch that is in order arms each listener it names, fresh and with the columns it
      carries, or reports it unarmed because the records are full; it reports nobody stale. */
  lemma ReplaceExactly(cfg: Settings, auth: Auth, b: Batch, now: int, order: seq<string>, L: string)
    requires AuthInv(auth) && Parsed(b) && Walks(order, Named(b)) && IsNamed(b, L)
    requires b.stamp.Some? && b.op.Replace? && b.stamp.value.epoch == auth.epoch > 0
    requires b.stamp.value.generation > auth.policyGen
    ensures var (out, after) := BatchAuthority(cfg, auth, b, now, order);
            && out.stale == []
            && (L in out.unarmed <==> L !in after.records)
            && (L in after.records ==>
                  var r := after.records[L];
                  && r.epoch == auth.epoch && r.gen == b.stamp.value.generation && r.confirmed == now && !r.stale
                  && var columns := if L in auth.records then auth.records[L] else Record(0, 0, 0, false, {}, {});
                     && Updated(Replace, b.entries, L, columns.excl, r.excl)
                     && Updated(Replace, b.muteEntries, L, columns.mute, r.mute))
            && (L in out.unarmed ==> L !in auth.records && |after.records| == 1024)
  {
    NamedIs(b, L);
    NameAllEffect(Tally(auth.records, [], []), b, auth.epoch, now, order, L);
    NameAllReplace(Tally(auth.records, [], []), b, auth.epoch, now, order);
    var columns := if L in auth.records then auth.records[L] else Record(0, 0, 0, false, {}, {});
    MirrorUpdates(Replace, b.entries, L, columns.excl);
    MirrorUpdates(Replace, b.muteEntries, L, columns.mute);
  }

  /** A walk of a replace reports nobody stale, disarms nobody, and leaves somebody unarmed only over full records. */
  lemma {:induction false} NameAllReplace(t: Tally, b: Batch, epoch: nat, now: int, order: seq<string>)
    requires b.stamp.Some? && b.op.Replace? && |t.records| <= MAX_RECORDS
    ensures var after := NameAll(t, b, epoch, now, order);
            && after.stale == t.stale && |t.records| <= |after.records| <= MAX_RECORDS
            && (after.unarmed != t.unarmed ==> |after.records| == MAX_RECORDS)
  {
    if order != [] {
      NameAllReplace(t, b, epoch, now, order[..|order| - 1]);
    }
  }

  // ---- One heartbeat ------------------------------------------------------------------------------------------------

  /** No listener is listed twice. */
  ghost predicate DistinctListed(listed: seq<Listed>) {
    forall i, j :: 0 <= i < j < |listed| ==> listed[i].listener != listed[j].listener
  }

  ghost predicate Names(listed: seq<Listed>, L: string) {
    exists k :: 0 <= k < |listed| && listed[k].listener == L
  }

  /** What one listed entry makes of a record: confirmed at its own generation, stale at any other or none. */
  ghost predicate Judged(before: Record, after: Record, gen: Option<int>, now: int) {
    after == if gen == Some(before.gen) then before.(confirmed := now) else before.(stale := true)
  }

  lemma {:induction false} ConfirmUnlisted(t: Tally, epoch: nat, now: int, listed: seq<Listed>, L: string)
    requires forall k :: 0 <= k < |listed| ==> listed[k].listener != L
    ensures var after := ConfirmAll(t, epoch, now, listed);
            && Get(after.records, L) == Get(t.records, L)
            && (L in after.stale <==> L in t.stale) && (L in after.unarmed <==> L in t.unarmed)
  {
    if listed != [] {
      var front := listed[..|listed| - 1];
      assert forall k :: 0 <= k < |front| ==> front[k] == listed[k];
      ConfirmUnlisted(t, epoch, now, front, L);
    }
  }

  lemma {:induction false} ConfirmListed(records: map<string, Record>, epoch: nat, now: int, listed: seq<Listed>,
                                         k: nat)
    requires k < |listed| && DistinctListed(listed) && forall L :: L in records ==> records[L].epoch == epoch
    ensures var after, L := ConfirmAll(Tally(records, [], []), epoch, now, listed), listed[k].listener;
            && (L in records ==> L in after.records && Judged(records[L], after.records[L], listed[k].gen, now))
            && (L in after.unarmed <==> L !in records)
            && (L in after.stale <==> L in records && (records[L].stale || listed[k].gen != Some(records[L].gen)))
    decreases listed
  {
    var n := |listed| - 1;
    var front, L := listed[..n], listed[k].listener;
    var start := Tally(records, [], []);
    if k < n {
      ConfirmListed(records, epoch, now, front, k);
    } else {
      ConfirmUnlisted(start, epoch, now, front, L);
    }
  }

  lemma NamesIs(listed: seq<Listed>, L: string)
    ensures L in ListedNames(listed) <==> Names(listed, L)
  {
    if L in ListedNames(listed) {
      var l :| l in listed && l.listener == L;
    }
  }

  /** A heartbeat of the adopted epoch that is evaluated: exactly the listed records remain, each confirmed now if
      listed at its own generation and marked stale if at any other. Nobody is armed. */
  lemma HeartbeatExactly(cfg: Settings, auth: Auth, hb: Heartbeat, now: int)
    requires AuthInv(auth) && DistinctListed(hb.listeners) && HeartbeatAuth(cfg, auth, hb, now).0 == Accepted
    ensures var after := HeartbeatAuth(cfg, auth, hb, now).1;
            var before := if hb.epoch == auth.epoch then auth.records else map[];
            && (forall L :: L in after.records <==> L in before && Names(hb.listeners, L))
            && (forall k :: 0 <= k < |hb.listeners| && hb.listeners[k].listener in before ==>
                  Judged(before[hb.listeners[k].listener], after.records[hb.listeners[k].listener],
                         hb.listeners[k].gen, now))
            && after.lastAccept == now && after.epoch == hb.epoch
            && after.policyGen == if hb.epoch == auth.epoch then auth.policyGen else 0
  {
    var adopted := Adopted(cfg, auth, hb.epoch, now);
    ConfirmAllKeeps(Tally(adopted.records, [], []), adopted.epoch, now, hb.listeners);
    forall k | 0 <= k < |hb.listeners| && hb.listeners[k].listener in adopted.records
      ensures Judged(adopted.records[hb.listeners[k].listener],
                     HeartbeatAuth(cfg, auth, hb, now).1.records[hb.listeners[k].listener], hb.listeners[k].gen, now)
    {
      ConfirmListed(adopted.records, adopted.epoch, now, hb.listeners, k);
      NamesIs(hb.listeners, hb.listeners[k].listener);
    }
    forall L ensures L in ListedNames(hb.listeners) <==> Names(hb.listeners, L) {
      NamesIs(hb.listeners, L);
    }
  }

  /** The reply to an evaluated heartbeat: unarmed are the listed without a record, stale the listed whose record was,
      or is now, marked. */
  lemma HeartbeatReports(auth: Auth, now: int, listed: seq<Listed>, L: string)
    requires AuthInv(auth) && DistinctListed(listed)
    ensures var reply := HeartbeatListeners(auth, now, listed);
            && (L in reply.unarmed <==> Names(listed, L) && L !in auth.records)
            && (L in reply.stale <==> L in reply.records && reply.records[L].stale)
  {
    var start := Tally(auth.records, [], []);
    NamesIs(listed, L);
    ConfirmAllKeeps(start, auth.epoch, now, listed);
    if Names(listed, L) {
      var k :| 0 <= k < |listed| && listed[k].listener == L;
      ConfirmListed(auth.records, auth.epoch, now, listed, k);
    } else {
      ConfirmUnlisted(start, auth.epoch, now, listed, L);
    }
  }

  /** How a heartbeat that is heard is answered, and what the two answers that evaluate nothing leave: an outdated one
      counts as a sign of life and touches no record, a stopping one marks every record stale and arms no one. */
  lemma HeartbeatAnswers(cfg: Settings, room: Room, hb: Heartbeat, now: int)
    requires AuthInv(room.auth) && hb.epoch > 0
    requires Heard(cfg, room, HeartbeatMessage(now, hb))
    ensures var (answer, after) := HeartbeatAuth(cfg, room.auth, hb, now);
            var same := hb.epoch == room.auth.epoch;
            var before := if same then room.auth.records else map[];
            && (answer == Stopping <==> hb.stopping)
            && (answer == Outdated <==>
                  !hb.stopping && same && hb.asOf.Some? && 0 <= hb.asOf.value < room.auth.policyGen)
            && (answer == Outdated || answer == Stopping || answer == Accepted)
            && (answer == Outdated ==> after == room.auth.(lastAccept := now))
            && (answer == Stopping ==>
                  && after.records.Keys == before.Keys
                  && forall L :: L in before ==> after.records[L] == before[L].(stale := true))
  {
  }

  // ---- Standing over runs -------------------------------------------------------------------------------------------

  /** A standing that is not stale: its epoch and generation, and when it was last confirmed. */
  datatype Good = Good(epoch: nat, gen: nat, confirmed: int)

  /** The records' view of it. */
  function GoodOf(records: map<string, Record>, L: string): Option<Good> {
    if L !in records || records[L].stale then None
    else Some(Good(records[L].epoch, records[L].gen, records[L].confirmed))
  }

  /** What one message makes of a standing, from the message and its reply. */
  ghost function GoodAfter(cfg: Settings, room: Room, event: Event, L: string, good: Option<Good>): Option<Good> {
    if !Heard(cfg, room, event) then good
    else
      var epoch := EpochIn(event).value;
      var kept := if good.Some? && good.value.epoch == epoch then good else None;
      match event
      case BatchMessage(now, b, _) =>
        var gen := b.stamp.value.generation;
        if !Taken(cfg, room, event) || !IsNamed(b, L) then kept
        else if b.op.Replace? then
          if L in BatchReply(cfg, room, event).unarmed then None else Some(Good(epoch, gen, now))
        else if kept.Some? && BasedOn(b.stamp.value.base, L, kept.value.gen) then Some(Good(epoch, gen, now))
        else None
      case HeartbeatMessage(now, hb) =>
        if hb.stopping then None
        else if Step(cfg, room, event).0.Outdated? then kept
        else if kept.Some? && Listed(L, Some(kept.value.gen)) in hb.listeners then Some(kept.value.(confirmed := now))
        else None
      case _ => good
  }

  /** The standing of L told from the run alone: a replace gives it, every later batch that names L must be based on the
      one before, and every evaluated heartbeat must list L at the generation it stands at. */
  ghost function Standing(cfg: Settings, events: seq<Event>, L: string): Option<Good> {
    if events == [] then None
    else
      var front, last := events[..|events| - 1], events[|events| - 1];
      GoodAfter(cfg, Run(cfg, BORN, front), last, L, Standing(cfg, front, L))
  }

  lemma GoodAfterStep(cfg: Settings, room: Room, event: Event, L: string)
    requires AuthInv(room.auth) && Admissible(room, event)
    ensures GoodOf(Step(cfg, room, event).1.auth.records, L)
         == GoodAfter(cfg, room, event, L, GoodOf(room.auth.records, L))
  {
    if Heard(cfg, room, event) {
      match event {
        case BatchMessage(now, b, order) => GoodAfterBatch(cfg, room, now, b, order, L);
        case HeartbeatMessage(now, hb) => GoodAfterHeartbeat(cfg, room, now, hb, L);
        case _ =>
      }
    } else {
      UnheardKeepsAuth(cfg, room, event);
    }
  }

  lemma GoodAfterBatch(cfg: Settings, room: Room, now: int, b: Batch, order: seq<string>, L: string)
    requires AuthInv(room.auth) && Admissible(room, BatchMessage(now, b, order))
    requires Heard(cfg, room, BatchMessage(now, b, order))
    ensures GoodOf(BatchAuthority(cfg, room.auth, b, now, order).1.records, L)
         == GoodAfter(cfg, room, BatchMessage(now, b, order), L, GoodOf(room.auth.records, L))
  {
    var adopted := Adopted(cfg, room.auth, b.stamp.value.epoch, now);
    NamedIs(b, L);
    if Taken(cfg, room, BatchMessage(now, b, order)) {
      NameAllEffect(Tally(adopted.records, [], []), b, adopted.epoch, now, order, L);
      if L in adopted.records {
        BaseIsFirst(b.stamp.value.base, L, adopted.records[L].gen);
      }
    }
  }

  lemma GoodAfterHeartbeat(cfg: Settings, room: Room, now: int, hb: Heartbeat, L: string)
    requires AuthInv(room.auth) && Admissible(room, HeartbeatMessage(now, hb))
    requires Heard(cfg, room, HeartbeatMessage(now, hb))
    ensures GoodOf(HeartbeatAuth(cfg, room.auth, hb, now).1.records, L)
         == GoodAfter(cfg, room, HeartbeatMessage(now, hb), L, GoodOf(room.auth.records, L))
  {
    HeartbeatAnswers(cfg, room, hb, now);
    if HeartbeatAuth(cfg, room.auth, hb, now).0 == Accepted {
      HeartbeatExactly(cfg, room.auth, hb, now);
      if Names(hb.listeners, L) {
        var k :| 0 <= k < |hb.listeners| && hb.listeners[k].listener == L;
        ListedOnce(hb.listeners, k);
      } else {
        assert forall gen :: Listed(L, gen) !in hb.listeners;
      }
    }
  }

  lemma ListedOnce(listed: seq<Listed>, k: nat)
    requires k < |listed| && DistinctListed(listed)
    ensures forall gen :: Listed(listed[k].listener, gen) in listed <==> gen == listed[k].gen
  {
    assert listed[k] == Listed(listed[k].listener, listed[k].gen);
  }

  lemma {:induction false} StandingExactly(cfg: Settings, events: seq<Event>, L: string)
    requires AdmissibleRun(cfg, BORN, events)
    ensures GoodOf(Run(cfg, BORN, events).auth.records, L) == Standing(cfg, events, L)
  {
    if events != [] {
      var front := events[..|events| - 1];
      StandingExactly(cfg, front, L);
      RunInv(cfg, BORN, front);
      GoodAfterStep(cfg, Run(cfg, BORN, front), events[|events| - 1], L);
    }
  }

  /** Over every run, a display is in row 4 if and only if the run gives it a standing that was confirmed within the
      window; in row 1 exactly without a record, and in row 3 otherwise. */
  lemma RowFourExactly(cfg: Settings, events: seq<Event>, L: string, now: int)
    requires AdmissibleRun(cfg, BORN, events)
    ensures RowOf(cfg, Run(cfg, BORN, events).auth, Some(L), now) == 4 <==>
              Standing(cfg, events, L).Some? && now - Standing(cfg, events, L).value.confirmed <= cfg.StaleUs()
    ensures RowOf(cfg, Run(cfg, BORN, events).auth, Some(L), now) == 1 <==> L !in Run(cfg, BORN, events).auth.records
    ensures RowOf(cfg, Run(cfg, BORN, events).auth, Some(L), now) in {1, 3, 4}
  {
    StandingExactly(cfg, events, L);
    RunInv(cfg, BORN, events);
  }

  // ---- The counters -------------------------------------------------------------------------------------------------

  function One(b: bool): nat {
    if b then 1 else 0
  }

  /** What the senders have been told so far. */
  function ToldSoFar(cfg: Settings, events: seq<Event>): Counters {
    if events == [] then Counters(0, 0, 0, 0, 0, 0)
    else
      var front, last := events[..|events| - 1], events[|events| - 1];
      var c, room := ToldSoFar(cfg, front), Run(cfg, BORN, front);
      var answer := Step(cfg, room, last).0;
      Counters(c.staleEpochs + One(ToldStaleEpoch(cfg, room, last)),
               c.staleGenerations + One(last.BatchMessage? && BatchReply(cfg, room, last).staleGeneration),
               c.recordsFull + if last.BatchMessage? then |BatchReply(cfg, room, last).unarmed| else 0,
               c.heartbeats + One(last.HeartbeatMessage? && Heard(cfg, room, last)),
               c.outdated + One(last.HeartbeatMessage? && answer.Outdated?),
               c.feedStale + One(answer.FeedStaleAnswer?))
  }

  /** The counters are what the senders were told. */
  lemma {:induction false} CountersExactly(cfg: Settings, events: seq<Event>)
    ensures Run(cfg, BORN, events).counters == ToldSoFar(cfg, events)
  {
    if events != [] {
      CountersExactly(cfg, events[..|events| - 1]);
      CountersStep(cfg, Run(cfg, BORN, events[..|events| - 1]), events[|events| - 1]);
    }
  }

  lemma CountersStep(cfg: Settings, room: Room, event: Event)
    ensures var c, after := room.counters, Step(cfg, room, event).1.counters;
            var answer := Step(cfg, room, event).0;
            && after.staleEpochs == c.staleEpochs + One(ToldStaleEpoch(cfg, room, event))
            && after.staleGenerations
               == c.staleGenerations + One(event.BatchMessage? && BatchReply(cfg, room, event).staleGeneration)
            && after.recordsFull
               == c.recordsFull + (if event.BatchMessage? then |BatchReply(cfg, room, event).unarmed| else 0)
            && after.heartbeats == c.heartbeats + One(event.HeartbeatMessage? && Heard(cfg, room, event))
            && after.outdated == c.outdated + One(event.HeartbeatMessage? && answer.Outdated?)
            && after.feedStale == c.feedStale + One(answer.FeedStaleAnswer?)
  {
  }

  // ---- Who is in the room -------------------------------------------------------------------------------------------

  /** Event k is the session's join, and nothing of it since is a leave or another join. */
  ghost predicate JoinedAt(events: seq<Event>, sid: nat, display: Option<string>, k: nat) {
    && k < |events| && events[k] == Join(sid, display)
    && forall m :: k < m < |events| ==> events[m] != Leave(sid) && !(events[m].Join? && events[m].sid == sid)
  }

  ghost predicate Joined(events: seq<Event>, sid: nat, display: Option<string>) {
    exists k: nat :: JoinedAt(events, sid, display, k)
  }

  lemma JoinedStep(events: seq<Event>, event: Event, sid: nat, display: Option<string>)
    ensures Joined(events + [event], sid, display) <==>
              || event == Join(sid, display)
              || (Joined(events, sid, display) && event != Leave(sid) && !(event.Join? && event.sid == sid))
  {
    var all, n := events + [event], |events|;
    forall k: nat | k < n ensures JoinedAt(all, sid, display, k) <==>
              JoinedAt(events, sid, display, k) && event != Leave(sid) && !(event.Join? && event.sid == sid)
    {
      assert forall m :: 0 <= m < n ==> all[m] == events[m];
      assert all[n] == event;
    }
    assert JoinedAt(all, sid, display, n) <==> event == Join(sid, display);
    assert forall k: nat :: JoinedAt(all, sid, display, k) ==> k <= n;
  }

  lemma MembersStep(cfg: Settings, room: Room, event: Event, sid: nat, display: Option<string>)
    ensures var before, after := room.members.sessions, Step(cfg, room, event).1.members.sessions;
            sid in after && after[sid].display == display <==>
              || event == Join(sid, display)
              || (sid in before && before[sid].display == display
                  && event != Leave(sid) && !(event.Join? && event.sid == sid))
  {
    match event {
      case BatchMessage(now, b, order) =>
        var out := BatchAuthority(cfg, room.auth, b, now, order).0;
        ChannelKeepsMembers(room.members, b.op, b.entries, Skipped(cfg, out), false);
        ChannelKeepsMembers(ApplyChannel(room.members, b.op, b.entries, Skipped(cfg, out), false), b.op, b.muteEntries,
                            Skipped(cfg, out), true);
      case _ =>
    }
  }

  lemma {:induction false} ChannelKeepsMembers(m: Members, op: Op, entries: seq<Entry>, skip: set<string>, isMute: bool)
    ensures var after := ApplyChannel(m, op, entries, skip, isMute).sessions;
            && after.Keys == m.sessions.Keys
            && forall sid :: sid in after ==> after[sid].display == m.sessions[sid].display
  {
    if entries != [] {
      ChannelKeepsMembers(m, op, entries[..|entries| - 1], skip, isMute);
    }
  }

  /** Over every run a session is in the room under a display exactly when it joined with it and has not left or joined
      again since; no batch or heartbeat adds or removes anybody. */
  lemma {:induction false} MembersExactly(cfg: Settings, events: seq<Event>, sid: nat, display: Option<string>)
    ensures var sessions := Run(cfg, BORN, events).members.sessions;
            sid in sessions && sessions[sid].display == display <==> Joined(events, sid, display)
  {
    if events != [] {
      var front, last := events[..|events| - 1], events[|events| - 1];
      MembersExactly(cfg, front, sid, display);
      MembersStep(cfg, Run(cfg, BORN, front), last, sid, display);
      assert events == front + [last];
      JoinedStep(front, last, sid, display);
    }
  }
}
