/** The visibility authority of one room as a state machine: stamped batches, heartbeats, joins and leaves acting on the
    adopted epoch, the listener records, the members' own sets and the deferred columns. */
module Authority {
  import opened Common
  import opened VisBatch
  import opened VisAuth
  import Deferred

  const MAX_RECORDS := 1024

  /** One display's standing as a listener, and the columns its epoch set for it. */
  datatype Record = Record(epoch: nat, gen: nat, confirmed: int, stale: bool, excl: set<string>, mute: set<string>)

  /** A joined session: its display and the sets the mix and the roster read. */
  datatype Session = Session(display: Option<string>, excluded: set<string>, muted: set<string>)

  /** What is fixed for the room's lifetime. */
  datatype Settings = Settings(failClosed: bool, declared: bool, staleMs: nat) {
    function StaleUs(): int { staleMs * 1000 }
    predicate Enforced() { failClosed && declared }
  }

  datatype Auth = Auth(epoch: nat, policyGen: nat, lastAccept: int, records: map<string, Record>)

  datatype Members = Members(sessions: map<nat, Session>, deferred: Deferred.State)

  datatype Counters = Counters(staleEpochs: nat, staleGenerations: nat, recordsFull: nat,
                               heartbeats: nat, outdated: nat, feedStale: nat)

  datatype Room = Room(auth: Auth, members: Members, counters: Counters)

  const NO_AUTH := Auth(0, 0, 0, map[])
  const BORN := Room(NO_AUTH, Members(map[], Deferred.EMPTY), Counters(0, 0, 0, 0, 0, 0))

  function RowOf(cfg: Settings, auth: Auth, display: Option<string>, now: int): nat {
    if display.None? || display.value !in auth.records
    then Row(false, 0, auth.epoch, 0, false, now, cfg.StaleUs())
    else
      var r := auth.records[display.value];
      Row(true, r.epoch, auth.epoch, r.confirmed, r.stale, now, cfg.StaleUs())
  }

  // ---- Adoption ----------------------------------------------------------------------------------------------------

  function VerdictOn(cfg: Settings, auth: Auth, incoming: nat, now: int): Verdict {
    EpochDecide(auth.epoch, auth.lastAccept, now, cfg.StaleUs(), incoming)
  }

  /** A new epoch or a takeover disarms every record; any accepted message is a sign of life. */
  function Adopted(cfg: Settings, auth: Auth, incoming: nat, now: int): Auth {
    match VerdictOn(cfg, auth, incoming, now)
    case StaleEpoch => auth
    case Equal => auth.(lastAccept := now)
    case _ => Auth(incoming, 0, now, map[])
  }

  // ---- One batch against the records -------------------------------------------------------------------------------

  /** The records while a batch walks the listeners it names, with the two lists of its reply. */
  datatype Tally = Tally(records: map<string, Record>, stale: seq<string>, unarmed: seq<string>)

  function BaseOf(base: seq<Base>, listener: string): Option<nat> {
    if base == [] then None
    else if base[0].listener == listener then Some(base[0].gen)
    else BaseOf(base[1..], listener)
  }

  function Mirror(op: Op, column: set<string>, entry: Option<Entry>): set<string> {
    if entry.Some? then ApplyOp(op, column, entry.value.sources) else column
  }

  function Mirrored(r: Record, b: Batch, listener: string): Record {
    r.(excl := Mirror(b.op, r.excl, FindEntry(b.entries, listener)),
       mute := Mirror(b.op, r.mute, FindEntry(b.muteEntries, listener)))
  }

  /** A delta is accepted from the record's own epoch and generation only. */
  predicate BaseMatches(records: map<string, Record>, epoch: nat, b: Batch, listener: string)
    requires b.stamp.Some?
  {
    && listener in records
    && records[listener].epoch == epoch
    && BaseOf(b.stamp.value.base, listener) == Some(records[listener].gen)
  }

  /** One listener named by an accepted batch: a replace arms it, a matching delta advances it, any other marks it
      stale. */
  function NameOne(t: Tally, b: Batch, epoch: nat, now: int, listener: string): Tally
    requires b.stamp.Some?
  {
    var gen := b.stamp.value.generation;
    if b.op.Replace? then
      if listener !in t.records && |t.records| >= MAX_RECORDS then t.(unarmed := t.unarmed + [listener])
      else
        var r := if listener in t.records then t.records[listener] else Record(0, 0, 0, false, {}, {});
        t.(records := t.records[listener := Mirrored(Record(epoch, gen, now, false, r.excl, r.mute), b, listener)])
    else if BaseMatches(t.records, epoch, b, listener) then
      t.(records := t.records[listener := Mirrored(t.records[listener].(gen := gen, confirmed := now), b, listener)])
    else if listener in t.records then
      t.(records := t.records[listener := t.records[listener].(stale := true)], stale := t.stale + [listener])
    else t.(stale := t.stale + [listener])
  }

  function NameAll(t: Tally, b: Batch, epoch: nat, now: int, order: seq<string>): Tally
    requires b.stamp.Some?
  {
    if order == [] then t
    else NameOne(NameAll(t, b, epoch, now, order[..|order| - 1]), b, epoch, now, order[|order| - 1])
  }

  datatype Outcome = Outcome(verdict: Verdict, staleGeneration: bool, stale: seq<string>, unarmed: seq<string>)

  const UNCHECKED := Outcome(Equal, false, [], [])

  predicate Refused(cfg: Settings, out: Outcome) {
    cfg.Enforced() && (out.verdict.StaleEpoch? || out.staleGeneration)
  }

  /** The listeners whose entries are not applied. */
  function Skipped(cfg: Settings, out: Outcome): set<string> {
    if cfg.Enforced() then SourceSet(out.stale) else {}
  }

  /** `order` is the order in which the table of named listeners happens to be walked. */
  function BatchAuthority(cfg: Settings, auth: Auth, b: Batch, now: int, order: seq<string>): (Outcome, Auth) {
    if b.stamp.None? then (UNCHECKED, auth)
    else
      var stamp := b.stamp.value;
      var verdict := VerdictOn(cfg, auth, stamp.epoch, now);
      var adopted := Adopted(cfg, auth, stamp.epoch, now);
      if verdict.StaleEpoch? then (Outcome(verdict, false, [], []), adopted)
      else if stamp.generation <= adopted.policyGen then (Outcome(verdict, true, [], []), adopted)
      else
        var t := NameAll(Tally(adopted.records, [], []), b, adopted.epoch, now, order);
        (Outcome(verdict, false, t.stale, t.unarmed), adopted.(policyGen := stamp.generation, records := t.records))
  }

  // ---- One batch against the members -------------------------------------------------------------------------------

  predicate Present(sessions: map<nat, Session>, listener: string) {
    exists sid :: sid in sessions && sessions[sid].display == Some(listener)
  }

  function UpdateSession(s: Session, op: Op, e: Entry, isMute: bool): Session {
    if s.display != Some(e.listener) then s
    else if isMute then s.(muted := ApplyOp(op, s.muted, e.sources))
    else s.(excluded := ApplyOp(op, s.excluded, e.sources))
  }

  /** An entry reaches every session of its display; with none present it is deferred. */
  function ApplyEntry(m: Members, op: Op, e: Entry, isMute: bool): Members {
    if Present(m.sessions, e.listener)
    then m.(sessions := map sid | sid in m.sessions :: UpdateSession(m.sessions[sid], op, e, isMute))
    else m.(deferred := Deferred.Put(m.deferred, e.listener, op, e.sources, isMute))
  }

  function ApplyChannel(m: Members, op: Op, entries: seq<Entry>, skip: set<string>, isMute: bool): Members {
    if entries == [] then m
    else
      var before := ApplyChannel(m, op, entries[..|entries| - 1], skip, isMute);
      var last := entries[|entries| - 1];
      if last.listener in skip then before else ApplyEntry(before, op, last, isMute)
  }

  function ApplyBatch(m: Members, b: Batch, skip: set<string>): Members {
    ApplyChannel(ApplyChannel(m, b.op, b.entries, skip, false), b.op, b.muteEntries, skip, true)
  }

  // ---- Heartbeats --------------------------------------------------------------------------------------------------

  /** One listener a heartbeat lists; its generation is None when it is not an integer. */
  datatype Listed = Listed(listener: string, gen: Option<int>)

  /** One room's entry of a heartbeat. `asOf` is None when the entry carries none, or none that is an integer. */
  datatype Heartbeat = Heartbeat(epoch: nat, feedAge: Option<int>, stopping: bool, asOf: Option<int>,
    listeners: seq<Listed>)

  function ConfirmOne(t: Tally, epoch: nat, now: int, listed: Listed): Tally {
    var L := listed.listener;
    if L !in t.records || t.records[L].epoch != epoch then t.(unarmed := t.unarmed + [L])
    else
      var r := t.records[L];
      if listed.gen == Some(r.gen) then
        Tally(t.records[L := r.(confirmed := now)], if r.stale then t.stale + [L] else t.stale, t.unarmed)
      else Tally(t.records[L := r.(stale := true)], t.stale + [L], t.unarmed)
  }

  function ConfirmAll(t: Tally, epoch: nat, now: int, listed: seq<Listed>): Tally {
    if listed == [] then t
    else ConfirmOne(ConfirmAll(t, epoch, now, listed[..|listed| - 1]), epoch, now, listed[|listed| - 1])
  }

  function ListedNames(listed: seq<Listed>): set<string> {
    set l | l in listed :: l.listener
  }

  /** Confirms or marks each listed listener, and disarms every record that is not listed. */
  function HeartbeatListeners(auth: Auth, now: int, listed: seq<Listed>): Tally {
    var t := ConfirmAll(Tally(auth.records, [], []), auth.epoch, now, listed);
    var names := ListedNames(listed);
    t.(records := map L | L in t.records && L in names :: t.records[L])
  }

  function MarkAllStale(records: map<string, Record>): map<string, Record> {
    map L | L in records :: records[L].(stale := true)
  }

  datatype Answer =
    | Applied | StaleEpochAnswer | StaleGenerationAnswer | FeedStaleAnswer
    | Accepted | Outdated | Stopping

  predicate FeedStale(cfg: Settings, hb: Heartbeat) {
    !FeedLive(hb.feedAge, cfg.staleMs) && !hb.stopping
  }

  predicate IsOutdated(auth: Auth, hb: Heartbeat) {
    hb.asOf.Some? && 0 <= hb.asOf.value < auth.policyGen
  }

  function HeartbeatAuth(cfg: Settings, auth: Auth, hb: Heartbeat, now: int): (Answer, Auth) {
    if FeedStale(cfg, hb) then (FeedStaleAnswer, auth)
    else
      var adopted := Adopted(cfg, auth, hb.epoch, now);
      if VerdictOn(cfg, auth, hb.epoch, now).StaleEpoch? then (StaleEpochAnswer, adopted)
      else if hb.stopping then (Stopping, adopted.(lastAccept := 0, records := MarkAllStale(adopted.records)))
      else if IsOutdated(adopted, hb) then (Outdated, adopted)
      else (Accepted, adopted.(records := HeartbeatListeners(adopted, now, hb.listeners).records))
  }

  // ---- Joining and leaving -----------------------------------------------------------------------------------------

  /** A display the current authority has armed takes the authority's columns; any other takes what was deferred for it.
      */
  function JoinColumns(cfg: Settings, auth: Auth, deferred: Deferred.State, display: Option<string>): (Session,
                       Deferred.State) {
    if display.None? then (Session(display, {}, {}), deferred)
    else
      var d := display.value;
      if cfg.Enforced() && d in auth.records && auth.records[d].epoch == auth.epoch
      then (Session(display, auth.records[d].excl, auth.records[d].mute), Deferred.ReplayDone(deferred, d))
      else
        var i := Deferred.IndexOf(deferred.slots, d);
        if i < |deferred.slots|
        then (Session(display, SourceSet(deferred.slots[i].excl), SourceSet(deferred.slots[i].mute)),
          Deferred.ReplayDone(deferred, d))
        else (Session(display, {}, {}), deferred)
  }

  // ---- The room ----------------------------------------------------------------------------------------------------

  datatype Event =
    | BatchMessage(now: int, batch: Batch, order: seq<string>)
    | HeartbeatMessage(now: int, heartbeat: Heartbeat)
    | Join(sid: nat, display: Option<string>)
    | Leave(sid: nat)

  function BatchAnswer(cfg: Settings, out: Outcome): Answer {
    if !Refused(cfg, out) then Applied
    else if out.verdict.StaleEpoch? then StaleEpochAnswer
    else StaleGenerationAnswer
  }

  function OnBatch(cfg: Settings, room: Room, b: Batch, now: int, order: seq<string>): (Answer, Room) {
    var (out, auth) := BatchAuthority(cfg, room.auth, b, now, order);
    var counters := room.counters.(
      staleEpochs := room.counters.staleEpochs + if out.verdict.StaleEpoch? then 1 else 0,
      staleGenerations := room.counters.staleGenerations + if out.staleGeneration then 1 else 0,
      recordsFull := room.counters.recordsFull + |out.unarmed|);
    var members := if Refused(cfg, out) then room.members else ApplyBatch(room.members, b, Skipped(cfg, out));
    (BatchAnswer(cfg, out), Room(auth, members, counters))
  }

  function OnHeartbeat(cfg: Settings, room: Room, hb: Heartbeat, now: int): (Answer, Room) {
    var (answer, auth) := HeartbeatAuth(cfg, room.auth, hb, now);
    var c := room.counters;
    var counters := match answer
      case FeedStaleAnswer => c.(feedStale := c.feedStale + 1)
      case StaleEpochAnswer => c.(staleEpochs := c.staleEpochs + 1)
      case Outdated => c.(heartbeats := c.heartbeats + 1, outdated := c.outdated + 1)
      case _ => c.(heartbeats := c.heartbeats + 1);
    (answer, Room(auth, room.members, counters))
  }

  function OnJoin(cfg: Settings, room: Room, sid: nat, display: Option<string>): Room {
    var (session, deferred) := JoinColumns(cfg, room.auth, room.members.deferred, display);
    room.(members := Members(room.members.sessions[sid := session], deferred))
  }

  function OnLeave(room: Room, sid: nat): Room {
    room.(members := room.members.(sessions := room.members.sessions - {sid}))
  }

  function Step(cfg: Settings, room: Room, event: Event): (Answer, Room) {
    match event
    case BatchMessage(now, batch, order) => OnBatch(cfg, room, batch, now, order)
    case HeartbeatMessage(now, heartbeat) => OnHeartbeat(cfg, room, heartbeat, now)
    case Join(sid, display) => (Accepted, OnJoin(cfg, room, sid, display))
    case Leave(sid) => (Accepted, OnLeave(room, sid))
  }

  function Run(cfg: Settings, room: Room, events: seq<Event>): Room {
    if events == [] then room else Step(cfg, Run(cfg, room, events[..|events| - 1]), events[|events| - 1]).1
  }

  /** `order` walks a set of listeners: each once, in some order. */
  ghost predicate Walks(order: seq<string>, names: set<string>) {
    SourceSet(order) == names && Deferred.NoDuplicates(order)
  }

  /** What the transport and the parser guarantee of one event in the state it meets. */
  ghost predicate Admissible(room: Room, event: Event) {
    match event
    case BatchMessage(now, batch, order) => now > 0 && Parsed(batch) && Walks(order, Named(batch))
    case HeartbeatMessage(now, heartbeat) =>
      && now > 0 && 0 < heartbeat.epoch <= MAX_U64
      && (forall i, j :: 0 <= i < j < |heartbeat.listeners| ==>
        heartbeat.listeners[i].listener != heartbeat.listeners[j].listener)
    case Join(sid, display) => sid !in room.members.sessions
    case Leave(sid) => true
  }

  ghost predicate AdmissibleRun(cfg: Settings, room: Room, events: seq<Event>) {
    events == [] ||
    (AdmissibleRun(cfg, room, events[..|events| - 1])
     && Admissible(Run(cfg, room, events[..|events| - 1]), events[|events| - 1]))
  }
}
