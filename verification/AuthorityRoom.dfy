/** The room as the plugin keeps it: fields updated in place under the room's mutex, each message one critical section.
    Every method is proved to take the state machine's step. */
module AuthorityRoom {
  import opened Common
  import opened VisBatch
  import opened VisAuth
  import opened Authority
  import Deferred
  import Columns

  /** The bounds the parser puts on every batch it passes on. */
  ghost predicate Bounded(b: Batch) {
    && (forall i :: 0 <= i < |b.entries| ==> |b.entries[i].sources| <= MAX_EXCL)
    && (forall i :: 0 <= i < |b.muteEntries| ==> |b.muteEntries[i].sources| <= MAX_EXCL)
  }

  ghost function DisplaysOf(sessions: map<nat, Session>, sids: set<nat>): set<string>
    requires sids <= sessions.Keys
  {
    set sid | sid in sids && sessions[sid].display.Some? :: sessions[sid].display.value
  }

  lemma DisplaysMore(sessions: map<nat, Session>, sids: set<nat>, sid: nat)
    requires sids <= sessions.Keys && sid in sessions
    ensures DisplaysOf(sessions, sids + {sid})
         == DisplaysOf(sessions, sids) + if sessions[sid].display.Some? then {sessions[sid].display.value} else {}
  {
    var all := DisplaysOf(sessions, sids + {sid});
    assert sessions[sid].display.Some? ==> sessions[sid].display.value in all by { assert sid in sids + {sid}; }
    forall d | d in DisplaysOf(sessions, sids) ensures d in all {
      var other :| other in sids && sessions[other].display == Some(d);
      assert other in sids + {sid};
    }
  }

  lemma {:induction false} DisplaysBound(sessions: map<nat, Session>, sids: set<nat>)
    requires sids <= sessions.Keys
    ensures |DisplaysOf(sessions, sids)| <= |sids|
    decreases sids
  {
    if sids != {} {
      var sid :| sid in sids;
      DisplaysBound(sessions, sids - {sid});
      DisplaysMore(sessions, sids - {sid}, sid);
      assert sids - {sid} + {sid} == sids;
    } else {
      assert DisplaysOf(sessions, sids) == {};
    }
  }

  class VisRoom {
    const cfg: Settings
    var authEpoch: nat
    var policyGen: nat
    var lastAccept: int
    var records: map<string, Record>
    var sessions: map<nat, Session>
    const deferred: Deferred.Store
    var counters: Counters

    ghost predicate Valid()
      reads this, deferred
    {
      deferred.Valid() && |sessions| <= MAX_MIX
    }

    ghost function AuthValue(): Auth
      reads this
    {
      Auth(authEpoch, policyGen, lastAccept, records)
    }

    ghost function Value(): Room
      reads this, deferred, deferred.entries
      requires Valid()
    {
      Room(AuthValue(), Members(sessions, deferred.Value()), counters)
    }

    constructor (cfg: Settings)
      ensures Valid() && Value() == BORN && this.cfg == cfg
      ensures fresh(deferred) && fresh(deferred.entries)
    {
      this.cfg := cfg;
      authEpoch, policyGen, lastAccept := 0, 0, 0;
      records, sessions := map[], map[];
      counters := Counters(0, 0, 0, 0, 0, 0);
      var store := new Deferred.Store();
      deferred := store;
    }

    /** The adoption rule applied to one message. */
    method AdoptEpoch(incoming: nat, now: int) returns (v: Verdict)
      modifies this`authEpoch, this`policyGen, this`lastAccept, this`records, this`counters
      ensures v == VerdictOn(cfg, old(AuthValue()), incoming, now)
      ensures AuthValue() == Adopted(cfg, old(AuthValue()), incoming, now)
      ensures counters == old(counters).(staleEpochs := old(counters).staleEpochs + if v.StaleEpoch? then 1 else 0)
    {
      v := EpochDecide(authEpoch, lastAccept, now, cfg.StaleUs(), incoming);
      if v.StaleEpoch? {
        counters := counters.(staleEpochs := counters.staleEpochs + 1);
        return;
      }
      if !v.Equal? {
        records := map[];
        authEpoch := incoming;
        policyGen := 0;
      }
      lastAccept := now;
    }

    /** One named listener of an accepted batch. */
    method NameListener(b: Batch, now: int, L: string, staleList: seq<string>, unarmed: seq<string>)
      returns (staleList': seq<string>, unarmed': seq<string>)
      requires b.stamp.Some?
      modifies this`records
      ensures Tally(records, staleList', unarmed')
              == NameOne(Tally(old(records), staleList, unarmed), b, authEpoch, now, L)
    {
      staleList', unarmed' := staleList, unarmed;
      var ex, mu := FindEntry(b.entries, L), FindEntry(b.muteEntries, L);
      var gen := b.stamp.value.generation;
      if b.op.Replace? {
        var r := Record(0, 0, 0, false, {}, {});
        if L in records {
          r := records[L];
        } else if |records| >= MAX_RECORDS {
          unarmed' := unarmed + [L];
          return;
        }
        r := r.(epoch := authEpoch, gen := gen, confirmed := now, stale := false);
        r := r.(excl := Mirror(Replace, r.excl, ex), mute := Mirror(Replace, r.mute, mu));
        records := records[L := r];
      } else {
        var base := BaseOf(b.stamp.value.base, L);
        if L in records && records[L].epoch == authEpoch && base == Some(records[L].gen) {
          var r := records[L].(gen := gen, confirmed := now);
          r := r.(excl := Mirror(b.op, r.excl, ex), mute := Mirror(b.op, r.mute, mu));
          records := records[L := r];
        } else {
          if L in records {
            records := records[L := records[L].(stale := true)];
          }
          staleList' := staleList + [L];
        }
      }
    }

    /** A stamped batch checked against the authority, updating the records. */
    method CheckBatch(b: Batch, now: int, order: seq<string>) returns (out: Outcome)
      modifies this`authEpoch, this`policyGen, this`lastAccept, this`records, this`counters
      ensures (out, AuthValue()) == BatchAuthority(cfg, old(AuthValue()), b, now, order)
      ensures counters == old(counters).(
                staleEpochs := old(counters).staleEpochs + if out.verdict.StaleEpoch? then 1 else 0,
                staleGenerations := old(counters).staleGenerations + if out.staleGeneration then 1 else 0,
                recordsFull := old(counters).recordsFull + |out.unarmed|)
    {
      if b.stamp.None? {
        return UNCHECKED;
      }
      var stamp := b.stamp.value;
      var verdict := AdoptEpoch(stamp.epoch, now);
      if verdict.StaleEpoch? {
        return Outcome(verdict, false, [], []);
      }
      if stamp.generation <= policyGen {
        counters := counters.(staleGenerations := counters.staleGenerations + 1);
        return Outcome(verdict, true, [], []);
      }
      policyGen := stamp.generation;
      ghost var start := Tally(records, [], []);
      var staleList, unarmed := [], [];
      for i := 0 to |order|
        invariant Tally(records, staleList, unarmed) == NameAll(start, b, authEpoch, now, order[..i])
        modifies this`records
      {
        assert order[..i + 1][..i] == order[..i];
        staleList, unarmed := NameListener(b, now, order[i], staleList, unarmed);
      }
      assert order[..|order|] == order;
      counters := counters.(recordsFull := counters.recordsFull + |unarmed|);
      out := Outcome(verdict, false, staleList, unarmed);
    }

    /** The displays of the sessions in the room. */
    method PresentDisplays() returns (present: set<string>)
      requires Valid()
      ensures present == DisplaysOf(sessions, sessions.Keys) && |present| <= |sessions|
    {
      present := {};
      var rest := sessions.Keys;
      ghost var done := {};
      while rest != {}
        invariant rest <= sessions.Keys && done == sessions.Keys - rest
        invariant present == DisplaysOf(sessions, done)
        decreases rest
      {
        var sid :| sid in rest;
        rest := rest - {sid};
        DisplaysMore(sessions, done, sid);
        done := done + {sid};
        if sessions[sid].display.Some? {
          present := present + {sessions[sid].display.value};
        }
      }
      DisplaysBound(sessions, sessions.Keys);
      assert |sessions.Keys| == |sessions|;
    }

    /** One matching session merges the entry into its own set. */
    method MergeInto(s: Session, op: Op, e: Entry, isMute: bool, present: set<string>) returns (s': Session)
      requires |e.sources| <= MAX_EXCL && |present| <= MAX_MIX
      requires s.display == Some(e.listener)
      ensures s' == UpdateSession(s, op, e, isMute)
    {
      if isMute {
        var muted, notes := Columns.MergeMutes(op, s.muted, e.sources);
        s' := s.(muted := muted);
      } else {
        var excluded, transitions := Columns.MergeExclusions(op, s.excluded, e.sources, present);
        s' := s.(excluded := excluded);
      }
    }

    /** The scan over the participants: every session of the display is updated. */
    method UpdateMatching(op: Op, e: Entry, isMute: bool, present: set<string>) returns (matched: bool)
      requires |e.sources| <= MAX_EXCL && |present| <= MAX_MIX
      modifies this`sessions
      ensures matched <==> Present(old(sessions), e.listener)
      ensures sessions == map sid | sid in old(sessions) :: UpdateSession(old(sessions)[sid], op, e, isMute)
    {
      ghost var was := sessions;
      matched := false;
      var rest := sessions.Keys;
      while rest != {}
        invariant rest <= was.Keys && sessions.Keys == was.Keys
        invariant forall sid :: sid in was ==>
                    sessions[sid] == if sid in rest then was[sid] else UpdateSession(was[sid], op, e, isMute)
        invariant matched <==> exists sid :: sid in was && sid !in rest && was[sid].display == Some(e.listener)
        decreases rest
      {
        var sid :| sid in rest;
        rest := rest - {sid};
        if sessions[sid].display == Some(e.listener) {
          matched := true;
          var s := MergeInto(sessions[sid], op, e, isMute, present);
          sessions := sessions[sid := s];
        }
      }
    }

    /** One entry of one channel, given to every session of its display or else deferred. */
    method ApplyOne(op: Op, e: Entry, isMute: bool, present: set<string>)
      requires Valid() && |e.sources| <= MAX_EXCL && |present| <= MAX_MIX
      modifies this`sessions, deferred, deferred.entries
      ensures Valid() && Members(sessions, deferred.Value())
          == ApplyEntry(old(Members(sessions, deferred.Value())), op, e, isMute)
    {
      ghost var was := sessions;
      var matched := UpdateMatching(op, e, isMute, present);
      assert sessions.Keys == was.Keys;
      assert |sessions| == |sessions.Keys| && |was| == |was.Keys|;
      if !matched {
        assert sessions == was;
        deferred.Deposit(e.listener, op, e.sources, isMute);
      }
    }

    method ApplyEntries(op: Op, entries: seq<Entry>, skip: set<string>, isMute: bool)
      requires Valid()
      requires forall i :: 0 <= i < |entries| ==> |entries[i].sources| <= MAX_EXCL
      modifies this`sessions, deferred, deferred.entries
      ensures Valid()
      ensures Members(sessions, deferred.Value())
          == ApplyChannel(old(Members(sessions, deferred.Value())), op, entries, skip, isMute)
    {
      ghost var was := Members(sessions, deferred.Value());
      var present := PresentDisplays();
      for i := 0 to |entries|
        invariant Valid()
        invariant Members(sessions, deferred.Value()) == ApplyChannel(was, op, entries[..i], skip, isMute)
      {
        assert entries[..i + 1][..i] == entries[..i];
        if entries[i].listener !in skip {
          ApplyOne(op, entries[i], isMute, present);
        }
      }
      assert entries[..|entries|] == entries;
    }

    /** The exclusion channel first, then the moderation mutes; an empty channel is skipped. */
    method ApplyChannels(b: Batch, skip: set<string>)
      requires Valid() && Bounded(b)
      modifies this`sessions, deferred, deferred.entries
      ensures Valid() && Members(sessions, deferred.Value())
          == ApplyBatch(old(Members(sessions, deferred.Value())), b, skip)
    {
      if |b.entries| > 0 {
        ApplyEntries(b.op, b.entries, skip, false);
      }
      if |b.muteEntries| > 0 {
        ApplyEntries(b.op, b.muteEntries, skip, true);
      }
    }

    /** peer_ctl_batch: the authority check and both channels under one hold of the mutex. */
    method HandleBatch(b: Batch, now: int, order: seq<string>) returns (answer: Answer)
      requires Valid() && Bounded(b)
      modifies this, deferred, deferred.entries
      ensures Valid() && (answer, Value()) == OnBatch(cfg, old(Value()), b, now, order)
    {
      var out := CheckBatch(b, now, order);
      var enforced := cfg.Enforced();
      if enforced && (out.verdict.StaleEpoch? || out.staleGeneration) {
        return if out.verdict.StaleEpoch? then StaleEpochAnswer else StaleGenerationAnswer;
      }
      var skip := if enforced then SourceSet(out.stale) else {};
      ApplyChannels(b, skip);
      answer := Applied;
    }

    /** An accepted heartbeat entry: confirm or mark what it lists, disarm what it omits. */
    method ConfirmListeners(listeners: seq<Listed>, now: int) returns (staleList: seq<string>, unarmed: seq<string>)
      modifies this`records
      ensures Tally(records, staleList, unarmed) == HeartbeatListeners(old(AuthValue()), now, listeners)
    {
      ghost var start := Tally(records, [], []);
      staleList, unarmed := [], [];
      var seen := {};
      for i := 0 to |listeners|
        invariant seen == ListedNames(listeners[..i])
        invariant Tally(records, staleList, unarmed) == ConfirmAll(start, authEpoch, now, listeners[..i])
      {
        assert listeners[..i + 1] == listeners[..i] + [listeners[i]];
        assert listeners[..i + 1][..i] == listeners[..i];
        var L := listeners[i].listener;
        seen := seen + {L};
        if L !in records || records[L].epoch != authEpoch {
          unarmed := unarmed + [L];
        } else if listeners[i].gen == Some(records[L].gen) {
          records := records[L := records[L].(confirmed := now)];
          if records[L].stale {
            staleList := staleList + [L];
          }
        } else {
          records := records[L := records[L].(stale := true)];
          staleList := staleList + [L];
        }
      }
      assert listeners[..|listeners|] == listeners;
      DisarmOmitted(seen);
    }

    method DisarmOmitted(seen: set<string>)
      modifies this`records
      ensures records == map L | L in old(records) && L in seen :: old(records)[L]
    {
      ghost var was := records;
      var rest := records.Keys;
      while rest != {}
        invariant rest <= records.Keys <= was.Keys
        invariant forall L :: L in was ==> (L in records <==> L in rest || L in seen)
        invariant forall L :: L in records ==> records[L] == was[L]
        decreases rest
      {
        var L :| L in rest;
        rest := rest - {L};
        if L !in seen {
          records := records - {L};
        }
      }
      assert records == map L | L in was && L in seen :: was[L];
    }

    method MarkStale()
      modifies this`records
      ensures records == MarkAllStale(old(records))
    {
      ghost var was := records;
      var rest := records.Keys;
      while rest != {}
        invariant rest <= records.Keys == was.Keys
        invariant forall L :: L in was ==> records[L] == if L in rest then was[L] else was[L].(stale := true)
        decreases rest
      {
        var L :| L in rest;
        rest := rest - {L};
        records := records[L := records[L].(stale := true)];
      }
      assert records == MarkAllStale(was);
    }

    /** peer_ctl_heartbeat, one room's entry. */
    method HandleHeartbeat(hb: Heartbeat, now: int) returns (answer: Answer)
      requires Valid()
      modifies this`authEpoch, this`policyGen, this`lastAccept, this`records, this`counters
      ensures Valid() && (answer, Value()) == OnHeartbeat(cfg, old(Value()), hb, now)
    {
      if !FeedLive(hb.feedAge, cfg.staleMs) && !hb.stopping {
        counters := counters.(feedStale := counters.feedStale + 1);
        return FeedStaleAnswer;
      }
      var v := AdoptEpoch(hb.epoch, now);
      if v.StaleEpoch? {
        return StaleEpochAnswer;
      }
      counters := counters.(heartbeats := counters.heartbeats + 1);
      if hb.stopping {
        MarkStale();
        lastAccept := 0;
        return Stopping;
      }
      if hb.asOf.Some? && 0 <= hb.asOf.value < policyGen {
        counters := counters.(outdated := counters.outdated + 1);
        return Outdated;
      }
      var staleList, unarmed := ConfirmListeners(hb.listeners, now);
      answer := Accepted;
    }

    /** An armed display's columns for a joining session, superseding whatever was deferred for it. */
    method RejoinColumns(s: Session) returns (taken: bool, s': Session)
      requires Valid() && s.excluded == {} && s.muted == {}
      modifies deferred, deferred.entries
      ensures Valid()
      ensures taken <==>
                s.display.Some? && cfg.Enforced()
                && s.display.value in records && records[s.display.value].epoch == authEpoch
      ensures !taken ==> s' == s && deferred.Value() == old(deferred.Value())
      ensures taken ==> (s', deferred.Value()) == JoinColumns(cfg, AuthValue(), old(deferred.Value()), s.display)
    {
      taken, s' := false, s;
      if !cfg.Enforced() || s.display.None? || s.display.value !in records
        || records[s.display.value].epoch != authEpoch {
        return;
      }
      var r := records[s.display.value];
      s' := Session(s.display, r.excl, r.mute);
      var done := deferred.TakeReplayed(s.display.value);
      taken := true;
    }

    /** Deferred columns handed to a joining session, and their record dropped. */
    method ReplayDeferred(s: Session) returns (s': Session)
      requires Valid() && s.excluded == {} && s.muted == {}
      requires s.display.Some? ==>
          !(cfg.Enforced() && s.display.value in records && records[s.display.value].epoch == authEpoch)
      modifies deferred, deferred.entries
      ensures Valid() && (s', deferred.Value()) == JoinColumns(cfg, AuthValue(), old(deferred.Value()), s.display)
    {
      s' := s;
      if s.display.None? {
        return;
      }
      var i := deferred.FindIndex(s.display.value);
      if i == deferred.n {
        return;
      }
      var d := deferred.entries[i];
      var excluded, _ := Columns.MergeMutes(Add, {}, d.excl);
      var muted, _ := Columns.MergeMutes(Add, {}, d.mute);
      assert ApplyOp(Add, {}, d.excl) == SourceSet(d.excl) && ApplyOp(Add, {}, d.mute) == SourceSet(d.mute);
      s' := Session(s.display, excluded, muted);
      var done := deferred.TakeReplayed(s.display.value);
    }

    /** The commit of a join, once the room has admitted it. */
    method CommitJoin(sid: nat, display: Option<string>)
      requires Valid() && sid !in sessions && |sessions| < MAX_MIX
      modifies this`sessions, deferred, deferred.entries
      ensures Valid() && Value() == OnJoin(cfg, old(Value()), sid, display)
    {
      var taken, s := RejoinColumns(Session(display, {}, {}));
      if !taken {
        s := ReplayDeferred(s);
      }
      sessions := sessions[sid := s];
    }

    method LeaveRoom(sid: nat)
      requires Valid()
      modifies this`sessions
      ensures Valid() && Value() == OnLeave(old(Value()), sid)
    {
      ghost var was := sessions;
      sessions := sessions - {sid};
      SubsetSize(sessions.Keys, was.Keys);
      assert |sessions| == |sessions.Keys| && |was| == |was.Keys|;
    }
  }
}
