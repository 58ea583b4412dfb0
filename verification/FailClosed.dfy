/** From the simulator's messages to a listener's frame: in an enforced room the policy the authority has armed is what
    the mix plays, and once the authority has aged out the room is silent. */
module FailClosed {
  import opened Common
  import Authority
  import AuthorityMirror
  import AuthorityLiveness
  import Mix
  import opened RoomMix
  import OwnCamera
  import opened Hysteresis

  /** A tick of the room: the participants in some order, each standing in its row, the pair rule in force. */
  ghost predicate TickOf(cfg: Authority.Settings, room: Authority.Room, now: int, roster: seq<nat>, t: Tick,
                         peers: seq<Peer>) {
    && Sized(t, peers) && |roster| == |peers| && t.enforced == cfg.Enforced()
    && forall j :: 0 <= j < |peers| ==>
         && roster[j] in room.members.sessions
         && peers[j].display == room.members.sessions[roster[j]].display
         && t.ok[j] == (Authority.RowOf(cfg, room.auth, peers[j].display, now) == 4)
  }

  /** The listener's pass reads the two sets of its session. */
  ghost predicate ReadsSession(room: Authority.Room, sid: nat, me: Listener) {
    sid in room.members.sessions
    && me.excluded == room.members.sessions[sid].excluded && me.modMuted == room.members.sessions[sid].muted
  }

  /** The authority bars the source from the listener: one of them is not in row 4, or the listener's armed record
      excludes or mutes the source. */
  ghost predicate Barred(cfg: Authority.Settings, room: Authority.Room, now: int, listener: Option<string>,
                         source: Option<string>) {
    || Authority.RowOf(cfg, room.auth, listener, now) != 4
    || Authority.RowOf(cfg, room.auth, source, now) != 4
    || (listener.Some? && source.Some? && listener.value in room.auth.records
        && source.value in room.auth.records[listener.value].excl + room.auth.records[listener.value].mute)
  }

  lemma BarredIsSilenced(cfg: Authority.Settings, room: Authority.Room, now: int, roster: seq<nat>, t: Tick,
                         me: Listener,
                         peers: seq<Peer>, i: nat, j: nat)
    requires cfg.Enforced() && AuthorityMirror.Covered(room) && TickOf(cfg, room, now, roster, t, peers)
    requires i < |peers| && j < |peers| && ReadsSession(room, roster[i], me)
    requires Barred(cfg, room, now, peers[i].display, peers[j].display)
    ensures Silenced(t, me, peers, i, j)
  {
    if t.ok[i] && t.ok[j] {
      var L := peers[i].display.value;
      assert room.auth.records[L].excl <= me.excluded && room.auth.records[L].mute <= me.modMuted;
    }
  }

  /** End to end: over every run of an enforced room whose unstamped batches, if any, spare the armed columns, a
      listener's frame, its skip decision and its cull table are independent of every source the authority bars from it.
      */
  lemma PolicyReachesTheMix(cfg: Authority.Settings, events: seq<Authority.Event>, now: int, roster: seq<nat>, t: Tick,
                            me: Listener, peers: seq<Peer>, others: seq<Peer>, i: nat, latches: seq<Latch>)
    requires cfg.Enforced() && Authority.AdmissibleRun(cfg, Authority.BORN, events)
        && AuthorityMirror.Sparing(cfg, events)
    requires var room := Authority.Run(cfg, Authority.BORN, events);
             && TickOf(cfg, room, now, roster, t, peers) && TickOf(cfg, room, now, roster, t, others)
             && i < |peers| && ReadsSession(room, roster[i], me) && others[i] == peers[i]
             && forall j :: 0 <= j < |peers| ==>
                  others[j] == peers[j] || Barred(cfg, room, now, peers[i].display, peers[j].display)
    ensures Mixed(t, me, others, i, latches, None) == Mixed(t, me, peers, i, latches, None)
  {
    AuthorityMirror.ContainmentExactly(cfg, events);
    BarredIsInaudible(cfg, Authority.Run(cfg, Authority.BORN, events), now, roster, t, me, peers, others, i, latches);
    NonInterference(t, me, peers, others, i, latches);
  }

  lemma BarredIsInaudible(cfg: Authority.Settings, room: Authority.Room, now: int, roster: seq<nat>, t: Tick,
                          me: Listener,
                          peers: seq<Peer>, others: seq<Peer>, i: nat, latches: seq<Latch>)
    requires cfg.Enforced() && AuthorityMirror.Covered(room)
    requires TickOf(cfg, room, now, roster, t, peers) && TickOf(cfg, room, now, roster, t, others)
    requires i < |peers| && ReadsSession(room, roster[i], me) && others[i] == peers[i]
    requires forall j :: 0 <= j < |peers| ==>
               others[j] == peers[j] || Barred(cfg, room, now, peers[i].display, peers[j].display)
    ensures SameToListener(t, me, peers, others, i, latches)
  {
    forall j | 0 <= j < |peers| && j != i && !Silenced(t, me, peers, i, j) ensures others[j] == peers[j] {
      if Barred(cfg, room, now, peers[i].display, peers[j].display) {
        BarredIsSilenced(cfg, room, now, roster, t, me, peers, i, j);
      }
    }
  }

  lemma {:induction false} CountsNobody(inp: Mix.Inputs, m: nat)
    requires inp.Sized(0) && m <= |inp.sources| && forall s :: 0 <= s < |inp.sources| ==> !Mix.Heard(inp, s)
    ensures Mix.Count(inp, m) == 0
  {
    if m > 0 {
      CountsNobody(inp, m - 1);
    }
  }

  lemma SilencedRoom(t: Tick, me: Listener, peers: seq<Peer>, i: nat, latches: seq<Latch>)
    requires Sized(t, peers) && i < |peers|
    requires forall j :: 0 <= j < |peers| && j != i ==> Silenced(t, me, peers, i, j)
    ensures var out := Mixed(t, me, peers, i, latches, None); AllZero(out.frame) && out.skip
  {
    var inp := OwnCamera.Inputs(t, me, peers, i, latches);
    MutedOfSilenced(t, me, peers, i, latches, |peers|);
    CountsNobody(inp, |peers|);
    OwnCamera.SkippedExactly(t, me, peers, i, latches);
    forall k | 0 <= k < FRAME_TOTAL ensures Frame(inp)[k] == 0.0 {
      OwnCamera.NobodyHeard(inp, |peers|, k);
    }
  }

  /** A room that hears nothing but refused messages for longer than the staleness window is silent: every listener's
      frame is all zeros and its encode is skipped, whatever is said in it. */
  lemma AgedOutIsSilent(cfg: Authority.Settings, history: seq<Authority.Event>, last: int,
                        refused: seq<Authority.Event>, now: int,
                        roster: seq<nat>, t: Tick, me: Listener, peers: seq<Peer>, i: nat, latches: seq<Latch>)
    requires cfg.Enforced() && AuthorityLiveness.TimedBy(history, last) && now - last > cfg.StaleUs()
    requires AuthorityLiveness.OnlyRefused(cfg, Authority.Run(cfg, Authority.BORN, history), refused)
    requires TickOf(cfg, Authority.Run(cfg, Authority.Run(cfg, Authority.BORN, history), refused), now, roster, t,
        peers) && i < |peers|
    ensures var out := Mixed(t, me, peers, i, latches, None); AllZero(out.frame) && out.skip
  {
    forall j | 0 <= j < |peers| ensures !t.ok[j] {
      AuthorityLiveness.RefusedAuthorityAgesOut(cfg, history, last, refused, peers[j].display, now);
    }
    SilencedRoom(t, me, peers, i, latches);
  }
}
