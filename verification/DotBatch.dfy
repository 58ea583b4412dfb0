/** The periodic dot batch: one power and voice value per present display, copied and edited for each listener so that
    its dots agree with what its mix plays. */
module DotBatch {
  import opened Common
  import opened Hysteresis
  import opened RoomMix

  datatype Dot = Dot(power: nat, voice: bool)
  const DARK := Dot(0, false)

  /** The room's displays that are not in row 4, when fail-closed is on. */
  datatype Standing = Standing(listenerOk: bool, hidden: Option<set<string>>)

  /** The last tick evaluated this latch and culled its source. */
  predicate LatchedNow(slot: Latch, tick: nat) {
    slot.culled && slot.seen == tick
  }

  function MutedNames(controls: seq<Control>): set<string> {
    set k | 0 <= k < |controls| && controls[k].muted :: controls[k].uuid
  }

  function CulledNames(latches: seq<Latch>, tick: nat): set<string> {
    set k | 0 <= k < |latches| && LatchedNow(latches[k], tick) :: latches[k].uuid
  }

  /** The sources a listener gets no audio from, as its dots know them. */
  function Dark(me: Listener, latches: seq<Latch>, tick: nat): set<string> {
    me.modMuted + MutedNames(me.controls) + CulledNames(latches, tick)
  }

  predicate Keeps(me: Listener, own: Option<string>, st: Standing, d: string) {
    d !in me.excluded && (own == Some(d) || (st.listenerOk && (st.hidden.None? || d !in st.hidden.value)))
  }

  function Paint(batch: map<string, Dot>, dark: set<string>): map<string, Dot> {
    map d | d in batch :: if d in dark then DARK else batch[d]
  }

  /** What a listener is shown. */
  function Dots(me: Listener, own: Option<string>, latches: seq<Latch>, tick: nat, batch: map<string, Dot>,
                st: Standing)
    : map<string, Dot>
  {
    var painted := Paint(batch, Dark(me, latches, tick));
    map d | d in painted && Keeps(me, own, st, d) :: painted[d]
  }

  /** Neither a standing nor a sim-set list touches this listener's dots. */
  predicate Plain(me: Listener, st: Standing) {
    st.listenerOk && (st.hidden.None? || st.hidden.value == {}) && me.excluded == {} && me.modMuted == {}
  }

  method Darken(filt: map<string, Dot>, batch: map<string, Dot>, ghost dark: set<string>, d: string)
    returns (r: map<string, Dot>)
    requires filt == Paint(batch, dark)
    ensures r == Paint(batch, dark + {d})
  {
    r := if d in filt then filt[d := DARK] else filt;
  }

  /** No batch of its own exactly when nothing could differ; otherwise the copy edited to what the listener is shown. */
  method DotBatchFor(me: Listener, own: Option<string>, latches: seq<Latch>, tick: nat, batch: map<string, Dot>,
                     st: Standing)
    returns (r: Option<map<string, Dot>>)
    ensures r.None? ==> Dots(me, own, latches, tick, batch, st) == batch
    ensures r.Some? ==> r.value == Dots(me, own, latches, tick, batch, st)
  {
    var any := !Plain(me, st);
    for k := 0 to |me.controls|
      invariant !any ==> Plain(me, st)
      invariant !any ==> forall j :: 0 <= j < k ==> !me.controls[j].muted
    {
      any := any || me.controls[k].muted;
    }
    assert !any ==> MutedNames(me.controls) == {};
    for k := 0 to |latches|
      invariant !any ==> Plain(me, st) && MutedNames(me.controls) == {}
      invariant !any ==> forall j :: 0 <= j < k ==> !LatchedNow(latches[j], tick)
    {
      any := any || LatchedNow(latches[k], tick);
    }
    if !any {
      assert CulledNames(latches, tick) == {};
      assert Dark(me, latches, tick) == {};
      return None;
    }
    var filt := DarkenAll(me, latches, tick, batch);
    filt := Omit(filt, me.excluded, None);
    if !st.listenerOk {
      filt := Omit(filt, filt.Keys, own);
    } else if st.hidden.Some? {
      filt := Omit(filt, st.hidden.value, own);
    }
    return Some(filt);
  }

  method DarkenAll(me: Listener, latches: seq<Latch>, tick: nat, batch: map<string, Dot>)
    returns (filt: map<string, Dot>)
    ensures filt == Paint(batch, Dark(me, latches, tick))
  {
    filt := batch;
    var todo := me.modMuted;
    while todo != {}
      invariant todo <= me.modMuted && filt == Paint(batch, me.modMuted - todo)
    {
      var d :| d in todo;
      filt := Darken(filt, batch, me.modMuted - todo, d);
      todo := todo - {d};
      assert me.modMuted - todo == (me.modMuted - (todo + {d})) + {d};
    }
    ghost var dark := me.modMuted;
    for k := 0 to |me.controls|
      invariant dark == me.modMuted + MutedNames(me.controls[..k]) && filt == Paint(batch, dark)
    {
      MutedNamesMore(me.controls, k);
      if me.controls[k].muted {
        filt := Darken(filt, batch, dark, me.controls[k].uuid);
        dark := dark + {me.controls[k].uuid};
      }
    }
    assert me.controls[..|me.controls|] == me.controls;
    for k := 0 to |latches|
      invariant dark == me.modMuted + MutedNames(me.controls) + CulledNames(latches[..k], tick)
          && filt == Paint(batch, dark)
    {
      CulledNamesMore(latches, tick, k);
      if LatchedNow(latches[k], tick) {
        filt := Darken(filt, batch, dark, latches[k].uuid);
        dark := dark + {latches[k].uuid};
      }
    }
    assert latches[..|latches|] == latches;
  }

  lemma MutedNamesMore(controls: seq<Control>, k: nat)
    requires k < |controls|
    ensures MutedNames(controls[..k + 1]) == MutedNames(controls[..k]) + if controls[k].muted then {controls[k].uuid}
        else {}
  {
    var more, less := controls[..k + 1], controls[..k];
    assert forall j :: 0 <= j < k ==> more[j] == less[j];
    assert more[k] == controls[k];
  }

  lemma CulledNamesMore(latches: seq<Latch>, tick: nat, k: nat)
    requires k < |latches|
    ensures CulledNames(latches[..k + 1], tick)
         == CulledNames(latches[..k], tick) + if LatchedNow(latches[k], tick) then {latches[k].uuid} else {}
  {
    var more, less := latches[..k + 1], latches[..k];
    assert forall j :: 0 <= j < k ==> more[j] == less[j];
    assert more[k] == latches[k];
  }

  /** Deletes every named display but the listener's own. */
  method Omit(filt: map<string, Dot>, names: set<string>, own: Option<string>) returns (r: map<string, Dot>)
    ensures r == map d | d in filt && (d !in names || own == Some(d)) :: filt[d]
  {
    r := filt;
    var todo := names;
    while todo != {}
      invariant todo <= names
      invariant r == map d | d in filt && (d !in names - todo || own == Some(d)) :: filt[d]
    {
      var d :| d in todo;
      if own != Some(d) {
        r := r - {d};
      }
      todo := todo - {d};
    }
  }

  // ---- The dots agree with the mix ----------------------------------------------------------------------------------

  /** Every participant has a display of its own, and it fits a latch. */
  ghost predicate DistinctDisplays(peers: seq<Peer>) {
    && (forall j :: 0 <= j < |peers| ==> peers[j].display.Some? && |peers[j].display.value| < UUID_LEN)
    && forall i, j :: 0 <= i < j < |peers| ==> peers[i].display != peers[j].display
  }

  /** The table as an earlier tick left it. */
  ghost predicate BeforeTick(latches: seq<Latch>, tick: nat) {
    |latches| <= MAX_MIX && Distinct(latches) && forall k :: 0 <= k < |latches| ==> latches[k].seen < tick
  }

  /** A latch stamped this tick belongs to a source evaluated this tick and carries its verdict. */
  ghost predicate Stamped(t: Tick, me: Listener, peers: seq<Peer>, i: nat, latches: seq<Latch>, pairs: seq<Pair>,
                          n: nat)
    requires |t.ok| == |peers| && i < |peers| && n <= |peers| && n <= |pairs|
  {
    && |latches| <= MAX_MIX && Distinct(latches)
    && (forall k :: 0 <= k < |latches| ==> latches[k].seen <= t.seqNo)
    && (forall k :: 0 <= k < |latches| && latches[k].seen == t.seqNo ==> Owner(t, me, peers, i, pairs, n, latches[k]))
  }

  ghost predicate Owner(t: Tick, me: Listener, peers: seq<Peer>, i: nat, pairs: seq<Pair>, n: nat, slot: Latch)
    requires |t.ok| == |peers| && i < |peers| && n <= |peers| && n <= |pairs|
  {
    exists j :: 0 <= j < n && Evaluated(t, me, peers, i, j) && peers[j].display == Some(slot.uuid)
      && slot.culled == pairs[j].muted
  }

  /** Every source evaluated this tick has its latch, stamped. */
  ghost predicate AllStamped(t: Tick, me: Listener, peers: seq<Peer>, i: nat, latches: seq<Latch>, n: nat)
    requires |t.ok| == |peers| && i < |peers| && n <= |peers|
  {
    forall j :: 0 <= j < n && Evaluated(t, me, peers, i, j) ==> HasLatch(latches, peers[j].display.value, t.seqNo)
  }

  ghost predicate HasLatch(latches: seq<Latch>, d: string, tick: nat) {
    exists k :: 0 <= k < |latches| && latches[k].uuid == d && latches[k].seen == tick
  }

  function DisplaysOf(peers: seq<Peer>, n: nat): (s: set<string>)
    requires n <= |peers|
    ensures |s| <= n
    ensures forall j :: 0 <= j < n && peers[j].display.Some? ==> peers[j].display.value in s
  {
    if n == 0 then {}
    else
      var s := DisplaysOf(peers, n - 1);
      if peers[n - 1].display.Some? then s + {peers[n - 1].display.value} else s
  }

  /** A full table still holds a latch no source of this tick owns, so making room never loses one. */
  lemma VictimIsStale(t: Tick, me: Listener, peers: seq<Peer>, i: nat, latches: seq<Latch>, pairs: seq<Pair>, n: nat)
    requires |t.ok| == |peers| <= MAX_MIX && i < |peers| && n < |peers| && n <= |pairs|
    requires Stamped(t, me, peers, i, latches, pairs, n) && |latches| == MAX_MIX
    ensures latches[LeastSeen(latches)].seen < t.seqNo
  {
    if latches[LeastSeen(latches)].seen == t.seqNo {
      forall u | u in Names(latches) ensures u in DisplaysOf(peers, n) {
        var k :| 0 <= k < |latches| && latches[k].uuid == u;
        assert Owner(t, me, peers, i, pairs, n, latches[k]);
      }
      DistinctCount(latches);
      SubsetSize(Names(latches), DisplaysOf(peers, n));
      assert false;
    }
  }

  /** One source's stage keeps both directions. */
  lemma StageStamps(t: Tick, me: Listener, peers: seq<Peer>, i: nat, latches: seq<Latch>, pairs: seq<Pair>, n: nat)
    requires |t.ok| == |peers| <= MAX_MIX && i < |peers| && n < |peers| && n == |pairs| && DistinctDisplays(peers)
    requires Stamped(t, me, peers, i, latches, pairs, n) && AllStamped(t, me, peers, i, latches, n)
    ensures var s := Stage(t, me, peers, i, latches, n);
            && Stamped(t, me, peers, i, s.1, pairs + [s.0], n + 1)
            && AllStamped(t, me, peers, i, s.1, n + 1)
  {
    var s := Stage(t, me, peers, i, latches, n);
    var more := pairs + [s.0];
    if Evaluated(t, me, peers, i, n) {
      var d := peers[n].display.value;
      var e := Eval(t.seqNo, d, Distance(t, peers, i, n));
      CullWrites(latches, t.space.lim, e);
      OthersDiffer(latches, d);
      var w := Target(latches, d);
      assert s.1[w] == Latch(d, s.0.muted, t.seqNo);
      assert more[n] == s.0 && Owner(t, me, peers, i, more, n + 1, s.1[w]);
      forall k | 0 <= k < |s.1| && k != w ensures k < |latches| && s.1[k] == latches[k] {}
      OwnersStay(t, me, peers, i, latches, pairs, s.0, n);
      if |latches| == MAX_MIX && Find(latches, d) == |latches| {
        VictimIsStale(t, me, peers, i, latches, pairs, n);
      }
      forall j | 0 <= j < n + 1 && Evaluated(t, me, peers, i, j)
        ensures HasLatch(s.1, peers[j].display.value, t.seqNo) {
        if j < n {
          var k :| 0 <= k < |latches| && latches[k].uuid == peers[j].display.value && latches[k].seen == t.seqNo;
          assert k != w;
          assert s.1[k] == latches[k];
        }
      }
    } else {
      assert s.1 == latches;
      OwnersStay(t, me, peers, i, latches, pairs, s.0, n);
    }
  }

  lemma OwnersStay(t: Tick, me: Listener, peers: seq<Peer>, i: nat, latches: seq<Latch>, pairs: seq<Pair>, pair: Pair,
                   n: nat)
    requires |t.ok| == |peers| && i < |peers| && n < |peers| && n == |pairs|
        && Stamped(t, me, peers, i, latches, pairs, n)
    ensures forall k :: 0 <= k < |latches| && latches[k].seen == t.seqNo ==>
        Owner(t, me, peers, i, pairs + [pair], n + 1, latches[k])
  {
    forall k | 0 <= k < |latches| && latches[k].seen == t.seqNo
      ensures Owner(t, me, peers, i, pairs + [pair], n + 1, latches[k]) {
      assert Owner(t, me, peers, i, pairs, n, latches[k]);
      var j :| 0 <= j < n && Evaluated(t, me, peers, i, j) && peers[j].display == Some(latches[k].uuid)
        && latches[k].culled == pairs[j].muted;
      assert (pairs + [pair])[j] == pairs[j];
    }
  }

  lemma {:induction false} PassStamps(t: Tick, me: Listener, peers: seq<Peer>, i: nat, latches: seq<Latch>, n: nat)
    requires |t.ok| == |peers| <= MAX_MIX && i < |peers| && n <= |peers| && DistinctDisplays(peers)
        && BeforeTick(latches, t.seqNo)
    ensures var s := Stages(t, me, peers, i, latches, n);
            Stamped(t, me, peers, i, s.1, s.0, n) && AllStamped(t, me, peers, i, s.1, n)
  {
    if n > 0 {
      PassStamps(t, me, peers, i, latches, n - 1);
      var s := Stages(t, me, peers, i, latches, n - 1);
      StageStamps(t, me, peers, i, s.1, s.0, n - 1);
    }
  }

  /** After a pass the table is again one that an earlier tick left, for every later tick. */
  lemma TableStaysReady(t: Tick, me: Listener, peers: seq<Peer>, i: nat, latches: seq<Latch>, later: nat)
    requires |t.ok| == |peers| <= MAX_MIX && i < |peers| && DistinctDisplays(peers) && BeforeTick(latches, t.seqNo)
    requires t.seqNo < later
    ensures BeforeTick(Stages(t, me, peers, i, latches, |peers|).1, later)
  {
    PassStamps(t, me, peers, i, latches, |peers|);
  }

  lemma CulledIsLatched(t: Tick, me: Listener, peers: seq<Peer>, i: nat, latches: seq<Latch>, j: nat)
    requires |t.ok| == |peers| <= MAX_MIX && i < |peers| && DistinctDisplays(peers) && BeforeTick(latches, t.seqNo)
    requires j < |peers| && j != i && !Silenced(t, me, peers, i, j)
    ensures var s := Stages(t, me, peers, i, latches, |peers|);
            peers[j].display.value in CulledNames(s.1, t.seqNo) <==> s.0[j].muted
  {
    LatchedIsCulled(t, me, peers, i, latches, j);
    CulledHasLatch(t, me, peers, i, latches, j);
  }

  lemma LatchedIsCulled(t: Tick, me: Listener, peers: seq<Peer>, i: nat, latches: seq<Latch>, j: nat)
    requires |t.ok| == |peers| <= MAX_MIX && i < |peers| && DistinctDisplays(peers) && BeforeTick(latches, t.seqNo)
    requires j < |peers| && j != i && !Silenced(t, me, peers, i, j)
    ensures var s := Stages(t, me, peers, i, latches, |peers|);
            peers[j].display.value in CulledNames(s.1, t.seqNo) ==> s.0[j].muted
  {
    var n := |peers|;
    PassStamps(t, me, peers, i, latches, n);
    var s := Stages(t, me, peers, i, latches, n);
    var d := peers[j].display.value;
    if d in CulledNames(s.1, t.seqNo) {
      var k :| 0 <= k < |s.1| && LatchedNow(s.1[k], t.seqNo) && s.1[k].uuid == d;
      assert Owner(t, me, peers, i, s.0, n, s.1[k]);
    }
  }

  lemma CulledHasLatch(t: Tick, me: Listener, peers: seq<Peer>, i: nat, latches: seq<Latch>, j: nat)
    requires |t.ok| == |peers| <= MAX_MIX && i < |peers| && DistinctDisplays(peers) && BeforeTick(latches, t.seqNo)
    requires j < |peers| && j != i && !Silenced(t, me, peers, i, j)
    ensures var s := Stages(t, me, peers, i, latches, |peers|);
            s.0[j].muted ==> peers[j].display.value in CulledNames(s.1, t.seqNo)
  {
    var n := |peers|;
    PassStamps(t, me, peers, i, latches, n);
    UnevaluatedPlays(t, me, peers, i, latches, n);
    var s := Stages(t, me, peers, i, latches, n);
    var d := peers[j].display.value;
    if s.0[j].muted {
      assert Evaluated(t, me, peers, i, j) && HasLatch(s.1, d, t.seqNo);
      var k :| 0 <= k < |s.1| && s.1[k].uuid == d && s.1[k].seen == t.seqNo;
      assert Owner(t, me, peers, i, s.0, n, s.1[k]);
      assert LatchedNow(s.1[k], t.seqNo);
    }
  }

  lemma {:induction false} UnevaluatedPlays(t: Tick, me: Listener, peers: seq<Peer>, i: nat, latches: seq<Latch>,
                                            n: nat)
    requires |t.ok| == |peers| && i < |peers| && n <= |peers|
    ensures var pairs := Stages(t, me, peers, i, latches, n).0;
            forall j :: 0 <= j < n && j != i && !Silenced(t, me, peers, i, j) && pairs[j].muted ==>
              Evaluated(t, me, peers, i, j)
  {
    if n > 0 {
      UnevaluatedPlays(t, me, peers, i, latches, n - 1);
    }
  }

  /** The sender's view of the standings the tick used. */
  ghost predicate StandingOf(t: Tick, peers: seq<Peer>, i: nat, st: Standing)
    requires |t.ok| == |peers| && i < |peers|
  {
    if t.enforced then
      && st.listenerOk == t.ok[i] && st.hidden.Some?
      && forall d :: d in st.hidden.value <==> exists j :: 0 <= j < |peers| && !t.ok[j] && peers[j].display == Some(d)
    else st == Standing(true, None)
  }

  /** With the state the tick used still standing, the dots and the mix agree source by source: another display is left
      out exactly when it is excluded or fails the pair rule, a dot shown is dark exactly when the mix muted the source,
      and any other dot is the shared one. */
  lemma DotsAgreeWithMix(t: Tick, me: Listener, peers: seq<Peer>, i: nat, latches: seq<Latch>, batch: map<string, Dot>,
                         st: Standing, j: nat)
    requires |t.ok| == |peers| <= MAX_MIX && i < |peers| && DistinctDisplays(peers) && BeforeTick(latches, t.seqNo)
    requires ControlsDistinct(me.controls) && StandingOf(t, peers, i, st)
    requires j < |peers| && j != i && peers[j].display.value in batch
    ensures var s := Stages(t, me, peers, i, latches, |peers|);
            var dots := Dots(me, peers[i].display, s.1, t.seqNo, batch, st);
            var d := peers[j].display.value;
            && (d !in dots <==> d in me.excluded || FailsPairRule(t, i, j))
            && (d in dots ==> dots[d] == if s.0[j].muted then DARK else batch[d])
            && (d !in dots ==> s.0[j].muted)
  {
    var s := Stages(t, me, peers, i, latches, |peers|);
    var d := peers[j].display.value;
    assert peers[i].display != peers[j].display;
    MutedOfSilenced(t, me, peers, i, latches, |peers|);
    ViewerMutedIsNamed(me, d);
    if !Silenced(t, me, peers, i, j) {
      CulledIsLatched(t, me, peers, i, latches, j);
    }
    if t.enforced {
      HiddenIsNotOk(t, peers, i, st, j);
    }
    assert Keeps(me, peers[i].display, st, d) <==> d !in me.excluded && !FailsPairRule(t, i, j);
  }

  lemma HiddenIsNotOk(t: Tick, peers: seq<Peer>, i: nat, st: Standing, j: nat)
    requires |t.ok| == |peers| && i < |peers| && DistinctDisplays(peers) && StandingOf(t, peers, i, st) && j < |peers|
        && t.enforced
    ensures peers[j].display.value in st.hidden.value <==> !t.ok[j]
  {
  }

  lemma ViewerMutedIsNamed(me: Listener, d: string)
    requires ControlsDistinct(me.controls)
    ensures ViewerMuted(me, d) <==> d in MutedNames(me.controls)
  {
  }

  /** A latch of this source culled it in this tick. */
  ghost predicate CulledNow(latches: seq<Latch>, tick: nat, d: string) {
    exists k :: 0 <= k < |latches| && latches[k].uuid == d && latches[k].culled && latches[k].seen == tick
  }

  /** Dot by dot what a listener is shown: never an excluded source, its own always otherwise, another only while its
      own standing and that of the source are good; at no power where it hears nothing of the source, and as it is
      elsewhere. */
  lemma DotsExactly(me: Listener, own: Option<string>, latches: seq<Latch>, tick: nat, batch: map<string, Dot>,
                    st: Standing, d: string)
    ensures var dots := Dots(me, own, latches, tick, batch, st);
            && (d in dots <==>
                  && d in batch && d !in me.excluded
                  && (own == Some(d) || (st.listenerOk && (st.hidden.Some? ==> d !in st.hidden.value))))
            && (d in dots ==>
                  dots[d] == if d in me.modMuted || MutesOwn(me.controls, d) || CulledNow(latches, tick, d)
                             then Dot(0, false) else batch[d])
  {
    NamedByMute(me.controls, d);
    NamedByCull(latches, tick, d);
  }

  lemma NamedByMute(controls: seq<Control>, d: string)
    ensures d in MutedNames(controls) <==> MutesOwn(controls, d)
  {
  }

  lemma NamedByCull(latches: seq<Latch>, tick: nat, d: string)
    ensures d in CulledNames(latches, tick) <==> CulledNow(latches, tick, d)
  {
  }
}
