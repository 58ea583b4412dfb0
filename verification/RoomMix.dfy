/** The second pass of a room tick: which sources each listener hears and at what gain, the frame mixed from them, and
    the periodic dot batch drawn from the same state. */
module RoomMix {
  import opened Common
  import opened Hysteresis
  import Mix

  const FRAME_TOTAL := 1920

  datatype Vec = Vec(x: real, y: real, z: real)
  datatype Heading = Heading(x: real, y: real, z: real, w: real)
  /** The tick's snapshot: where the avatar stands, and the leashed camera it hears from. */
  datatype Geometry = Geometry(sp: Vec, lp: Vec, lh: Heading)
  datatype Peer = Peer(display: Option<string>, samples: seq<real>, audible: bool, geo: Option<Geometry>)

  /** The viewer's own setting for one source. */
  datatype Control = Control(uuid: string, muted: bool, gain: Option<real>)
  datatype Listener = Listener(modMuted: set<string>, controls: seq<Control>, excluded: set<string>)

  /** The distance, and the falloff and pan as a left and right factor. */
  datatype Space = Space(lim: Limits, distance: (Vec, Vec) -> real, shape: (Vec, Heading, Vec) -> (real, real))
  datatype Tick = Tick(seqNo: nat, spatial: bool, space: Space, enforced: bool, ok: seq<bool>)

  /** What the pass leaves for one source: the kernel's mute flag and gains. */
  datatype Pair = Pair(muted: bool, gainL: real, gainR: real)

  // ---- The viewer's settings ----------------------------------------------------------------------------------------

  const MAX_PEER_ADJ := 32
  const GAIN_FACTOR := 220.0
  const GAIN_MAX := 4.0

  /** One entry of a viewer message: either half may be absent. */
  datatype Adjust = Adjust(uuid: string, mute: Option<bool>, gain: Option<real>)

  function FirstControl(controls: seq<Control>, uuid: string): (k: nat)
    ensures k <= |controls| && (k < |controls| ==> controls[k].uuid == uuid)
    ensures forall j :: 0 <= j < k ==> controls[j].uuid != uuid
  {
    if controls == [] || controls[0].uuid == uuid then 0 else 1 + FirstControl(controls[1..], uuid)
  }

  function GainOf(raw: real): (g: real)
    ensures 0.0 <= g <= GAIN_MAX
  {
    var g := raw / GAIN_FACTOR;
    if g < 0.0 then 0.0 else if g > GAIN_MAX then GAIN_MAX else g
  }

  function Adjusted(c: Control, a: Adjust): Control {
    Control(c.uuid, if a.mute.Some? then a.mute.value else c.muted,
      if a.gain.Some? then Some(GainOf(a.gain.value)) else c.gain)
  }

  function AdjustOne(controls: seq<Control>, a: Adjust): seq<Control> {
    var k := FirstControl(controls, a.uuid);
    if k < |controls| then controls[k := Adjusted(controls[k], a)]
    else if |controls| >= MAX_PEER_ADJ then controls
    else controls + [Adjusted(Control(Fit(a.uuid), false, None), a)]
  }

  function AdjustAll(controls: seq<Control>, adjusts: seq<Adjust>): seq<Control> {
    if adjusts == [] then controls
    else AdjustOne(AdjustAll(controls, adjusts[..|adjusts| - 1]), adjusts[|adjusts| - 1])
  }

  ghost predicate ControlsDistinct(controls: seq<Control>) {
    |controls| <= MAX_PEER_ADJ && forall i, j :: 0 <= i < j < |controls| ==> controls[i].uuid != controls[j].uuid
  }

  /** What the entries never mention of a source stays. */
  ghost predicate Spared(before: Control, after: Control, adjusts: seq<Adjust>) {
    && after.uuid == before.uuid
    && ((forall i :: 0 <= i < |adjusts| && adjusts[i].uuid == before.uuid ==> adjusts[i].mute.None?) ==>
      after.muted == before.muted)
    && ((forall i :: 0 <= i < |adjusts| && adjusts[i].uuid == before.uuid ==> adjusts[i].gain.None?) ==>
      after.gain == before.gain)
  }

  lemma AdjustOneKeeps(controls: seq<Control>, a: Adjust)
    requires ControlsDistinct(controls) && |a.uuid| < UUID_LEN
    ensures var after := AdjustOne(controls, a);
            && ControlsDistinct(after) && |controls| <= |after|
            && forall k :: 0 <= k < |controls| ==>
              after[k] == if controls[k].uuid == a.uuid then Adjusted(controls[k], a) else controls[k]
  {
  }

  /** A viewer message never splits a source into two entries, and it changes only what it names: the setting of every
      other source, and the half of a named source it does not mention, stay. */
  lemma {:induction false} AdjustsKeepControls(controls: seq<Control>, adjusts: seq<Adjust>)
    requires ControlsDistinct(controls) && forall i :: 0 <= i < |adjusts| ==> |adjusts[i].uuid| < UUID_LEN
    ensures var after := AdjustAll(controls, adjusts);
            && ControlsDistinct(after) && |controls| <= |after|
            && forall k :: 0 <= k < |controls| ==> Spared(controls[k], after[k], adjusts)
  {
    if adjusts != [] {
      var front, last := adjusts[..|adjusts| - 1], adjusts[|adjusts| - 1];
      AdjustsKeepControls(controls, front);
      var middle := AdjustAll(controls, front);
      AdjustOneKeeps(middle, last);
      var after := AdjustOne(middle, last);
      forall k | 0 <= k < |controls| ensures Spared(controls[k], after[k], adjusts) {
        assert Spared(controls[k], middle[k], front);
        assert forall i :: 0 <= i < |front| ==> front[i] == adjusts[i];
        assert adjusts[|adjusts| - 1] == last;
      }
    }
  }

  /** Entry m is the last of the message that mentions the source's mute. */
  ghost predicate LastMute(adjusts: seq<Adjust>, uuid: string, m: nat) {
    && m < |adjusts| && adjusts[m].uuid == uuid && adjusts[m].mute.Some?
    && forall n :: m < n < |adjusts| && adjusts[n].uuid == uuid ==> adjusts[n].mute.None?
  }

  ghost predicate LastGain(adjusts: seq<Adjust>, uuid: string, m: nat) {
    && m < |adjusts| && adjusts[m].uuid == uuid && adjusts[m].gain.Some?
    && forall n :: m < n < |adjusts| && adjusts[n].uuid == uuid ==> adjusts[n].gain.None?
  }

  ghost predicate SettledMute(before: Control, after: Control, adjusts: seq<Adjust>) {
    forall m: nat :: LastMute(adjusts, before.uuid, m) ==> after.muted == adjusts[m].mute.value
  }

  /** A gain is on a scale where 220 is one and 880 the most. */
  ghost predicate SettledGain(before: Control, after: Control, adjusts: seq<Adjust>) {
    forall m: nat :: LastGain(adjusts, before.uuid, m) ==>
      var raw := adjusts[m].gain.value;
      after.gain == Some(if raw <= 0.0 then 0.0 else if raw >= 880.0 then 4.0 else raw / 220.0)
  }

  /** The last mention of each half is what holds, and what is not mentioned stays. */
  ghost predicate Settled(before: Control, after: Control, adjusts: seq<Adjust>) {
    Spared(before, after, adjusts) && SettledMute(before, after, adjusts) && SettledGain(before, after, adjusts)
  }

  /** A source's setting before the message: none if it has no entry. */
  function SettingAt(controls: seq<Control>, after: seq<Control>, k: nat): Control
    requires k < |after|
  {
    if k < |controls| then controls[k] else Control(after[k].uuid, false, None)
  }

  function AdjustedBy(base: Control, middle: Control, a: Adjust): Control {
    if a.uuid == base.uuid then Adjusted(middle, a) else middle
  }

  lemma SettledOneMore(base: Control, middle: Control, adjusts: seq<Adjust>, a: Adjust)
    requires Settled(base, middle, adjusts)
    ensures Settled(base, AdjustedBy(base, middle, a), adjusts + [a])
  {
    SparedOneMore(base, middle, adjusts, a);
    MuteOneMore(base, middle, adjusts, a);
    GainOneMore(base, middle, adjusts, a);
  }

  lemma SparedOneMore(base: Control, middle: Control, adjusts: seq<Adjust>, a: Adjust)
    requires Spared(base, middle, adjusts)
    ensures Spared(base, AdjustedBy(base, middle, a), adjusts + [a])
  {
    var all := adjusts + [a];
    assert forall n :: 0 <= n < |adjusts| ==> all[n] == adjusts[n];
    assert all[|adjusts|] == a;
  }

  lemma MuteOneMore(base: Control, middle: Control, adjusts: seq<Adjust>, a: Adjust)
    requires SettledMute(base, middle, adjusts)
    ensures SettledMute(base, AdjustedBy(base, middle, a), adjusts + [a])
  {
    var all, after := adjusts + [a], AdjustedBy(base, middle, a);
    forall m: nat | LastMute(all, base.uuid, m) ensures after.muted == all[m].mute.value {
      if m < |adjusts| {
        assert all[|adjusts|] == a && forall n :: 0 <= n < |adjusts| ==> all[n] == adjusts[n];
        assert LastMute(adjusts, base.uuid, m);
      }
    }
  }

  lemma GainOneMore(base: Control, middle: Control, adjusts: seq<Adjust>, a: Adjust)
    requires SettledGain(base, middle, adjusts)
    ensures SettledGain(base, AdjustedBy(base, middle, a), adjusts + [a])
  {
    var all, after := adjusts + [a], AdjustedBy(base, middle, a);
    forall m: nat | LastGain(all, base.uuid, m)
      ensures var raw := all[m].gain.value;
              after.gain == Some(if raw <= 0.0 then 0.0 else if raw >= 880.0 then 4.0 else raw / 220.0)
    {
      if m < |adjusts| {
        assert all[|adjusts|] == a && forall n :: 0 <= n < |adjusts| ==> all[n] == adjusts[n];
        assert LastGain(adjusts, base.uuid, m);
      }
    }
  }

  lemma SettledAtFirst(base: Control)
    ensures Settled(base, base, [])
  {
  }

  lemma Unmentioned(base: Control, adjusts: seq<Adjust>)
    requires forall m :: 0 <= m < |adjusts| ==> adjusts[m].uuid != base.uuid
    ensures Settled(base, base, adjusts)
  {
  }

  /** A source the message names has an entry after it, unless all 32 are taken. */
  ghost predicate AllNamed(after: seq<Control>, adjusts: seq<Adjust>) {
    |after| == 32 || forall m :: 0 <= m < |adjusts| ==> FirstControl(after, adjusts[m].uuid) < |after|
  }

  /** What a viewer message does to every setting: the last mention of each half holds, whatever it does not mention
      stays, and a source it names for the first time gets an entry while there is room. */
  lemma {:induction false} AdjustsSettle(controls: seq<Control>, adjusts: seq<Adjust>)
    requires ControlsDistinct(controls) && forall i :: 0 <= i < |adjusts| ==> |adjusts[i].uuid| < UUID_LEN
    ensures var after := AdjustAll(controls, adjusts);
            && ControlsDistinct(after) && |controls| <= |after| && AllNamed(after, adjusts)
            && forall k :: 0 <= k < |after| ==> Settled(SettingAt(controls, after, k), after[k], adjusts)
  {
    if adjusts == [] {
      forall k | 0 <= k < |controls| ensures Settled(controls[k], controls[k], []) {
        SettledAtFirst(controls[k]);
      }
    } else {
      var front, last := adjusts[..|adjusts| - 1], adjusts[|adjusts| - 1];
      AdjustsSettle(controls, front);
      assert adjusts == front + [last];
      var middle := AdjustAll(controls, front);
      AdjustOneKeeps(middle, last);
      var after := AdjustOne(middle, last);
      forall k | 0 <= k < |after| ensures Settled(SettingAt(controls, after, k), after[k], adjusts) {
        if k < |middle| {
          SettledOneMore(SettingAt(controls, middle, k), middle[k], front, last);
        } else {
          var base := Control(last.uuid, false, None);
          forall m | 0 <= m < |front| ensures front[m].uuid != last.uuid {
            assert FirstControl(middle, front[m].uuid) < |middle|;
          }
          Unmentioned(base, front);
          SettledOneMore(base, base, front, last);
        }
      }
      StillNamed(middle, last, front);
    }
  }

  lemma StillNamed(middle: seq<Control>, last: Adjust, front: seq<Adjust>)
    requires ControlsDistinct(middle) && |last.uuid| < UUID_LEN && AllNamed(middle, front)
    ensures AllNamed(AdjustOne(middle, last), front + [last])
  {
    var after, all := AdjustOne(middle, last), front + [last];
    AdjustOneKeeps(middle, last);
    if |after| != 32 {
      forall m | 0 <= m < |all| ensures FirstControl(after, all[m].uuid) < |after| {
        if m < |front| {
          var k := FirstControl(middle, front[m].uuid);
          assert after[k].uuid == front[m].uuid;
        } else {
          var k := FirstControl(middle, last.uuid);
          assert after[k].uuid == last.uuid;
        }
      }
    }
  }

  /** The setting the mix applies to a source is that of its entry; without one it is heard, at gain one. */
  lemma SettingOf(me: Listener, d: string, k: nat)
    requires ControlsDistinct(me.controls) && k < |me.controls| && me.controls[k].uuid == d
    ensures ViewerMuted(me, d) == me.controls[k].muted
    ensures ViewerGain(me, d) == if me.controls[k].gain.Some? then me.controls[k].gain.value else 1.0
  {
    assert FirstControl(me.controls, d) == k;
  }

  lemma NoSettingOf(me: Listener, d: string)
    requires forall k :: 0 <= k < |me.controls| ==> me.controls[k].uuid != d
    ensures !ViewerMuted(me, d) && ViewerGain(me, d) == 1.0
  {
  }

  class Settings {
    var controls: seq<Control>

    constructor ()
      ensures controls == []
    {
      controls := [];
    }

    method Apply(adjusts: seq<Adjust>)
      modifies this
      ensures controls == AdjustAll(old(controls), adjusts)
    {
      for i := 0 to |adjusts|
        invariant controls == AdjustAll(old(controls), adjusts[..i])
      {
        assert adjusts[..i + 1][..i] == adjusts[..i];
        ApplyOne(adjusts[i]);
      }
      assert adjusts[..|adjusts|] == adjusts;
    }

    method ApplyOne(a: Adjust)
      modifies this
      ensures controls == AdjustOne(old(controls), a)
    {
      var k := 0;
      while k < |controls| && controls[k].uuid != a.uuid
        invariant k <= |controls| && forall j :: 0 <= j < k ==> controls[j].uuid != a.uuid
      {
        k := k + 1;
      }
      FirstControlIs(controls, a.uuid, k);
      if k == |controls| {
        if |controls| >= MAX_PEER_ADJ {
          return;
        }
        controls := controls + [Control(Fit(a.uuid), false, None)];
      }
      var dst := controls[k];
      if a.mute.Some? {
        dst := dst.(muted := a.mute.value);
      }
      if a.gain.Some? {
        var g := a.gain.value / GAIN_FACTOR;
        if g < 0.0 {
          g := 0.0;
        } else if g > GAIN_MAX {
          g := GAIN_MAX;
        }
        dst := dst.(gain := Some(g));
      }
      controls := controls[k := dst];
    }
  }

  lemma FirstControlIs(controls: seq<Control>, uuid: string, k: nat)
    requires k <= |controls| && (k < |controls| ==> controls[k].uuid == uuid)
    requires forall j :: 0 <= j < k ==> controls[j].uuid != uuid
    ensures FirstControl(controls, uuid) == k
  {
  }

  // ---- One listener's pass ------------------------------------------------------------------------------------------

  ghost predicate Sized(t: Tick, peers: seq<Peer>) {
    && |t.ok| == |peers| <= MAX_MIX
    && forall j :: 0 <= j < |peers| ==> |peers[j].samples| >= FRAME_TOTAL
  }

  /** Fail-closed: neither end of the pair may lack a row-4 standing. */
  predicate FailsPairRule(t: Tick, i: nat, j: nat)
    requires i < |t.ok| && j < |t.ok|
  {
    t.enforced && (!t.ok[i] || !t.ok[j])
  }

  predicate ViewerMuted(me: Listener, d: string) {
    var k := FirstControl(me.controls, d);
    k < |me.controls| && me.controls[k].muted
  }

  function ViewerGain(me: Listener, d: string): real {
    var k := FirstControl(me.controls, d);
    if k < |me.controls| && me.controls[k].gain.Some? then me.controls[k].gain.value else 1.0
  }

  predicate SettingsSilence(me: Listener, d: string) {
    d in me.modMuted || ViewerMuted(me, d) || d in me.excluded
  }

  /** Silenced before any geometry is looked at. */
  predicate Silenced(t: Tick, me: Listener, peers: seq<Peer>, i: nat, j: nat)
    requires |t.ok| == |peers| && i < |peers| && j < |peers|
  {
    FailsPairRule(t, i, j) || (peers[j].display.Some? && SettingsSilence(me, peers[j].display.value))
  }

  /** The spatial stage looks at this pair, so its latch is stamped with this tick. */
  predicate Evaluated(t: Tick, me: Listener, peers: seq<Peer>, i: nat, j: nat)
    requires |t.ok| == |peers| && i < |peers| && j < |peers|
  {
    j != i && !Silenced(t, me, peers, i, j) && peers[j].display.Some? && t.spatial && peers[i].geo.Some?
      && peers[j].geo.Some?
  }

  function Distance(t: Tick, peers: seq<Peer>, i: nat, j: nat): real
    requires i < |peers| && j < |peers| && peers[i].geo.Some? && peers[j].geo.Some?
  {
    t.space.distance(peers[i].geo.value.lp, peers[j].geo.value.sp)
  }

  function Shape(t: Tick, peers: seq<Peer>, i: nat, j: nat): (real, real)
    requires i < |peers| && j < |peers| && peers[i].geo.Some? && peers[j].geo.Some?
  {
    t.space.shape(peers[i].geo.value.lp, peers[i].geo.value.lh, peers[j].geo.value.sp)
  }

  function Stage(t: Tick, me: Listener, peers: seq<Peer>, i: nat, latches: seq<Latch>, j: nat): (Pair, seq<Latch>)
    requires |t.ok| == |peers| && i < |peers| && j < |peers|
  {
    if j == i then (Pair(false, 1.0, 1.0), latches)
    else if Silenced(t, me, peers, i, j) then (Pair(true, 1.0, 1.0), latches)
    else
      var gain := if peers[j].display.Some? then ViewerGain(me, peers[j].display.value) else 1.0;
      if !Evaluated(t, me, peers, i, j) then (Pair(false, gain, gain), latches)
      else
        var cull := Cull(latches, t.space.lim, peers[j].display.value, Distance(t, peers, i, j), t.seqNo);
        var lr := Shape(t, peers, i, j);
        (if cull.0 then Pair(true, gain, gain) else Pair(false, gain * lr.0, gain * lr.1), cull.1)
  }

  /** The pass over the first n sources. */
  function Stages(t: Tick, me: Listener, peers: seq<Peer>, i: nat, latches: seq<Latch>,
                  n: nat): (r: (seq<Pair>, seq<Latch>))
    requires |t.ok| == |peers| && i < |peers| && n <= |peers|
    ensures |r.0| == n
  {
    if n == 0 then ([], latches)
    else
      var before := Stages(t, me, peers, i, latches, n - 1);
      var stage := Stage(t, me, peers, i, before.1, n - 1);
      (before.0 + [stage.0], stage.1)
  }

  function Samples(peers: seq<Peer>): (s: seq<Option<seq<real>>>)
    ensures |s| == |peers| && forall j :: 0 <= j < |peers| ==> s[j] == Some(peers[j].samples)
  {
    seq(|peers|, j requires 0 <= j < |peers| => Some(peers[j].samples))
  }

  function Audible(peers: seq<Peer>): (s: seq<bool>)
    ensures |s| == |peers| && forall j :: 0 <= j < |peers| ==> s[j] == peers[j].audible
  {
    seq(|peers|, j requires 0 <= j < |peers| => peers[j].audible)
  }

  function KernelInputs(peers: seq<Peer>, pairs: seq<Pair>, i: nat): (inp: Mix.Inputs)
    requires |pairs| == |peers|
    ensures (forall j :: 0 <= j < |peers| ==> |peers[j].samples| >= FRAME_TOTAL) ==> inp.Sized(FRAME_TOTAL)
  {
    Mix.Inputs(Samples(peers), Some(Audible(peers)),
               Some(seq(|pairs|, j requires 0 <= j < |pairs| => pairs[j].muted)),
               Some(seq(|pairs|, j requires 0 <= j < |pairs| => pairs[j].gainL)),
               Some(seq(|pairs|, j requires 0 <= j < |pairs| => pairs[j].gainR)), i)
  }

  /** What the tick does for one listener: the frame relayed to it, whether its encode is skipped, and its cull table
      after. */
  datatype Output = Output(frame: seq<real>, skip: bool, latches: seq<Latch>)

  function Frame(inp: Mix.Inputs): (f: seq<real>)
    requires inp.Sized(FRAME_TOTAL)
    ensures |f| == FRAME_TOTAL
    ensures forall k :: 0 <= k < FRAME_TOTAL ==> f[k] == Mix.ClampSample(Mix.Sum(inp, |inp.sources|, k))
  {
    seq(FRAME_TOTAL, k requires 0 <= k < FRAME_TOTAL => Mix.ClampSample(Mix.Sum(inp, |inp.sources|, k)))
  }

  ghost predicate AllZero(frame: seq<real>) {
    forall k :: 0 <= k < |frame| ==> frame[k] == 0.0
  }

  /** The output, of an echoing listener (its own delayed frame) or a mixed one. */
  ghost function Mixed(t: Tick, me: Listener, peers: seq<Peer>, i: nat, latches: seq<Latch>,
                       echo: Option<seq<real>>): Output
    requires Sized(t, peers) && i < |peers|
  {
    var (pairs, after) := Stages(t, me, peers, i, latches, |peers|);
    var inp := KernelInputs(peers, pairs, i);
    if echo.Some? then Output(echo.value, AllZero(echo.value), after)
    else Output(Frame(inp), Mix.Count(inp, |peers|) == 0 || AllZero(Frame(inp)), after)
  }

  /** The body of pass 2 for listener i. */
  method MixFor(t: Tick, me: Listener, peers: seq<Peer>, i: nat, table: Table, echo: Option<seq<real>>)
    returns (frame: array<real>, skip: bool)
    requires Sized(t, peers) && i < |peers| && table.Valid() && (echo.Some? ==> |echo.value| == FRAME_TOTAL)
    modifies table, table.slots
    ensures table.Valid() && fresh(frame) && frame.Length == 1920
    ensures Output(frame[..], skip, table.slots[..table.n]) == Mixed(t, me, peers, i, old(table.slots[..table.n]), echo)
  {
    var count := |peers|;
    var pairs := DecidePairs(t, me, peers, i, table);
    frame := new real[FRAME_TOTAL];
    var summed := 1;
    if echo.Some? {
      CopyAt(frame, 0, echo.value);
      assert frame[..] == echo.value;
    } else {
      var inp := KernelInputs(peers, pairs, i);
      summed := Mix.NMinusOneStereo(frame, inp);
      Mix.Clamp(frame);
      assert frame[..] == Frame(inp);
    }
    skip := Mix.EncodeSkip(summed, frame);
    assert AllZero(frame[..]) <==> forall k :: 0 <= k < frame.Length ==> frame[k] == 0.0;
  }

  /** Pair rule, moderation mute, the viewer's setting, exclusion, and only then the spatial stage. */
  method DecidePairs(t: Tick, me: Listener, peers: seq<Peer>, i: nat, table: Table) returns (pairs: seq<Pair>)
    requires |t.ok| == |peers| && i < |peers| && table.Valid()
    modifies table, table.slots
    ensures table.Valid() && (pairs, table.slots[..table.n])
        == Stages(t, me, peers, i, old(table.slots[..table.n]), |peers|)
  {
    pairs := [];
    for j := 0 to |peers|
      invariant table.Valid()
      invariant (pairs, table.slots[..table.n]) == Stages(t, me, peers, i, old(table.slots[..table.n]), j)
    {
      var pair := DecidePair(t, me, peers, i, table, j);
      pairs := pairs + [pair];
    }
  }

  method DecidePair(t: Tick, me: Listener, peers: seq<Peer>, i: nat, table: Table, j: nat) returns (pair: Pair)
    requires |t.ok| == |peers| && i < |peers| && j < |peers| && table.Valid()
    modifies table, table.slots
    ensures table.Valid() && (pair, table.slots[..table.n]) == Stage(t, me, peers, i, old(table.slots[..table.n]), j)
  {
    pair := Pair(false, 1.0, 1.0);
    if j == i {
      return;
    }
    if t.enforced && (!t.ok[i] || !t.ok[j]) {
      return Pair(true, 1.0, 1.0);
    }
    if peers[j].display.None? {
      return;
    }
    var disp := peers[j].display.value;
    var muted, gain := disp in me.modMuted, 1.0;
    var k := 0;
    while k < |me.controls| && me.controls[k].uuid != disp
      invariant k <= |me.controls| && forall m :: 0 <= m < k ==> me.controls[m].uuid != disp
    {
      k := k + 1;
    }
    FirstControlIs(me.controls, disp, k);
    if k < |me.controls| {
      if me.controls[k].muted {
        muted := true;
      }
      if me.controls[k].gain.Some? {
        gain := me.controls[k].gain.value;
      }
    }
    if disp in me.excluded {
      muted := true;
    }
    if muted {
      return Pair(true, 1.0, 1.0);
    }
    pair := Pair(false, gain, gain);
    if !t.spatial || peers[i].geo.None? || peers[j].geo.None? {
      return;
    }
    var culled := table.DistanceCull(t.space.lim, disp, Distance(t, peers, i, j), t.seqNo);
    if culled {
      return Pair(true, gain, gain);
    }
    var (l, r) := Shape(t, peers, i, j);
    assert Stage(t, me, peers, i, old(table.slots[..table.n]), j).0 == Pair(false, gain * l, gain * r);
    return Pair(false, gain * l, gain * r);
  }

  // ---- What a listener's mix does not depend on ---------------------------------------------------------------------

  /** The same room as far as listener i may tell: displays agree; its own camera agrees, and so does every source it
      has not silenced, in place and, unless the pass culled it, in samples and activity. Its own samples, activity and
      avatar position, and everything about a silenced source, are free. In a flat room all geometry is free. */
  ghost predicate SameToListener(t: Tick, me: Listener, peers: seq<Peer>, others: seq<Peer>, i: nat,
                                 latches: seq<Latch>)
    requires Sized(t, peers) && i < |peers|
  {
    && |others| == |peers|
    && (forall j :: 0 <= j < |peers| ==> others[j].display == peers[j].display)
    && SameCamera(t, peers[i], others[i])
    && forall j :: 0 <= j < |peers| && j != i && !Silenced(t, me, peers, i, j) ==>
         && SamePlace(t, peers[j], others[j])
         && (Stages(t, me, peers, i, latches, |peers|).0[j].muted
             || (others[j].samples == peers[j].samples && others[j].audible == peers[j].audible))
  }

  ghost predicate SameCamera(t: Tick, a: Peer, b: Peer) {
    t.spatial ==> a.geo.Some? == b.geo.Some?
                  && (a.geo.Some? ==> a.geo.value.lp == b.geo.value.lp && a.geo.value.lh == b.geo.value.lh)
  }

  ghost predicate SamePlace(t: Tick, a: Peer, b: Peer) {
    t.spatial ==> a.geo.Some? == b.geo.Some? && (a.geo.Some? ==> a.geo.value.sp == b.geo.value.sp)
  }

  lemma StageAgrees(t: Tick, me: Listener, peers: seq<Peer>, others: seq<Peer>, i: nat, latches: seq<Latch>, j: nat)
    requires |t.ok| == |peers| == |others| && i < |peers| && j < |peers|
    requires others[j].display == peers[j].display && SameCamera(t, peers[i], others[i])
    requires j != i && !Silenced(t, me, peers, i, j) ==> SamePlace(t, peers[j], others[j])
    ensures Stage(t, me, others, i, latches, j) == Stage(t, me, peers, i, latches, j)
  {
    if Evaluated(t, me, peers, i, j) {
      assert Distance(t, peers, i, j) == Distance(t, others, i, j);
      assert Shape(t, peers, i, j) == Shape(t, others, i, j);
    }
    var a, b := Stage(t, me, others, i, latches, j), Stage(t, me, peers, i, latches, j);
    assert a.0.gainL == b.0.gainL;
    assert a.0 == b.0;
    assert a.1 == b.1;
  }

  lemma {:induction false} StagesAgree(t: Tick, me: Listener, peers: seq<Peer>, others: seq<Peer>, i: nat,
                                       latches: seq<Latch>, n: nat)
    requires |t.ok| == |peers| == |others| && i < |peers| && n <= |peers|
    requires forall j :: 0 <= j < |peers| ==> others[j].display == peers[j].display
    requires SameCamera(t, peers[i], others[i])
    requires forall j :: 0 <= j < |peers| && j != i && !Silenced(t, me, peers, i, j) ==>
        SamePlace(t, peers[j], others[j])
    ensures Stages(t, me, others, i, latches, n) == Stages(t, me, peers, i, latches, n)
  {
    if n > 0 {
      StagesAgree(t, me, peers, others, i, latches, n - 1);
      StageAgrees(t, me, peers, others, i, Stages(t, me, peers, i, latches, n - 1).1, n - 1);
    }
  }

  lemma {:induction false} SumAgrees(a: Mix.Inputs, b: Mix.Inputs, m: nat, k: nat)
    requires a.Sized(k + 1) && b.Sized(k + 1) && |a.sources| == |b.sources| && m <= |a.sources|
    requires forall s :: 0 <= s < |a.sources| ==> Mix.Heard(a, s) == Mix.Heard(b, s)
    requires forall s :: 0 <= s < |a.sources| && Mix.Heard(a, s) ==>
               a.sources[s] == b.sources[s] && Mix.GainL(a, s) == Mix.GainL(b, s) && Mix.GainR(a, s) == Mix.GainR(b, s)
    ensures Mix.Sum(a, m, k) == Mix.Sum(b, m, k) && Mix.Count(a, m) == Mix.Count(b, m)
  {
    if m > 0 {
      SumAgrees(a, b, m - 1, k);
    }
  }

  /** Non-interference: the frame a listener gets, the decision to skip its encode and its cull table do not depend on
      its own sound or standing place, nor on anything about a source it excludes, has muted, is moderation-muted from
      or that fails the pair rule, nor on what a culled source says. */
  lemma NonInterference(t: Tick, me: Listener, peers: seq<Peer>, others: seq<Peer>, i: nat, latches: seq<Latch>)
    requires Sized(t, peers) && Sized(t, others) && i < |peers| && SameToListener(t, me, peers, others, i, latches)
    ensures Mixed(t, me, others, i, latches, None) == Mixed(t, me, peers, i, latches, None)
  {
    var n := |peers|;
    StagesAgree(t, me, peers, others, i, latches, n);
    var pairs := Stages(t, me, peers, i, latches, n).0;
    var a, b := KernelInputs(peers, pairs, i), KernelInputs(others, pairs, i);
    MutedOfSilenced(t, me, peers, i, latches, n);
    forall s | 0 <= s < n
      ensures Mix.Heard(a, s) == Mix.Heard(b, s) && (Mix.Heard(a, s) ==> a.sources[s] == b.sources[s])
    {
      if s != i && !pairs[s].muted {
        assert !Silenced(t, me, peers, i, s);
      }
    }
    forall k | 0 <= k < FRAME_TOTAL ensures Mix.Sum(a, n, k) == Mix.Sum(b, n, k) && Mix.Count(a, n) == Mix.Count(b, n) {
      SumAgrees(a, b, n, k);
    }
    SumAgrees(a, b, n, 0);
    assert Frame(a) == Frame(b);
  }

  lemma {:induction false} MutedOfSilenced(t: Tick, me: Listener, peers: seq<Peer>, i: nat, latches: seq<Latch>, n: nat)
    requires |t.ok| == |peers| && i < |peers| && n <= |peers|
    ensures forall j :: 0 <= j < n && j != i && Silenced(t, me, peers, i, j) ==>
        Stages(t, me, peers, i, latches, n).0[j].muted
  {
    if n > 0 {
      MutedOfSilenced(t, me, peers, i, latches, n - 1);
    }
  }

  // ---- Who is heard, and how ----------------------------------------------------------------------------------------

  /** What stage j leaves is what the whole pass leaves for source j. */
  lemma {:induction false} StageOfPass(t: Tick, me: Listener, peers: seq<Peer>, i: nat, latches: seq<Latch>, n: nat,
                                       j: nat)
    requires |t.ok| == |peers| && i < |peers| && j < n <= |peers|
    ensures var before := Stages(t, me, peers, i, latches, j).1;
            Stages(t, me, peers, i, latches, n).0[j] == Stage(t, me, peers, i, before, j).0
  {
    if j < n - 1 {
      StageOfPass(t, me, peers, i, latches, n - 1, j);
    }
  }

  /** One of the listener's own entries mutes this source. */
  ghost predicate MutesOwn(controls: seq<Control>, d: string) {
    exists k :: 0 <= k < |controls| && controls[k].uuid == d && controls[k].muted
  }

  /** The listener may not, or does not want to, hear this source. */
  ghost predicate Barred(t: Tick, me: Listener, peers: seq<Peer>, i: nat, j: nat)
    requires |t.ok| == |peers| && i < |peers| && j < |peers|
  {
    || (t.enforced && !(t.ok[i] && t.ok[j]))
    || (peers[j].display.Some?
        && var d := peers[j].display.value; d in me.modMuted || d in me.excluded || MutesOwn(me.controls, d))
  }

  lemma SilencedIsBarred(t: Tick, me: Listener, peers: seq<Peer>, i: nat, j: nat)
    requires |t.ok| == |peers| && i < |peers| && j < |peers| && ControlsDistinct(me.controls)
    ensures Silenced(t, me, peers, i, j) <==> Barred(t, me, peers, i, j)
  {
    if peers[j].display.Some? {
      var d := peers[j].display.value;
      if MutesOwn(me.controls, d) {
        var k :| 0 <= k < |me.controls| && me.controls[k].uuid == d && me.controls[k].muted;
        SettingOf(me, d, k);
      }
    }
  }

  /** The pass mutes another source exactly when it is barred, or located and culled; one it does not mute plays at the
      listener's gain for it, and a located one with the pan and falloff of its place on either side. */
  lemma HeardExactly(t: Tick, me: Listener, peers: seq<Peer>, i: nat, latches: seq<Latch>, j: nat)
    requires |t.ok| == |peers| && i < |peers| && j < |peers| && j != i && ControlsDistinct(me.controls)
    ensures var pair := Stages(t, me, peers, i, latches, |peers|).0[j];
            var table := Stages(t, me, peers, i, latches, j).1;
            var located := t.spatial && peers[i].geo.Some? && peers[j].geo.Some? && peers[j].display.Some?;
            var gain := if peers[j].display.Some? then ViewerGain(me, peers[j].display.value) else 1.0;
            && (pair.muted <==>
                  || Barred(t, me, peers, i, j)
                  || (located && Cull(table, t.space.lim, peers[j].display.value, Distance(t, peers, i, j), t.seqNo).0))
            && (!pair.muted && located ==>
                  && pair.gainL == gain * Shape(t, peers, i, j).0 && pair.gainR == gain * Shape(t, peers, i, j).1)
            && (!pair.muted && !located ==> pair.gainL == gain && pair.gainR == gain)
  {
    StageOfPass(t, me, peers, i, latches, |peers|, j);
    SilencedIsBarred(t, me, peers, i, j);
  }

  /** An echoing listener is sent its own delayed sound and nothing of the room, its encode skipped on silence alone;
      its cull table advances as if it were mixed for. */
  lemma EchoIsOwnSound(t: Tick, me: Listener, peers: seq<Peer>, i: nat, latches: seq<Latch>, echo: seq<real>)
    requires Sized(t, peers) && i < |peers|
    ensures var out := Mixed(t, me, peers, i, latches, Some(echo));
            && out.frame == echo && (out.skip <==> forall k :: 0 <= k < |echo| ==> echo[k] == 0.0)
            && out.latches == Mixed(t, me, peers, i, latches, None).latches
  {
  }
}
