/** What a listener's own geometry decides, under any acoustics the plugin has: exactly when its pass, and exactly when
    the frame it is sent, is independent of where it stands and looks from. */
module OwnCamera {
  import opened Common
  import opened Hysteresis
  import opened RoomMix
  import opened Acoustics
  import Mix

  /** The spatial stage would look at this source if the listener has geometry. */
  predicate Locatable(t: Tick, me: Listener, peers: seq<Peer>, i: nat, j: nat)
    requires |t.ok| == |peers| && i < |peers| && j < |peers|
  {
    j != i && !Silenced(t, me, peers, i, j) && peers[j].display.Some? && t.spatial && peers[j].geo.Some?
  }

  function Placed(peers: seq<Peer>, i: nat, own: Option<Geometry>): (r: seq<Peer>)
    requires i < |peers|
    ensures |r| == |peers| && r[i] == peers[i].(geo := own)
    ensures forall j :: 0 <= j < |peers| && j != i ==> r[j] == peers[j]
  {
    peers[i := peers[i].(geo := own)]
  }

  /** The listener's pass with its own geometry as given. */
  ghost function PassAt(t: Tick, me: Listener, peers: seq<Peer>, i: nat, latches: seq<Latch>, own: Option<Geometry>)
    : Output
    requires Sized(t, peers) && i < |peers|
  {
    Mixed(t, me, Placed(peers, i, own), i, latches, None)
  }

  /** Moving the listener changes nothing: frame, skip decision and cull table. */
  ghost predicate OwnGeometryFree(t: Tick, leash: real, me: Listener, peers: seq<Peer>, i: nat, latches: seq<Latch>)
    requires Sized(t, peers) && i < |peers|
  {
    forall a, b :: Leashed(t.space, leash, a) && Leashed(t.space, leash, b) ==>
      PassAt(t, me, peers, i, latches, a) == PassAt(t, me, peers, i, latches, b)
  }

  /** Moving the listener changes nothing it is sent. */
  ghost predicate SentFree(t: Tick, leash: real, me: Listener, peers: seq<Peer>, i: nat, latches: seq<Latch>)
    requires Sized(t, peers) && i < |peers|
  {
    forall a, b :: Leashed(t.space, leash, a) && Leashed(t.space, leash, b) ==>
      SameSent(PassAt(t, me, peers, i, latches, a), PassAt(t, me, peers, i, latches, b))
  }

  predicate SameSent(x: Output, y: Output) {
    x.frame == y.frame && x.skip == y.skip
  }

  // ---- The whole pass -----------------------------------------------------------------------------------------------

  lemma {:induction false} NothingLocatable(t: Tick, me: Listener, peers: seq<Peer>, i: nat, latches: seq<Latch>,
                                            a: Option<Geometry>, b: Option<Geometry>, n: nat)
    requires |t.ok| == |peers| && i < |peers| && n <= |peers|
    requires forall j :: 0 <= j < |peers| ==> !Locatable(t, me, peers, i, j)
    ensures Stages(t, me, Placed(peers, i, a), i, latches, n) == Stages(t, me, Placed(peers, i, b), i, latches, n)
  {
    if n > 0 {
      NothingLocatable(t, me, peers, i, latches, a, b, n - 1);
      StageUnlocated(t, me, peers, i, Stages(t, me, Placed(peers, i, a), i, latches, n - 1).1, a, b, n - 1);
    }
  }

  lemma StageUnlocated(t: Tick, me: Listener, peers: seq<Peer>, i: nat, latches: seq<Latch>, a: Option<Geometry>,
                       b: Option<Geometry>, j: nat)
    requires |t.ok| == |peers| && i < |peers| && j < |peers| && !Locatable(t, me, peers, i, j)
    ensures Stage(t, me, Placed(peers, i, a), i, latches, j) == Stage(t, me, Placed(peers, i, b), i, latches, j)
    ensures Stage(t, me, Placed(peers, i, a), i, latches, j).1 == latches
  {
    assert !Evaluated(t, me, Placed(peers, i, a), i, j) && !Evaluated(t, me, Placed(peers, i, b), i, j);
  }

  /** Some latch carries this tick. */
  ghost predicate StampedNow(latches: seq<Latch>, now: nat) {
    exists k :: 0 <= k < |latches| && latches[k].seen == now
  }

  /** A table that earlier ticks left. */
  ghost predicate Earlier(latches: seq<Latch>, now: nat) {
    forall k :: 0 <= k < |latches| ==> latches[k].seen < now
  }

  /** The slot a cull writes. */
  function Written(x: seq<Latch>, uuid: string): nat {
    var i := Find(x, uuid);
    if i < |x| || |x| < MAX_MIX then i else LeastSeen(x)
  }

  lemma CullSlot(x: seq<Latch>, lim: Limits, uuid: string, d: real, now: nat)
    ensures var (culled, after) := Cull(x, lim, uuid, d, now);
            var w := Written(x, uuid);
            && w < |after| && |after| == (if w == |x| then |x| + 1 else |x|)
            && after[w].culled == culled && after[w].seen == now
            && forall k :: 0 <= k < |x| && k != w ==> after[k] == x[k]
  {
  }

  lemma CullStamps(x: seq<Latch>, lim: Limits, uuid: string, d: real, now: nat)
    ensures StampedNow(Cull(x, lim, uuid, d, now).1, now)
  {
    CullSlot(x, lim, uuid, d, now);
    assert Cull(x, lim, uuid, d, now).1[Written(x, uuid)].seen == now;
  }

  /** Without geometry of its own the listener locates nobody, and its table stays as it is. */
  lemma {:induction false} UnplacedTable(t: Tick, me: Listener, peers: seq<Peer>, i: nat, latches: seq<Latch>, n: nat)
    requires |t.ok| == |peers| && i < |peers| && n <= |peers|
    ensures Stages(t, me, Placed(peers, i, None), i, latches, n).1 == latches
  {
    if n > 0 {
      UnplacedTable(t, me, peers, i, latches, n - 1);
    }
  }

  predicate SomeLocatable(t: Tick, me: Listener, peers: seq<Peer>, i: nat, n: nat)
    requires |t.ok| == |peers| && i < |peers| && n <= |peers|
  {
    n > 0 && (Locatable(t, me, peers, i, n - 1) || SomeLocatable(t, me, peers, i, n - 1))
  }

  lemma {:induction false} SomeLocatableIs(t: Tick, me: Listener, peers: seq<Peer>, i: nat, n: nat)
    requires |t.ok| == |peers| && i < |peers| && n <= |peers|
    ensures SomeLocatable(t, me, peers, i, n) <==> exists j :: 0 <= j < n && Locatable(t, me, peers, i, j)
  {
    if n > 0 {
      SomeLocatableIs(t, me, peers, i, n - 1);
    }
  }

  /** With any geometry of its own the listener stamps a latch as soon as there is a source to locate. */
  lemma {:induction false} PlacedTable(t: Tick, me: Listener, peers: seq<Peer>, i: nat, latches: seq<Latch>,
                                       own: Geometry, n: nat)
    requires |t.ok| == |peers| && i < |peers| && n <= |peers| && SomeLocatable(t, me, peers, i, n)
    ensures StampedNow(Stages(t, me, Placed(peers, i, Some(own)), i, latches, n).1, t.seqNo)
  {
    var p := Placed(peers, i, Some(own));
    var x := Stages(t, me, p, i, latches, n - 1).1;
    if Locatable(t, me, peers, i, n - 1) {
      assert Evaluated(t, me, p, i, n - 1);
      CullStamps(x, t.space.lim, p[n - 1].display.value, Distance(t, p, i, n - 1), t.seqNo);
    } else {
      PlacedTable(t, me, peers, i, latches, own, n - 1);
      StageUnlocated(t, me, peers, i, x, Some(own), None, n - 1);
    }
  }

  /** Under any one acoustics, own geometry is free exactly when there is nothing to locate: in a flat room, or when no
      unsilenced source with a display has geometry. */
  lemma OwnGeometryFreeExactly(t: Tick, leash: real, me: Listener, peers: seq<Peer>, i: nat, latches: seq<Latch>)
    requires Sized(t, peers) && i < |peers| && Earlier(latches, t.seqNo) && leash > 0.0 && Euclidean(t.space)
    ensures OwnGeometryFree(t, leash, me, peers, i, latches) <==>
              forall j :: 0 <= j < |peers| ==> !Locatable(t, me, peers, i, j)
  {
    if forall j :: 0 <= j < |peers| ==> !Locatable(t, me, peers, i, j) {
      forall a, b ensures PassAt(t, me, peers, i, latches, a) == PassAt(t, me, peers, i, latches, b) {
        NothingLocatable(t, me, peers, i, latches, a, b, |peers|);
        SamePassInputs(t, me, peers, i, latches, a, b);
      }
    } else {
      SomeLocatableIs(t, me, peers, i, |peers|);
      var here := StandingThere(t.space, leash);
      TablesDiffer(t, me, peers, i, latches, here);
      NotFree(t, leash, me, peers, i, latches, None, Some(here));
    }
  }

  lemma StandingThere(space: Space, leash: real) returns (here: Geometry)
    requires leash > 0.0 && Euclidean(space)
    ensures Leashed(space, leash, Some(here)) && Leashed(space, leash, None)
  {
    here := Geometry(ORIGIN, ORIGIN, AHEAD);
    AtAvatar(space, leash, ORIGIN, AHEAD);
  }

  lemma NotFree(t: Tick, leash: real, me: Listener, peers: seq<Peer>, i: nat, latches: seq<Latch>, a: Option<Geometry>,
                b: Option<Geometry>)
    requires Sized(t, peers) && i < |peers| && Leashed(t.space, leash, a) && Leashed(t.space, leash, b)
    requires PassAt(t, me, peers, i, latches, a) != PassAt(t, me, peers, i, latches, b)
    ensures !OwnGeometryFree(t, leash, me, peers, i, latches)
  {
  }

  lemma TablesDiffer(t: Tick, me: Listener, peers: seq<Peer>, i: nat, latches: seq<Latch>, own: Geometry)
    requires Sized(t, peers) && i < |peers| && Earlier(latches, t.seqNo) && SomeLocatable(t, me, peers, i, |peers|)
    ensures PassAt(t, me, peers, i, latches, None) != PassAt(t, me, peers, i, latches, Some(own))
  {
    UnplacedTable(t, me, peers, i, latches, |peers|);
    PlacedTable(t, me, peers, i, latches, own, |peers|);
    PassTable(t, me, peers, i, latches, None);
    PassTable(t, me, peers, i, latches, Some(own));
  }

  lemma PassTable(t: Tick, me: Listener, peers: seq<Peer>, i: nat, latches: seq<Latch>, own: Option<Geometry>)
    requires Sized(t, peers) && i < |peers|
    ensures PassAt(t, me, peers, i, latches, own).latches
         == Stages(t, me, Placed(peers, i, own), i, latches, |peers|).1
  {
  }

  const ORIGIN := Vec(0.0, 0.0, 0.0)
  const AHEAD := Heading(0.0, 0.0, 0.0, 1.0)

  lemma SamePassInputs(t: Tick, me: Listener, peers: seq<Peer>, i: nat, latches: seq<Latch>, a: Option<Geometry>,
                       b: Option<Geometry>)
    requires Sized(t, peers) && i < |peers|
    requires Stages(t, me, Placed(peers, i, a), i, latches, |peers|)
        == Stages(t, me, Placed(peers, i, b), i, latches, |peers|)
    ensures Mixed(t, me, Placed(peers, i, a), i, latches, None) == Mixed(t, me, Placed(peers, i, b), i, latches, None)
  {
    var p, q := Placed(peers, i, a), Placed(peers, i, b);
    assert Samples(p) == Samples(q) && Audible(p) == Audible(q);
  }

  // ---- What the listener is sent ------------------------------------------------------------------------------------

  function Inputs(t: Tick, me: Listener, peers: seq<Peer>, i: nat, latches: seq<Latch>): (inp: Mix.Inputs)
    requires |t.ok| == |peers| && i < |peers|
    ensures (forall j :: 0 <= j < |peers| ==> |peers[j].samples| >= FRAME_TOTAL) ==> inp.Sized(FRAME_TOTAL)
  {
    KernelInputs(peers, Stages(t, me, peers, i, latches, |peers|).0, i)
  }

  /** What a source adds to sample k, from what the pass left for it. */
  function Gained(peer: Peer, pair: Pair, k: nat): real
    requires k < |peer.samples|
  {
    if peer.audible && !pair.muted then peer.samples[k] * (if k % 2 == 0 then pair.gainL else pair.gainR) else 0.0
  }

  lemma TermOf(peers: seq<Peer>, pairs: seq<Pair>, i: nat, s: nat, k: nat)
    requires |pairs| == |peers| && i < |peers| && s < |peers| && k < FRAME_TOTAL
    requires forall j :: 0 <= j < |peers| ==> |peers[j].samples| >= FRAME_TOTAL
    ensures Mix.Term(KernelInputs(peers, pairs, i), s, k) == if s == i then 0.0 else Gained(peers[s], pairs[s], k)
  {
  }

  /** The table as stage s meets it. */
  function Before(t: Tick, me: Listener, peers: seq<Peer>, i: nat, latches: seq<Latch>, s: nat): seq<Latch>
    requires |t.ok| == |peers| && i < |peers| && s < |peers|
  {
    Stages(t, me, peers, i, latches, s).1
  }

  lemma PassTerm(t: Tick, me: Listener, peers: seq<Peer>, i: nat, latches: seq<Latch>, s: nat, k: nat)
    requires Sized(t, peers) && i < |peers| && s < |peers| && k < FRAME_TOTAL
    ensures var pair := Stage(t, me, peers, i, Before(t, me, peers, i, latches, s), s).0;
            Mix.Term(Inputs(t, me, peers, i, latches), s, k) == if s == i then 0.0 else Gained(peers[s], pair, k)
  {
    StageOfPass(t, me, peers, i, latches, |peers|, s);
    TermOf(peers, Stages(t, me, peers, i, latches, |peers|).0, i, s, k);
  }

  lemma {:induction false} NobodyHeard(x: Mix.Inputs, m: nat, k: nat)
    requires x.Sized(k + 1) && m <= |x.sources| && Mix.Count(x, m) == 0
    ensures Mix.Sum(x, m, k) == 0.0
  {
    if m > 0 {
      NobodyHeard(x, m - 1, k);
    }
  }

  /** A frame with nobody heard is all zeros, so the encode is skipped exactly on a zero frame. */
  lemma SkippedExactly(t: Tick, me: Listener, peers: seq<Peer>, i: nat, latches: seq<Latch>)
    requires Sized(t, peers) && i < |peers|
    ensures var out := Mixed(t, me, peers, i, latches, None);
            out.frame == Frame(Inputs(t, me, peers, i, latches)) && (out.skip <==> AllZero(out.frame))
  {
    var inp := Inputs(t, me, peers, i, latches);
    if Mix.Count(inp, |peers|) == 0 {
      forall k | 0 <= k < FRAME_TOTAL ensures Frame(inp)[k] == 0.0 {
        NobodyHeard(inp, |peers|, k);
      }
    }
  }

  /** What source s adds to sample k with the listener as placed. */
  ghost function Part(t: Tick, me: Listener, peers: seq<Peer>, i: nat, latches: seq<Latch>, own: Option<Geometry>,
                      s: nat, k: nat): real
    requires Sized(t, peers) && i < |peers| && s < |peers| && k < FRAME_TOTAL
  {
    Mix.Term(Inputs(t, me, Placed(peers, i, own), i, latches), s, k)
  }

  /** The same of every source. */
  ghost function Parts(t: Tick, me: Listener, peers: seq<Peer>, i: nat, latches: seq<Latch>, own: Option<Geometry>,
                       k: nat): (r: seq<real>)
    requires Sized(t, peers) && i < |peers| && k < FRAME_TOTAL
    ensures |r| == |peers| && forall s :: 0 <= s < |peers| ==> r[s] == Part(t, me, peers, i, latches, own, s, k)
  {
    seq(|peers|, s requires 0 <= s < |peers| => Part(t, me, peers, i, latches, own, s, k))
  }

  /** Which sources are to be located. */
  function Flags(t: Tick, me: Listener, peers: seq<Peer>, i: nat): (r: seq<bool>)
    requires |t.ok| == |peers| && i < |peers|
    ensures |r| == |peers| && forall s :: 0 <= s < |peers| ==> r[s] == Locatable(t, me, peers, i, s)
  {
    seq(|peers|, s requires 0 <= s < |peers| => Locatable(t, me, peers, i, s))
  }

  /** The sum of the first m values whose flag is `which`. */
  function Kept(values: seq<real>, flags: seq<bool>, which: bool, m: nat): real
    requires m <= |values| == |flags|
  {
    if m == 0 then 0.0
    else Kept(values, flags, which, m - 1) + if flags[m - 1] == which then values[m - 1] else 0.0
  }

  lemma {:induction false} KeptBoth(inp: Mix.Inputs, values: seq<real>, flags: seq<bool>, m: nat, k: nat)
    requires inp.Sized(k + 1) && m <= |values| == |flags| == |inp.sources|
    requires forall s :: 0 <= s < |values| ==> values[s] == Mix.Term(inp, s, k)
    ensures Mix.Sum(inp, m, k) == Kept(values, flags, false, m) + Kept(values, flags, true, m)
  {
    if m > 0 {
      KeptBoth(inp, values, flags, m - 1, k);
    }
  }

  lemma {:induction false} KeptAgrees(v: seq<real>, w: seq<real>, flags: seq<bool>, which: bool, m: nat)
    requires m <= |v| == |w| == |flags| && forall s :: 0 <= s < |v| && flags[s] == which ==> v[s] == w[s]
    ensures Kept(v, flags, which, m) == Kept(w, flags, which, m)
  {
    if m > 0 {
      KeptAgrees(v, w, flags, which, m - 1);
    }
  }

  lemma {:induction false} KeptNothing(v: seq<real>, flags: seq<bool>, which: bool, m: nat)
    requires m <= |v| == |flags| && forall s :: 0 <= s < |v| && flags[s] == which ==> v[s] == 0.0
    ensures Kept(v, flags, which, m) == 0.0
  {
    if m > 0 {
      KeptNothing(v, flags, which, m - 1);
    }
  }

  /** Values between nothing and their full ones, all on one side, sum to something between nothing and the full sum. */
  lemma {:induction false} KeptBetween(v: seq<real>, full: seq<real>, flags: seq<bool>, m: nat)
    requires m <= |v| == |full| == |flags|
    ensures (forall s :: 0 <= s < |v| && flags[s] ==> 0.0 <= v[s] <= full[s]) ==>
              0.0 <= Kept(v, flags, true, m) <= Kept(full, flags, true, m)
    ensures (forall s :: 0 <= s < |v| && flags[s] ==> full[s] <= v[s] <= 0.0) ==>
              Kept(full, flags, true, m) <= Kept(v, flags, true, m) <= 0.0
  {
    if m > 0 {
      KeptBetween(v, full, flags, m - 1);
    }
  }

  lemma StageFree(t: Tick, me: Listener, peers: seq<Peer>, i: nat, x: seq<Latch>, y: seq<Latch>, a: Option<Geometry>,
                  b: Option<Geometry>, j: nat)
    requires |t.ok| == |peers| && i < |peers| && j < |peers| && !Locatable(t, me, peers, i, j)
    ensures Stage(t, me, Placed(peers, i, a), i, x, j).0 == Stage(t, me, Placed(peers, i, b), i, y, j).0
  {
  }

  /** What is not located is the same wherever the listener is. */
  lemma UnlocatedPart(t: Tick, me: Listener, peers: seq<Peer>, i: nat, latches: seq<Latch>, a: Option<Geometry>,
                      b: Option<Geometry>, j: nat, k: nat)
    requires Sized(t, peers) && i < |peers| && j < |peers| && k < FRAME_TOTAL && !Locatable(t, me, peers, i, j)
    ensures Part(t, me, peers, i, latches, a, j, k) == Part(t, me, peers, i, latches, b, j, k)
  {
    var p, q := Placed(peers, i, a), Placed(peers, i, b);
    PassTerm(t, me, p, i, latches, j, k);
    PassTerm(t, me, q, i, latches, j, k);
    StageFree(t, me, peers, i, Before(t, me, p, i, latches, j), Before(t, me, q, i, latches, j), a, b, j);
  }

  /** Sample k without the sources to be located, and what those add where the listener is. */
  ghost function Background(t: Tick, me: Listener, peers: seq<Peer>, i: nat, latches: seq<Latch>, k: nat): real
    requires Sized(t, peers) && i < |peers| && k < FRAME_TOTAL
  {
    Kept(Parts(t, me, peers, i, latches, None, k), Flags(t, me, peers, i), false, |peers|)
  }

  ghost function Located(t: Tick, me: Listener, peers: seq<Peer>, i: nat, latches: seq<Latch>, own: Option<Geometry>,
                         k: nat): real
    requires Sized(t, peers) && i < |peers| && k < FRAME_TOTAL
  {
    Kept(Parts(t, me, peers, i, latches, own, k), Flags(t, me, peers, i), true, |peers|)
  }

  lemma SentSample(t: Tick, me: Listener, peers: seq<Peer>, i: nat, latches: seq<Latch>, own: Option<Geometry>, k: nat)
    requires Sized(t, peers) && i < |peers| && k < FRAME_TOTAL
    ensures PassAt(t, me, peers, i, latches, own).frame[k]
         == Mix.ClampSample(Background(t, me, peers, i, latches, k) + Located(t, me, peers, i, latches, own, k))
  {
    SkippedExactly(t, me, Placed(peers, i, own), i, latches);
    var flags := Flags(t, me, peers, i);
    var here, nowhere := Parts(t, me, peers, i, latches, own, k), Parts(t, me, peers, i, latches, None, k);
    KeptBoth(Inputs(t, me, Placed(peers, i, own), i, latches), here, flags, |peers|, k);
    forall s | 0 <= s < |peers| && !flags[s] ensures here[s] == nowhere[s] {
      UnlocatedPart(t, me, peers, i, latches, own, None, s, k);
    }
    KeptAgrees(here, nowhere, flags, false, |peers|);
  }

  // ---- What a located source adds -----------------------------------------------------------------------------------

  /** The factor the listener's place puts on source s for sample k: full without geometry of its own, none when culled,
      the channel's pan and falloff otherwise. */
  ghost function Factor(t: Tick, me: Listener, peers: seq<Peer>, i: nat, latches: seq<Latch>, own: Option<Geometry>,
                        s: nat, k: nat): real
    requires |t.ok| == |peers| && i < |peers| && s < |peers| && Locatable(t, me, peers, i, s)
  {
    if own.None? then 1.0
    else
      var p := Placed(peers, i, own);
      var x, d := Before(t, me, p, i, latches, s), Distance(t, p, i, s);
      if Cull(x, t.space.lim, peers[s].display.value, d, t.seqNo).0 then 0.0
      else if k % 2 == 0 then Shape(t, p, i, s).0 else Shape(t, p, i, s).1
  }

  /** What a located source adds at full factor. */
  function Full(me: Listener, peer: Peer, k: nat): real
    requires k < |peer.samples| && peer.display.Some?
  {
    if peer.audible then peer.samples[k] * ViewerGain(me, peer.display.value) else 0.0
  }

  /** A located source adds its gained sample times the factor of the listener's place. */
  lemma LocatedPart(t: Tick, me: Listener, peers: seq<Peer>, i: nat, latches: seq<Latch>, own: Option<Geometry>,
                    s: nat, k: nat)
    requires Sized(t, peers) && i < |peers| && s < |peers| && k < FRAME_TOTAL && Locatable(t, me, peers, i, s)
    ensures Part(t, me, peers, i, latches, own, s, k)
         == Full(me, peers[s], k) * Factor(t, me, peers, i, latches, own, s, k)
  {
    PassTerm(t, me, Placed(peers, i, own), i, latches, s, k);
    LocatedGain(t, me, peers, i, latches, own, s, k);
  }

  lemma LocatedGain(t: Tick, me: Listener, peers: seq<Peer>, i: nat, latches: seq<Latch>, own: Option<Geometry>,
                    s: nat, k: nat)
    requires Sized(t, peers) && i < |peers| && s < |peers| && k < FRAME_TOTAL && Locatable(t, me, peers, i, s)
    ensures var p := Placed(peers, i, own);
            Gained(peers[s], Stage(t, me, p, i, Before(t, me, p, i, latches, s), s).0, k)
            == Full(me, peers[s], k) * Factor(t, me, peers, i, latches, own, s, k)
  {
    var p := Placed(peers, i, own);
    LocatedPair(t, me, p, i, Before(t, me, p, i, latches, s), s);
    Regrouped(peers[s].samples[k], ViewerGain(me, peers[s].display.value), Factor(t, me, peers, i, latches, own, s, k));
  }

  lemma Regrouped(x: real, g: real, f: real)
    ensures x * (g * f) == x * g * f
  {
  }

  lemma LocatedPair(t: Tick, me: Listener, peers: seq<Peer>, i: nat, x: seq<Latch>, s: nat)
    requires |t.ok| == |peers| && i < |peers| && s < |peers| && Locatable(t, me, peers, i, s)
    ensures var pair, gain := Stage(t, me, peers, i, x, s).0, ViewerGain(me, peers[s].display.value);
            if peers[i].geo.None? then pair == Pair(false, gain, gain)
            else if Cull(x, t.space.lim, peers[s].display.value, Distance(t, peers, i, s), t.seqNo).0 then pair.muted
            else pair == Pair(false, gain * Shape(t, peers, i, s).0, gain * Shape(t, peers, i, s).1)
  {
  }

  /** Beyond the cutoff a source is culled, whatever its latch said. */
  lemma FarIsCulled(x: seq<Latch>, lim: Limits, uuid: string, d: real, now: nat)
    requires lim.readd < lim.cutoff < d
    ensures Cull(x, lim, uuid, d, now).0
  {
  }

  lemma FarParts(t: Tick, me: Listener, peers: seq<Peer>, i: nat, latches: seq<Latch>, far: Geometry, k: nat)
    requires Sized(t, peers) && i < |peers| && k < FRAME_TOTAL && t.space.lim.readd < t.space.lim.cutoff
    requires forall j :: 0 <= j < |peers| && Locatable(t, me, peers, i, j) ==>
               t.space.distance(far.lp, peers[j].geo.value.sp) > t.space.lim.cutoff
    ensures Located(t, me, peers, i, latches, Some(far), k) == 0.0
  {
    var flags, parts := Flags(t, me, peers, i), Parts(t, me, peers, i, latches, Some(far), k);
    forall s | 0 <= s < |peers| && flags[s] ensures parts[s] == 0.0 {
      FarPart(t, me, peers, i, latches, far, s, k);
    }
    KeptNothing(parts, flags, true, |peers|);
  }

  lemma FarPart(t: Tick, me: Listener, peers: seq<Peer>, i: nat, latches: seq<Latch>, far: Geometry, s: nat, k: nat)
    requires Sized(t, peers) && i < |peers| && s < |peers| && k < FRAME_TOTAL && t.space.lim.readd < t.space.lim.cutoff
    requires Locatable(t, me, peers, i, s) && t.space.distance(far.lp, peers[s].geo.value.sp) > t.space.lim.cutoff
    ensures Part(t, me, peers, i, latches, Some(far), s, k) == 0.0
  {
    var p := Placed(peers, i, Some(far));
    LocatedPart(t, me, peers, i, latches, Some(far), s, k);
    FarIsCulled(Before(t, me, p, i, latches, s), t.space.lim, peers[s].display.value, Distance(t, p, i, s), t.seqNo);
  }

  /** Out of reach of everybody, the listener is sent the background. */
  lemma FarIsBackground(t: Tick, tuning: Tuning, me: Listener, peers: seq<Peer>, i: nat, latches: seq<Latch>)
    returns (far: Geometry)
    requires Sized(t, peers) && i < |peers| && Plugin(t.space, tuning)
    ensures Leashed(t.space, tuning.leash, Some(far))
    ensures forall k :: 0 <= k < FRAME_TOTAL ==>
              PassAt(t, me, peers, i, latches, Some(far)).frame[k]
              == Mix.ClampSample(Background(t, me, peers, i, latches, k))
  {
    far := FarPlace(t.space, tuning, peers, AHEAD);
    forall k | 0 <= k < FRAME_TOTAL
      ensures PassAt(t, me, peers, i, latches, Some(far)).frame[k]
           == Mix.ClampSample(Background(t, me, peers, i, latches, k))
    {
      SentSample(t, me, peers, i, latches, Some(far), k);
      FarParts(t, me, peers, i, latches, far, k);
    }
  }

  /** From this place the located sources are not heard over the background: they change no sample the clamp lets
      through. */
  ghost predicate Unheard(t: Tick, me: Listener, peers: seq<Peer>, i: nat, latches: seq<Latch>, own: Option<Geometry>)
    requires Sized(t, peers) && i < |peers|
  {
    forall k :: 0 <= k < FRAME_TOTAL ==>
      Mix.ClampSample(Background(t, me, peers, i, latches, k) + Located(t, me, peers, i, latches, own, k))
      == Mix.ClampSample(Background(t, me, peers, i, latches, k))
  }

  lemma UnheardIsBackground(t: Tick, me: Listener, peers: seq<Peer>, i: nat, latches: seq<Latch>, own: Option<Geometry>,
                            far: Geometry)
    requires Sized(t, peers) && i < |peers|
    requires forall k :: 0 <= k < FRAME_TOTAL ==>
               PassAt(t, me, peers, i, latches, Some(far)).frame[k]
               == Mix.ClampSample(Background(t, me, peers, i, latches, k))
    ensures Unheard(t, me, peers, i, latches, own) <==>
              SameSent(PassAt(t, me, peers, i, latches, own), PassAt(t, me, peers, i, latches, Some(far)))
  {
    var x, y := PassAt(t, me, peers, i, latches, own), PassAt(t, me, peers, i, latches, Some(far));
    SkippedExactly(t, me, Placed(peers, i, own), i, latches);
    SkippedExactly(t, me, Placed(peers, i, Some(far)), i, latches);
    forall k | 0 <= k < FRAME_TOTAL
      ensures x.frame[k]
           == Mix.ClampSample(Background(t, me, peers, i, latches, k) + Located(t, me, peers, i, latches, own, k))
    {
      SentSample(t, me, peers, i, latches, own, k);
    }
    if Unheard(t, me, peers, i, latches, own) {
      assert x.frame == y.frame;
    }
  }

  /** Under any acoustics the plugin has, what a listener is sent is free of its own geometry exactly when from no place
      is a located source heard over the background. */
  lemma SentFreeExactly(t: Tick, tuning: Tuning, me: Listener, peers: seq<Peer>, i: nat, latches: seq<Latch>)
    requires Sized(t, peers) && i < |peers| && Plugin(t.space, tuning)
    ensures SentFree(t, tuning.leash, me, peers, i, latches) <==>
              forall own :: Leashed(t.space, tuning.leash, own) ==> Unheard(t, me, peers, i, latches, own)
  {
    var far := FarIsBackground(t, tuning, me, peers, i, latches);
    forall own ensures Unheard(t, me, peers, i, latches, own) <==>
                SameSent(PassAt(t, me, peers, i, latches, own), PassAt(t, me, peers, i, latches, Some(far))) {
      UnheardIsBackground(t, me, peers, i, latches, own, far);
    }
  }

  // ---- A condition on the sounds alone ------------------------------------------------------------------------------

  ghost function Fulls(me: Listener, peers: seq<Peer>, k: nat): (r: seq<real>)
    requires forall j :: 0 <= j < |peers| ==> k < |peers[j].samples|
    ensures |r| == |peers| && forall s :: 0 <= s < |peers| && peers[s].display.Some? ==> r[s] == Full(me, peers[s], k)
  {
    seq(|peers|, s requires 0 <= s < |peers| => if peers[s].display.Some? then Full(me, peers[s], k) else 0.0)
  }

  /** What the located sources add at full factor. */
  ghost function FullSum(t: Tick, me: Listener, peers: seq<Peer>, i: nat, k: nat): real
    requires Sized(t, peers) && i < |peers| && k < FRAME_TOTAL
  {
    Kept(Fulls(me, peers, k), Flags(t, me, peers, i), true, |peers|)
  }

  /** At sample k no two located sources pull apart. One talker alone never does. */
  ghost predicate OneSided(t: Tick, me: Listener, peers: seq<Peer>, i: nat, k: nat)
    requires Sized(t, peers) && i < |peers| && k < FRAME_TOTAL
  {
    || (forall j :: 0 <= j < |peers| && Locatable(t, me, peers, i, j) ==> Full(me, peers[j], k) >= 0.0)
    || (forall j :: 0 <= j < |peers| && Locatable(t, me, peers, i, j) ==> Full(me, peers[j], k) <= 0.0)
  }

  lemma FactorIsBounded(t: Tick, tuning: Tuning, me: Listener, peers: seq<Peer>, i: nat, latches: seq<Latch>,
                        own: Option<Geometry>, s: nat, k: nat)
    requires Sized(t, peers) && i < |peers| && s < |peers| && Locatable(t, me, peers, i, s) && Plugin(t.space, tuning)
    ensures 0.0 <= Factor(t, me, peers, i, latches, own, s, k) <= 1.0
  {
    if own.Some? {
      var p := Placed(peers, i, own);
      var x, d := Before(t, me, p, i, latches, s), Distance(t, p, i, s);
      if d > t.space.lim.cutoff {
        FarIsCulled(x, t.space.lim, peers[s].display.value, d, t.seqNo);
      } else {
        PanIsBounded(t.space, tuning, own.value.lp, own.value.lh, peers[s].geo.value.sp);
      }
    }
  }

  lemma Shrunk(part: real, full: real, f: real)
    requires 0.0 <= f <= 1.0 && part == full * f
    ensures (full >= 0.0 ==> 0.0 <= part <= full) && (full <= 0.0 ==> full <= part <= 0.0)
    ensures f == 1.0 ==> part == full
  {
    var magnitude := if full >= 0.0 then full else 0.0 - full;
    NonNegativeProduct(magnitude, f);
    NonNegativeProduct(magnitude, 1.0 - f);
    assert magnitude * (1.0 - f) == magnitude - magnitude * f;
    assert full * f == if full >= 0.0 then magnitude * f else 0.0 - magnitude * f;
  }

  lemma NonNegativeProduct(a: real, b: real)
    requires a >= 0.0 && b >= 0.0
    ensures a * b >= 0.0
  {
  }

  /** Wherever the listener is, a located source adds something between nothing and what it adds at full factor. */
  lemma PartIsAttenuated(t: Tick, tuning: Tuning, me: Listener, peers: seq<Peer>, i: nat, latches: seq<Latch>,
                         own: Option<Geometry>, s: nat, k: nat)
    requires Sized(t, peers) && i < |peers| && s < |peers| && k < FRAME_TOTAL && Plugin(t.space, tuning)
    requires Locatable(t, me, peers, i, s)
    ensures var part, full := Part(t, me, peers, i, latches, own, s, k), Full(me, peers[s], k);
            && (full >= 0.0 ==> 0.0 <= part <= full) && (full <= 0.0 ==> full <= part <= 0.0)
            && (own.None? ==> part == full)
  {
    LocatedPart(t, me, peers, i, latches, own, s, k);
    FactorIsBounded(t, tuning, me, peers, i, latches, own, s, k);
    Shrunk(Part(t, me, peers, i, latches, own, s, k), Full(me, peers[s], k),
           Factor(t, me, peers, i, latches, own, s, k));
  }

  lemma PartsAreAttenuated(t: Tick, tuning: Tuning, me: Listener, peers: seq<Peer>, i: nat, latches: seq<Latch>,
                           own: Option<Geometry>, k: nat)
    requires Sized(t, peers) && i < |peers| && k < FRAME_TOTAL && Plugin(t.space, tuning)
    ensures var sum, full := Located(t, me, peers, i, latches, own, k), FullSum(t, me, peers, i, k);
            && (OneSided(t, me, peers, i, k) ==> 0.0 <= sum <= full || full <= sum <= 0.0)
            && (own.None? ==> sum == full)
  {
    var flags, parts, fulls := Flags(t, me, peers, i), Parts(t, me, peers, i, latches, own, k), Fulls(me, peers, k);
    forall s | 0 <= s < |peers| && flags[s]
      ensures (fulls[s] >= 0.0 ==> 0.0 <= parts[s] <= fulls[s]) && (fulls[s] <= 0.0 ==> fulls[s] <= parts[s] <= 0.0)
      ensures fulls[s] == Full(me, peers[s], k) && (own.None? ==> parts[s] == fulls[s])
    {
      PartIsAttenuated(t, tuning, me, peers, i, latches, own, s, k);
    }
    KeptBetween(parts, fulls, flags, |peers|);
    if own.None? {
      KeptAgrees(parts, fulls, flags, true, |peers|);
    }
  }

  lemma ClampBetween(base: real, part: real, full: real)
    requires 0.0 <= part <= full || full <= part <= 0.0
    requires Mix.ClampSample(base + full) == Mix.ClampSample(base)
    ensures Mix.ClampSample(base + part) == Mix.ClampSample(base)
  {
  }

  /** When at no sample two located sources pull apart, the sounds alone decide: what a listener is sent is free of its
      own geometry exactly when the located sources at full factor are not heard over the background. */
  lemma SentFreeBySound(t: Tick, tuning: Tuning, me: Listener, peers: seq<Peer>, i: nat, latches: seq<Latch>)
    requires Sized(t, peers) && i < |peers| && Plugin(t.space, tuning)
    requires forall k :: 0 <= k < FRAME_TOTAL ==> OneSided(t, me, peers, i, k)
    ensures SentFree(t, tuning.leash, me, peers, i, latches) <==>
              forall k :: 0 <= k < FRAME_TOTAL ==>
                Mix.ClampSample(Background(t, me, peers, i, latches, k) + FullSum(t, me, peers, i, k))
                == Mix.ClampSample(Background(t, me, peers, i, latches, k))
  {
    SentFreeExactly(t, tuning, me, peers, i, latches);
    FlatUnheard(t, tuning, me, peers, i, latches);
    if Unheard(t, me, peers, i, latches, None) {
      forall own ensures Unheard(t, me, peers, i, latches, own) {
        NowhereHeard(t, tuning, me, peers, i, latches, own);
      }
    }
  }

  /** A listener without geometry hears the located sources at full factor. */
  lemma FlatHearing(t: Tick, tuning: Tuning, me: Listener, peers: seq<Peer>, i: nat, latches: seq<Latch>)
    requires Sized(t, peers) && i < |peers| && Plugin(t.space, tuning)
    ensures forall k :: 0 <= k < FRAME_TOTAL ==>
              Located(t, me, peers, i, latches, None, k) == FullSum(t, me, peers, i, k)
  {
    forall k | 0 <= k < FRAME_TOTAL
      ensures Located(t, me, peers, i, latches, None, k) == FullSum(t, me, peers, i, k)
    {
      PartsAreAttenuated(t, tuning, me, peers, i, latches, None, k);
    }
  }

  lemma FlatUnheard(t: Tick, tuning: Tuning, me: Listener, peers: seq<Peer>, i: nat, latches: seq<Latch>)
    requires Sized(t, peers) && i < |peers| && Plugin(t.space, tuning)
    ensures Leashed(t.space, tuning.leash, None)
    ensures Unheard(t, me, peers, i, latches, None) <==>
              forall k :: 0 <= k < FRAME_TOTAL ==>
                Mix.ClampSample(Background(t, me, peers, i, latches, k) + FullSum(t, me, peers, i, k))
                == Mix.ClampSample(Background(t, me, peers, i, latches, k))
  {
    FlatHearing(t, tuning, me, peers, i, latches);
  }

  lemma NowhereHeard(t: Tick, tuning: Tuning, me: Listener, peers: seq<Peer>, i: nat, latches: seq<Latch>,
                     own: Option<Geometry>)
    requires Sized(t, peers) && i < |peers| && Plugin(t.space, tuning) && Unheard(t, me, peers, i, latches, None)
    requires forall k :: 0 <= k < FRAME_TOTAL ==> OneSided(t, me, peers, i, k)
    ensures Unheard(t, me, peers, i, latches, own)
  {
    FlatHearing(t, tuning, me, peers, i, latches);
    forall k | 0 <= k < FRAME_TOTAL
      ensures Mix.ClampSample(Background(t, me, peers, i, latches, k) + Located(t, me, peers, i, latches, own, k))
           == Mix.ClampSample(Background(t, me, peers, i, latches, k))
    {
      PartsAreAttenuated(t, tuning, me, peers, i, latches, own, k);
      ClampBetween(Background(t, me, peers, i, latches, k), Located(t, me, peers, i, latches, own, k),
                   FullSum(t, me, peers, i, k));
    }
  }

  // ---- The camera decides -------------------------------------------------------------------------------------------

  lemma {:induction false} SumOfOne(inp: Mix.Inputs, s: nat, m: nat, k: nat)
    requires inp.Sized(k + 1) && s < |inp.sources| && m <= |inp.sources|
    requires forall j :: 0 <= j < |inp.sources| && j != s ==> Mix.Term(inp, j, k) == 0.0
    ensures Mix.Sum(inp, m, k) == if s < m then Mix.Term(inp, s, k) else 0.0
  {
    if m > 0 {
      SumOfOne(inp, s, m - 1, k);
    }
  }

  /** Nobody makes a sound but source s. */
  predicate OnlyTalker(peers: seq<Peer>, s: nat)
    requires s < |peers|
  {
    peers[s].audible && forall j :: 0 <= j < |peers| && j != s ==> !peers[j].audible
  }

  lemma SilentPart(t: Tick, me: Listener, peers: seq<Peer>, i: nat, latches: seq<Latch>, own: Option<Geometry>, j: nat,
                   k: nat)
    requires Sized(t, peers) && i < |peers| && j < |peers| && k < FRAME_TOTAL && !peers[j].audible
    ensures Mix.Term(Inputs(t, me, Placed(peers, i, own), i, latches), j, k) == 0.0
  {
    PassTerm(t, me, Placed(peers, i, own), i, latches, j, k);
  }

  /** With one talker, each sample sent is its gained sample times the factor of the listener's place. */
  lemma OneTalkerSample(t: Tick, me: Listener, peers: seq<Peer>, i: nat, latches: seq<Latch>, own: Option<Geometry>,
                        s: nat, k: nat)
    requires Sized(t, peers) && i < |peers| && s < |peers| && k < FRAME_TOTAL && Locatable(t, me, peers, i, s)
    requires OnlyTalker(peers, s)
    ensures PassAt(t, me, peers, i, latches, own).frame[k]
         == Mix.ClampSample(Full(me, peers[s], k) * Factor(t, me, peers, i, latches, own, s, k))
  {
    FrameOfTalker(t, me, peers, i, latches, own, s, k);
    LocatedPart(t, me, peers, i, latches, own, s, k);
  }

  lemma FrameOfTalker(t: Tick, me: Listener, peers: seq<Peer>, i: nat, latches: seq<Latch>, own: Option<Geometry>,
                      s: nat, k: nat)
    requires Sized(t, peers) && i < |peers| && s < |peers| && k < FRAME_TOTAL && OnlyTalker(peers, s)
    ensures PassAt(t, me, peers, i, latches, own).frame[k]
         == Mix.ClampSample(Part(t, me, peers, i, latches, own, s, k))
  {
    SkippedExactly(t, me, Placed(peers, i, own), i, latches);
    var inp := Inputs(t, me, Placed(peers, i, own), i, latches);
    forall j | 0 <= j < |peers| && j != s ensures Mix.Term(inp, j, k) == 0.0 {
      SilentPart(t, me, peers, i, latches, own, j, k);
    }
    SumOfOne(inp, s, |peers|, k);
  }

  /** Inside the re-add distance a source is heard, whatever its latch said. */
  lemma NearIsHeard(x: seq<Latch>, lim: Limits, uuid: string, d: real, now: nat)
    requires d < lim.readd < lim.cutoff
    ensures !Cull(x, lim, uuid, d, now).0
  {
  }

  /** What a source adds to sample k under the pan and falloff given. */
  function PannedSample(me: Listener, peer: Peer, shape: (real, real), k: nat): real
    requires k < |peer.samples| && peer.display.Some?
  {
    Mix.ClampSample(Full(me, peer, k) * if k % 2 == 0 then shape.0 else shape.1)
  }

  lemma NearSample(t: Tick, me: Listener, peers: seq<Peer>, i: nat, latches: seq<Latch>, near: Geometry, s: nat, k: nat)
    requires Sized(t, peers) && i < |peers| && s < |peers| && k < FRAME_TOTAL && Locatable(t, me, peers, i, s)
    requires OnlyTalker(peers, s)
    requires t.space.distance(near.lp, peers[s].geo.value.sp) < t.space.lim.readd < t.space.lim.cutoff
    ensures PassAt(t, me, peers, i, latches, Some(near)).frame[k]
         == PannedSample(me, peers[s], t.space.shape(near.lp, near.lh, peers[s].geo.value.sp), k)
  {
    OneTalkerSample(t, me, peers, i, latches, Some(near), s, k);
    var p := Placed(peers, i, Some(near));
    NearIsHeard(Before(t, me, p, i, latches, s), t.space.lim, peers[s].display.value, Distance(t, p, i, s), t.seqNo);
  }

  lemma FarSample(t: Tick, me: Listener, peers: seq<Peer>, i: nat, latches: seq<Latch>, far: Geometry, s: nat, k: nat)
    requires Sized(t, peers) && i < |peers| && s < |peers| && k < FRAME_TOTAL && Locatable(t, me, peers, i, s)
    requires OnlyTalker(peers, s)
    requires t.space.lim.readd < t.space.lim.cutoff < t.space.distance(far.lp, peers[s].geo.value.sp)
    ensures PassAt(t, me, peers, i, latches, Some(far)).frame[k] == 0.0
  {
    OneTalkerSample(t, me, peers, i, latches, Some(far), s, k);
    var p := Placed(peers, i, Some(far));
    FarIsCulled(Before(t, me, p, i, latches, s), t.space.lim, peers[s].display.value, Distance(t, p, i, s), t.seqNo);
  }

  /** A listener whose camera is inside the re-add distance of the one talker is sent its gained and panned samples;
      with the camera beyond the cutoff it is sent zeros and its encode is skipped. No table changes that. */
  lemma CameraDecides(t: Tick, me: Listener, peers: seq<Peer>, i: nat, latches: seq<Latch>, near: Geometry,
                      far: Geometry, s: nat)
    requires Sized(t, peers) && i < |peers| && s < |peers| && Locatable(t, me, peers, i, s) && OnlyTalker(peers, s)
    requires t.space.lim.readd < t.space.lim.cutoff
    requires t.space.distance(near.lp, peers[s].geo.value.sp) < t.space.lim.readd
    requires t.space.distance(far.lp, peers[s].geo.value.sp) > t.space.lim.cutoff
    ensures forall k :: 0 <= k < FRAME_TOTAL ==>
              PassAt(t, me, peers, i, latches, Some(near)).frame[k]
              == PannedSample(me, peers[s], t.space.shape(near.lp, near.lh, peers[s].geo.value.sp), k)
    ensures AllZero(PassAt(t, me, peers, i, latches, Some(far)).frame)
    ensures PassAt(t, me, peers, i, latches, Some(far)).skip
  {
    forall k | 0 <= k < FRAME_TOTAL
      ensures PassAt(t, me, peers, i, latches, Some(near)).frame[k]
           == PannedSample(me, peers[s], t.space.shape(near.lp, near.lh, peers[s].geo.value.sp), k)
    {
      NearSample(t, me, peers, i, latches, near, s, k);
    }
    FarFrame(t, me, peers, i, latches, far, s);
  }

  lemma FarFrame(t: Tick, me: Listener, peers: seq<Peer>, i: nat, latches: seq<Latch>, far: Geometry, s: nat)
    requires Sized(t, peers) && i < |peers| && s < |peers| && Locatable(t, me, peers, i, s) && OnlyTalker(peers, s)
    requires t.space.lim.readd < t.space.lim.cutoff < t.space.distance(far.lp, peers[s].geo.value.sp)
    ensures AllZero(PassAt(t, me, peers, i, latches, Some(far)).frame)
    ensures PassAt(t, me, peers, i, latches, Some(far)).skip
  {
    forall k | 0 <= k < FRAME_TOTAL ensures PassAt(t, me, peers, i, latches, Some(far)).frame[k] == 0.0 {
      FarSample(t, me, peers, i, latches, far, s, k);
    }
    SkippedExactly(t, me, Placed(peers, i, Some(far)), i, latches);
  }

  function OnAxis(x: real): Vec {
    Vec(x, 0.0, 0.0)
  }

  function Level(x: real): (r: seq<real>)
    ensures |r| == FRAME_TOTAL && forall k :: 0 <= k < FRAME_TOTAL ==> r[k] == x
  {
    seq(FRAME_TOTAL, k => x)
  }

  const PLAIN := Listener({}, [], {})
  const LISTENING := Peer(Some("listener"), Level(0.0), false, None)
  const TALKING :=
    Peer(Some("talker"), Level(1.0), true, Some(Geometry(OnAxis(-5000.0), ORIGIN, AHEAD)))

  lemma AxisDistance(space: Space, x: real, y: real)
    requires Euclidean(space)
    ensures space.distance(OnAxis(x), OnAxis(y)) == if x >= y then x - y else y - x
  {
    var a, b, d := OnAxis(x), OnAxis(y), if x >= y then x - y else y - x;
    assert Measures(space, a, b);
    assert SquaredDistance(a, b) == Square(x - y) == Square(d);
    SquareOrder(space.distance(a, b), d);
    SquareOrder(d, space.distance(a, b));
  }

  /** A full-level talker within the reference distance is heard on one side at least. */
  lemma PannedIsHeard(frame: seq<real>, me: Listener, peer: Peer, shape: (real, real))
    requires |frame| == FRAME_TOTAL <= |peer.samples| && peer.display.Some?
    requires Full(me, peer, 0) == 1.0 && Full(me, peer, 1) == 1.0
    requires frame[0] == PannedSample(me, peer, shape, 0) && frame[1] == PannedSample(me, peer, shape, 1)
    requires 0.0 <= shape.0 <= 1.0 && 0.0 <= shape.1 <= 1.0 && (shape.0 > 0.0 || shape.1 > 0.0)
    ensures !AllZero(frame)
  {
    assert frame[0] == shape.0 && frame[1] == shape.1;
  }

  function DefaultTick(space: Space, seqNo: nat): Tick {
    Tick(seqNo, true, space, false, [true, true])
  }

  function Two(): (r: seq<Peer>)
    ensures |r| == 2 && r[1] == TALKING
    ensures forall j :: 0 <= j < 2 ==> |r[j].samples| >= FRAME_TOTAL
  {
    [LISTENING, TALKING]
  }

  lemma TwoPeers(space: Space, seqNo: nat)
    ensures Sized(DefaultTick(space, seqNo), Two()) && OnlyTalker(Two(), 1)
    ensures Locatable(DefaultTick(space, seqNo), PLAIN, Two(), 0, 1)
    ensures Full(PLAIN, TALKING, 0) == 1.0 && Full(PLAIN, TALKING, 1) == 1.0
  {
  }

  lemma TwoCameras(space: Space, leash: real, lh: Heading)
    requires Euclidean(space) && leash == 5000.0
    ensures Leashed(space, leash, Some(Geometry(ORIGIN, OnAxis(-5000.0), lh)))
    ensures Leashed(space, leash, Some(Geometry(ORIGIN, OnAxis(5000.0), lh)))
    ensures space.distance(OnAxis(-5000.0), OnAxis(-5000.0)) == 0.0
    ensures space.distance(OnAxis(5000.0), OnAxis(-5000.0)) == 10000.0
  {
    AxisDistance(space, -5000.0, -5000.0);
    AxisDistance(space, 5000.0, -5000.0);
    AxisDistance(space, -5000.0, 0.0);
    AxisDistance(space, 5000.0, 0.0);
  }

  /** The plugin's defaults, avatar at the origin and the talker 50 m west. With the camera drawn 50 m west the listener
      is sent sound, with the camera drawn 50 m east silence; the leash allows both. */
  lemma OwnCameraMatters(space: Space, tuning: Tuning, seqNo: nat, latches: seq<Latch>, lh: Heading)
    requires Plugin(space, tuning) && tuning.leash == 5000.0 && space.lim == Limits(6000.0, 5800.0)
    ensures var t, peers := DefaultTick(space, seqNo), Two();
            var west, east := Some(Geometry(ORIGIN, OnAxis(-5000.0), lh)), Some(Geometry(ORIGIN, OnAxis(5000.0), lh));
            && Leashed(space, tuning.leash, west) && Leashed(space, tuning.leash, east) && Sized(t, peers)
            && !AllZero(PassAt(t, PLAIN, peers, 0, latches, west).frame)
            && !PassAt(t, PLAIN, peers, 0, latches, west).skip
            && AllZero(PassAt(t, PLAIN, peers, 0, latches, east).frame)
            && PassAt(t, PLAIN, peers, 0, latches, east).skip
  {
    var t, peers := DefaultTick(space, seqNo), Two();
    var west, east := Geometry(ORIGIN, OnAxis(-5000.0), lh), Geometry(ORIGIN, OnAxis(5000.0), lh);
    TwoPeers(space, seqNo);
    TwoCameras(space, tuning.leash, lh);
    FarFrame(t, PLAIN, peers, 0, latches, east, 1);
    WestIsHeard(space, tuning, seqNo, latches, west);
  }

  lemma WestIsHeard(space: Space, tuning: Tuning, seqNo: nat, latches: seq<Latch>, west: Geometry)
    requires Plugin(space, tuning) && west.lp == OnAxis(-5000.0) && Sized(DefaultTick(space, seqNo), Two())
    requires space.distance(OnAxis(-5000.0), OnAxis(-5000.0)) == 0.0
    ensures var out := PassAt(DefaultTick(space, seqNo), PLAIN, Two(), 0, latches, Some(west));
            !AllZero(out.frame) && !out.skip
  {
    var t, peers := DefaultTick(space, seqNo), Two();
    TwoPeers(space, seqNo);
    NearSample(t, PLAIN, peers, 0, latches, west, 1, 0);
    NearSample(t, PLAIN, peers, 0, latches, west, 1, 1);
    PanIsBounded(space, tuning, west.lp, west.lh, OnAxis(-5000.0));
    SkippedExactly(t, PLAIN, Placed(peers, 0, Some(west)), 0, latches);
    PannedIsHeard(PassAt(t, PLAIN, peers, 0, latches, Some(west)).frame, PLAIN, TALKING,
                  space.shape(west.lp, west.lh, OnAxis(-5000.0)));
  }
}
