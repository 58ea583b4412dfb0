/** The per-listener N-minus-one mix: the summing kernel, the encode-skip rule, and the pass of a room tick that decides
    which sources a listener hears. */
module Mix {
  import opened Common

  // ---- The summing kernel -------------------------------------------------------------------------------------------

  /** One call of the kernel, one entry per source. An absent array stands for the null pointer the kernel accepts. */
  datatype Inputs = Inputs(sources: seq<Option<seq<real>>>, active: Option<seq<bool>>, mutes: Option<seq<bool>>,
                           gainsL: Option<seq<real>>, gainsR: Option<seq<real>>, self: int)
  {
    ghost predicate Sized(n: nat) {
      && (forall s :: 0 <= s < |sources| && sources[s].Some? ==> |sources[s].value| >= n)
      && (active.Some? ==> |active.value| == |sources|)
      && (mutes.Some? ==> |mutes.value| == |sources|)
      && (gainsL.Some? ==> |gainsL.value| == |sources|)
      && (gainsR.Some? ==> |gainsR.value| == |sources|)
    }
  }

  function GainL(inp: Inputs, s: nat): real
    requires inp.Sized(0) && s < |inp.sources|
  {
    if inp.gainsL.Some? then inp.gainsL.value[s] else 1.0
  }

  function GainR(inp: Inputs, s: nat): real
    requires inp.Sized(0) && s < |inp.sources|
  {
    if inp.gainsR.Some? then inp.gainsR.value[s] else 1.0
  }

  /** The source is one the kernel adds. */
  predicate Heard(inp: Inputs, s: nat)
    requires inp.Sized(0) && s < |inp.sources|
  {
    && s != inp.self
    && inp.active.Some? && inp.active.value[s]
    && !(inp.mutes.Some? && inp.mutes.value[s])
    && inp.sources[s].Some?
    && !(GainL(inp, s) == 0.0 && GainR(inp, s) == 0.0)
  }

  /** What source s adds to sample k: even samples are the left channel. */
  function Term(inp: Inputs, s: nat, k: nat): real
    requires inp.Sized(k + 1) && s < |inp.sources|
  {
    if Heard(inp, s) then inp.sources[s].value[k] * (if k % 2 == 0 then GainL(inp, s) else GainR(inp, s)) else 0.0
  }

  /** Sample k summed over the first m sources. */
  function Sum(inp: Inputs, m: nat, k: nat): real
    requires inp.Sized(k + 1) && m <= |inp.sources|
  {
    if m == 0 then 0.0 else Sum(inp, m - 1, k) + Term(inp, m - 1, k)
  }

  function Count(inp: Inputs, m: nat): nat
    requires inp.Sized(0) && m <= |inp.sources|
  {
    if m == 0 then 0 else Count(inp, m - 1) + if Heard(inp, m - 1) then 1 else 0
  }

  /** Adds one source, two samples at a time; an odd last sample takes the left gain. */
  method AddSource(out: array<real>, src: seq<real>, gL: real, gR: real)
    requires |src| >= out.Length
    modifies out
    ensures forall k :: 0 <= k < out.Length ==> out[k] == old(out[k]) + src[k] * (if k % 2 == 0 then gL else gR)
  {
    var n, i := out.Length, 0;
    while i + 1 < n
      invariant i <= n && i % 2 == 0
      invariant forall k :: 0 <= k < i ==> out[k] == old(out[k]) + src[k] * (if k % 2 == 0 then gL else gR)
      invariant forall k :: i <= k < n ==> out[k] == old(out[k])
    {
      out[i] := out[i] + src[i] * gL;
      out[i + 1] := out[i + 1] + src[i + 1] * gR;
      i := i + 2;
    }
    if i < n {
      out[i] := out[i] + src[i] * gL;
    }
  }

  /** The kernel's tests on one source, in order, and its gains. */
  method Judge(inp: Inputs, s: nat) returns (heard: bool, gL: real, gR: real)
    requires inp.Sized(0) && s < |inp.sources|
    ensures heard == Heard(inp, s) && gL == GainL(inp, s) && gR == GainR(inp, s)
  {
    gL := if inp.gainsL.Some? then inp.gainsL.value[s] else 1.0;
    gR := if inp.gainsR.Some? then inp.gainsR.value[s] else 1.0;
    heard := false;
    if s == inp.self {
      return;
    }
    if inp.active.None? || !inp.active.value[s] {
      return;
    }
    if inp.mutes.Some? && inp.mutes.value[s] {
      return;
    }
    if inp.sources[s].None? {
      return;
    }
    if gL == 0.0 && gR == 0.0 {
      return;
    }
    heard := true;
  }

  /** Source by source, every sample ends as the sum of its terms. */
  method NMinusOneStereo(out: array<real>, inp: Inputs) returns (summed: nat)
    requires inp.Sized(out.Length)
    modifies out
    ensures forall k :: 0 <= k < out.Length ==> out[k] == Sum(inp, |inp.sources|, k)
    ensures summed == if out.Length == 0 then 0 else Count(inp, |inp.sources|)
  {
    if out.Length == 0 {
      return 0;
    }
    ZeroRest(out, 0, out.Length);
    summed := 0;
    for s := 0 to |inp.sources|
      invariant Holds(out[..], inp, s) && summed == Count(inp, s)
    {
      var heard := MixSource(out, inp, s);
      if heard {
        summed := summed + 1;
      }
    }
  }

  /** Every sample is the sum over the first m sources. */
  ghost predicate Holds(samples: seq<real>, inp: Inputs, m: nat)
    requires inp.Sized(|samples|) && m <= |inp.sources|
  {
    forall k :: 0 <= k < |samples| ==> samples[k] == Sum(inp, m, k)
  }

  method MixSource(out: array<real>, inp: Inputs, s: nat) returns (heard: bool)
    requires inp.Sized(out.Length) && s < |inp.sources| && Holds(out[..], inp, s)
    modifies out
    ensures Holds(out[..], inp, s + 1) && heard == Heard(inp, s)
  {
    var gL, gR;
    heard, gL, gR := Judge(inp, s);
    if heard {
      AddSource(out, inp.sources[s].value, gL, gR);
    }
  }

  /** Replacing one source's samples moves each sample of the mix by exactly the gained change when the source is heard,
      and not at all when it is the listener itself, inactive, muted or at zero gain. */
  lemma {:induction false} SumSensitivity(inp: Inputs, j: nat, samples: seq<real>, m: nat, k: nat)
    requires inp.Sized(k + 1) && j < |inp.sources| && m <= |inp.sources|
    requires inp.sources[j].Some? && |samples| > k
    ensures inp.(sources := inp.sources[j := Some(samples)]).Sized(k + 1)
    ensures var other := inp.(sources := inp.sources[j := Some(samples)]);
            var gain := if k % 2 == 0 then GainL(inp, j) else GainR(inp, j);
            Sum(other, m, k) == Sum(inp, m, k)
              + if j < m && Heard(inp, j) then (samples[k] - inp.sources[j].value[k]) * gain else 0.0
  {
    if m > 0 {
      SumSensitivity(inp, j, samples, m - 1, k);
      TermSensitivity(inp, j, samples, m - 1, k);
    }
  }

  lemma TermSensitivity(inp: Inputs, j: nat, samples: seq<real>, s: nat, k: nat)
    requires inp.Sized(k + 1) && j < |inp.sources| && s < |inp.sources| && inp.sources[j].Some? && |samples| > k
    ensures inp.(sources := inp.sources[j := Some(samples)]).Sized(k + 1)
    ensures var other := inp.(sources := inp.sources[j := Some(samples)]);
            var gain := if k % 2 == 0 then GainL(inp, j) else GainR(inp, j);
            Term(other, s, k) == Term(inp, s, k)
              + if s == j && Heard(inp, j) then (samples[k] - inp.sources[j].value[k]) * gain else 0.0
  {
    var other := inp.(sources := inp.sources[j := Some(samples)]);
    assert Heard(other, s) == Heard(inp, s);
  }

  /** The sources among the first m that the kernel adds: not the listener itself, active, not muted, present, and with
      a gain other than zero on some side. */
  ghost function Added(inp: Inputs, m: nat): set<nat>
    requires inp.Sized(0) && m <= |inp.sources|
  {
    set s: nat | s < m && s != inp.self && inp.active.Some? && inp.active.value[s]
      && (inp.mutes.Some? ==> !inp.mutes.value[s]) && inp.sources[s].Some?
      && (GainL(inp, s) != 0.0 || GainR(inp, s) != 0.0)
  }

  /** The count is that of the sources added, and the mix that of their gained samples. */
  lemma {:induction false} CountExactly(inp: Inputs, m: nat)
    requires inp.Sized(0) && m <= |inp.sources|
    ensures Count(inp, m) == |Added(inp, m)|
  {
    if m > 0 {
      CountExactly(inp, m - 1);
      assert Added(inp, m) == Added(inp, m - 1) + if Heard(inp, m - 1) then {m - 1} else {};
    }
  }

  function ClampSample(x: real): (y: real)
    ensures -1.0 <= x <= 1.0 ==> y == x
    ensures (x > 1.0 ==> y == 1.0) && (x < -1.0 ==> y == -1.0)
  {
    if x > 1.0 then 1.0 else if x < -1.0 then -1.0 else x
  }

  method Clamp(buf: array<real>)
    modifies buf
    ensures forall k :: 0 <= k < buf.Length ==> buf[k] == ClampSample(old(buf[k]))
  {
    for i := 0 to buf.Length
      invariant forall k :: 0 <= k < i ==> buf[k] == ClampSample(old(buf[k]))
      invariant forall k :: i <= k < buf.Length ==> buf[k] == old(buf[k])
    {
      if buf[i] > 1.0 {
        buf[i] := 1.0;
      } else if buf[i] < -1.0 {
        buf[i] := -1.0;
      }
    }
  }

  /** The encode is skipped exactly when nothing was summed or the frame is all zeros, however quiet the mix is. */
  method EncodeSkip(summed: int, frame: array<real>) returns (skip: bool)
    ensures skip <==> summed <= 0 || forall k :: 0 <= k < frame.Length ==> frame[k] == 0.0
  {
    if summed <= 0 {
      return true;
    }
    for i := 0 to frame.Length
      invariant forall k :: 0 <= k < i ==> frame[k] == 0.0
    {
      if frame[i] != 0.0 {
        return false;
      }
    }
    return true;
  }

  // ---- Filling one frame from a decoder that yields it in pieces ----------------------------------------------------

  /** What one call of the decoder gives: interleaved samples, or a negative error. */
  datatype Chunk = Samples(frames: nat, data: seq<real>) | Failed(error: int)

  /** The frames and data of the chunks taken: the first error gives none, an empty chunk ends the frame, as does
      reaching `stop` frames. */
  function Gathered(chunks: seq<Chunk>, stop: nat, total: nat, have: seq<real>): Option<(nat, seq<real>)>
    decreases chunks
  {
    if chunks == [] || total >= stop then Some((total, have))
    else match chunks[0]
      case Failed(_) => None
      case Samples(n, data) => if n == 0 then Some((total, have))
        else Gathered(chunks[1..], stop, total + n, have + data)
  }

  /** The frames and the data of the chunks before chunk m, all of them samples. */
  function FramesOf(chunks: seq<Chunk>, m: nat): nat
    requires m <= |chunks|
  {
    if m == 0 then 0 else FramesOf(chunks, m - 1) + if chunks[m - 1].Samples? then chunks[m - 1].frames else 0
  }

  function DataOf(chunks: seq<Chunk>, m: nat): seq<real>
    requires m <= |chunks|
  {
    if m == 0 then [] else DataOf(chunks, m - 1) + if chunks[m - 1].Samples? then chunks[m - 1].data else []
  }

  /** Each of these chunks holds frames, and there was room for more when it came. */
  ghost predicate AreTaken(chunks: seq<Chunk>, stop: nat, c: nat, m: nat)
    requires c <= m <= |chunks|
  {
    forall k :: c <= k < m ==> chunks[k].Samples? && chunks[k].frames > 0 && FramesOf(chunks, k) < stop
  }

  /** No more are taken: the frame is full, or there is no chunk, or the next is empty or a failure. */
  ghost predicate NoneTaken(chunks: seq<Chunk>, stop: nat, m: nat)
    requires m <= |chunks|
  {
    FramesOf(chunks, m) >= stop || m == |chunks| || chunks[m].Failed? || chunks[m].frames == 0
  }

  /** The outcome of taking the chunks before m. */
  ghost predicate Gathers(g: Option<(nat, seq<real>)>, chunks: seq<Chunk>, stop: nat, m: nat)
    requires m <= |chunks|
  {
    var fails := FramesOf(chunks, m) < stop && m < |chunks| && chunks[m].Failed?;
    (g.None? <==> fails) && (g.Some? ==> g.value.0 == FramesOf(chunks, m) && g.value.1 == DataOf(chunks, m))
  }

  /** Gathering goes on from chunk c to this outcome. */
  ghost predicate GathersFrom(chunks: seq<Chunk>, stop: nat, c: nat, m: nat)
    requires c <= m <= |chunks|
  {
    Gathers(Gathered(chunks[c..], stop, FramesOf(chunks, c), DataOf(chunks, c)), chunks, stop, m)
  }

  lemma GathersOne(chunks: seq<Chunk>, stop: nat, c: nat, m: nat)
    requires c < m <= |chunks| && FramesOf(chunks, c) < stop && chunks[c].Samples? && chunks[c].frames > 0
    ensures GathersFrom(chunks, stop, c, m) <==> GathersFrom(chunks, stop, c + 1, m)
  {
    assert chunks[c..][1..] == chunks[c + 1..];
  }

  lemma GathersEnd(chunks: seq<Chunk>, stop: nat, m: nat)
    requires m <= |chunks| && NoneTaken(chunks, stop, m)
    ensures GathersFrom(chunks, stop, m, m)
  {
    if m < |chunks| {
      assert chunks[m..][0] == chunks[m];
    }
  }

  lemma {:induction false} GathersBack(chunks: seq<Chunk>, stop: nat, c: nat, m: nat)
    requires c <= m <= |chunks| && AreTaken(chunks, stop, c, m) && NoneTaken(chunks, stop, m)
    ensures GathersFrom(chunks, stop, c, m)
    decreases m - c
  {
    if c < m {
      GathersBack(chunks, stop, c + 1, m);
      GathersOne(chunks, stop, c, m);
    } else {
      GathersEnd(chunks, stop, m);
    }
  }

  lemma FromStart(chunks: seq<Chunk>, stop: nat, m: nat)
    requires m <= |chunks| && GathersFrom(chunks, stop, 0, m)
    ensures Gathers(Gathered(chunks, stop, 0, []), chunks, stop, m)
  {
    assert chunks[0..] == chunks;
  }

  /** What a frame is filled from: the chunks up to the first that is empty, fails or finds the frame full, joined in
      order; nothing when that one fails. */
  lemma GatheredExactly(chunks: seq<Chunk>, stop: nat, m: nat)
    requires m <= |chunks| && AreTaken(chunks, stop, 0, m) && NoneTaken(chunks, stop, m)
    ensures Gathers(Gathered(chunks, stop, 0, []), chunks, stop, m)
  {
    GathersBack(chunks, stop, 0, m);
    FromStart(chunks, stop, m);
  }

  /** A decoder keeps to the room it was given. */
  ghost predicate Decodes(chunks: seq<Chunk>, cap: nat, channels: nat, total: nat)
    decreases chunks
  {
    chunks == [] || match chunks[0]
      case Failed(e) => e < 0
      case Samples(n, data) =>
        |data| == n * channels && total + n <= cap && Decodes(chunks[1..], cap, channels, total + n)
  }

  function Least(a: int, b: int): int {
    if a < b then a else b
  }

  /** The frame is the chunks in order, then zeros up to its end or the buffer's; a failed chunk gives nothing. No
      sample of an earlier frame shows. */
  method FillFrame(out: array<real>, cap: int, frame: int, channels: int, chunks: seq<Chunk>)
    returns (total: nat, err: int)
    requires cap > 0 && channels > 0 ==> out.Length == cap * channels && Decodes(chunks, cap, channels, 0)
    modifies out
    ensures cap <= 0 || frame <= 0 || channels <= 0 ==> total == 0 && err == 0 && out[..] == old(out[..])
    ensures cap > 0 && frame > 0 && channels > 0 ==>
              match Gathered(chunks, Least(frame, cap), 0, [])
              case None => total == 0 && err < 0
              case Some((t, data)) =>
                && err == 0 && total == t && |data| == t * channels <= out.Length && out[..|data|] == data
                && (t > 0 ==> forall k :: |data| <= k < Least(frame, cap) * channels ==> out[k] == 0.0)
  {
    total, err := 0, 0;
    if cap <= 0 || frame <= 0 || channels <= 0 {
      return;
    }
    ghost var data;
    total, err, data := Gather(out, cap, frame, channels, chunks);
    if err == 0 && 0 < total < frame {
      var end := Least(frame, cap);
      Room(total, end - total, cap, channels);
      ZeroRest(out, total * channels, end * channels);
    } else if err == 0 && total > 0 {
      Room(Least(frame, cap), total - Least(frame, cap), cap, channels);
    }
  }

  method Gather(out: array<real>, cap: nat, frame: nat, channels: nat, chunks: seq<Chunk>)
    returns (total: nat, err: int, ghost data: seq<real>)
    requires 0 < channels && out.Length == cap * channels && Decodes(chunks, cap, channels, 0)
    modifies out
    ensures match Gathered(chunks, Least(frame, cap), 0, [])
            case None => total == 0 && err < 0
            case Some((t, d)) =>
              err == 0 && total == t <= cap && data == d && |d| == t * channels <= out.Length && out[..|d|] == d
  {
    err, total, data := 0, 0, [];
    var c := 0;
    while c < |chunks| && total < frame && total < cap
      invariant c <= |chunks| && total <= cap && err == 0 && Decodes(chunks[c..], cap, channels, total)
      invariant |data| == total * channels <= out.Length && out[..|data|] == data
      invariant Gathered(chunks, Least(frame, cap), 0, []) == Gathered(chunks[c..], Least(frame, cap), total, data)
      decreases |chunks| - c
    {
      match chunks[c]
      case Failed(e) =>
        return 0, e, [];
      case Samples(n, piece) =>
        if n == 0 {
          break;
        }
        Room(total, n, cap, channels);
        CopyAt(out, total * channels, piece);
        assert chunks[c..][1..] == chunks[c + 1..];
        data := data + piece;
        total := total + n;
        c := c + 1;
    }
    assert chunks[|chunks|..] == [];
  }

  lemma Room(total: nat, n: nat, cap: nat, channels: nat)
    requires total + n <= cap
    ensures total * channels + n * channels == (total + n) * channels <= cap * channels
  {
    assert (total + n) * channels + (cap - total - n) * channels == cap * channels;
  }

  method ZeroRest(out: array<real>, from: nat, end: nat)
    requires from <= end <= out.Length
    modifies out
    ensures out[..from] == old(out[..from]) && forall k :: from <= k < end ==> out[k] == 0.0
  {
    for i := from to end
      invariant out[..from] == old(out[..from]) && forall k :: from <= k < i ==> out[k] == 0.0
    {
      out[i] := 0.0;
    }
  }
}
