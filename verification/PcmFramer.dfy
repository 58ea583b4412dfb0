/** The connector's streaming resampler: pushed 16-bit PCM of any rate in, exact 20 ms frames of mono 48 kHz out. */
module PcmFramer {
  import opened Common

  const RATE := 48000
  const FRAME_BYTES := 1920

  // ---- Samples and bytes --------------------------------------------------------------------------------------------

  /** A sample is 16 bits, two's complement. */
  predicate Is16(s: int) {
    -32768 <= s < 32768
  }

  function DecodeSample(lo: Byte, hi: Byte): (s: int)
    ensures Is16(s)
  {
    var u := lo as int + 256 * hi as int;
    if u < 32768 then u else u - 65536
  }

  function EncodeSample(s: int): (bytes: seq<Byte>)
    requires Is16(s)
    ensures |bytes| == 2 && DecodeSample(bytes[0], bytes[1]) == s
  {
    var u := if s < 0 then s + 65536 else s;
    [(u % 256) as Byte, (u / 256) as Byte]
  }

  /** Bytes of one sample unit: a sample for each channel. */
  function Unit(channels: int): nat
    requires channels == 1 || channels == 2
  {
    if channels == 1 then 2 else 4
  }

  /** One unit's mono sample: stereo is averaged, rounding down. */
  function MonoSample(unit: seq<Byte>, channels: int): (s: int)
    requires (channels == 1 || channels == 2) && |unit| >= Unit(channels)
    ensures Is16(s)
  {
    if channels == 1 then DecodeSample(unit[0], unit[1])
    else (DecodeSample(unit[0], unit[1]) + DecodeSample(unit[2], unit[3])) / 2
  }

  /** The mono samples of the whole units of the data. */
  function Mono(data: seq<Byte>, channels: int): (m: seq<int>)
    requires channels == 1 || channels == 2
    ensures forall i :: 0 <= i < |m| ==> Is16(m[i])
  {
    if |data| < Unit(channels) then [] else [MonoSample(data, channels)] + Mono(data[Unit(channels)..], channels)
  }

  /** The bytes past the last whole unit. */
  function Tail(data: seq<Byte>, channels: int): (t: seq<Byte>)
    requires channels == 1 || channels == 2
  {
    if |data| < Unit(channels) then data else Tail(data[Unit(channels)..], channels)
  }

  lemma {:induction false} MonoOfUnit(data: seq<Byte>, channels: int, i: nat)
    requires (channels == 1 || channels == 2) && Unit(channels) * (i + 1) <= |data|
    ensures i < |Mono(data, channels)|
    ensures Mono(data, channels)[i] == MonoSample(data[Unit(channels) * i..], channels)
  {
    var u := Unit(channels);
    if i > 0 {
      UnitsAfter(u, i);
      MonoOfUnit(data[u..], channels, i - 1);
      assert data[u..][u * (i - 1)..] == data[u * i..];
    } else {
      assert data[u * 0..] == data;
    }
  }

  lemma UnitsAfter(u: nat, i: nat)
    requires i > 0
    ensures u + u * (i - 1) == u * i && u * (i + 1) == u * i + u
  {
  }

  /** Unit i of the data is mono sample i: its own sample, or the mean of its left and right one rounded down. */
  lemma MonoAt(data: seq<Byte>, channels: int, i: nat)
    requires (channels == 1 || channels == 2) && 2 * channels * (i + 1) <= |data|
    ensures i < |Mono(data, channels)|
    ensures var at := 2 * channels * i;
            var left := DecodeSample(data[at], data[at + 1]);
            var m := Mono(data, channels)[i];
            if channels == 1 then m == left
            else var right := DecodeSample(data[at + 2], data[at + 3]); 2 * m <= left + right <= 2 * m + 1
  {
    assert Unit(channels) == 2 * channels;
    MonoOfUnit(data, channels, i);
  }

  /** No more samples than whole units. */
  lemma {:induction false} MonoLength(data: seq<Byte>, channels: int)
    requires channels == 1 || channels == 2
    ensures 2 * channels * |Mono(data, channels)| <= |data| < 2 * channels * (|Mono(data, channels)| + 1)
  {
    if |data| >= Unit(channels) {
      MonoLength(data[Unit(channels)..], channels);
    }
  }

  lemma {:induction false} TailIsSuffix(data: seq<Byte>, channels: int)
    requires channels == 1 || channels == 2
    ensures var t := Tail(data, channels);
            |t| == Odd(|data|, channels) && t == data[|data| - |t|..]
    decreases |data|
  {
    var u := Unit(channels);
    if |data| >= u {
      var rest := data[u..];
      TailIsSuffix(rest, channels);
      OddStep(|data|, channels);
      var n := |Tail(rest, channels)|;
      assert rest[|rest| - n..] == data[|data| - n..];
    }
  }

  lemma OddStep(n: nat, channels: int)
    requires (channels == 1 || channels == 2) && n >= Unit(channels)
    ensures Odd(n - Unit(channels), channels) == Odd(n, channels)
  {
  }

  /** The bytes of n that fill no unit. */
  function Odd(n: nat, channels: int): (r: nat)
    requires channels == 1 || channels == 2
    ensures r <= n
  {
    if channels == 1 then n % 2 else n % 4
  }

  function ClampSample(v: int): (s: int)
    ensures Is16(v) ==> s == v
    ensures (v < -32768 ==> s == -32768) && (v > 32767 ==> s == 32767)
  {
    if v < -32768 then -32768 else if v > 32767 then 32767 else v
  }

  function EncodeAll(vs: seq<int>): (bytes: seq<Byte>)
    ensures |bytes| == 2 * |vs|
  {
    if vs == [] then [] else EncodeAll(vs[..|vs| - 1]) + EncodeSample(ClampSample(vs[|vs| - 1]))
  }

  lemma {:induction false} EncodeAppends(a: seq<int>, b: seq<int>)
    ensures EncodeAll(a + b) == EncodeAll(a) + EncodeAll(b)
  {
    if b == [] {
      assert a + b == a;
    } else {
      var n := |b| - 1;
      assert (a + b)[..|a + b| - 1] == a + b[..n];
      EncodeAppends(a, b[..n]);
    }
  }

  // ---- One push -----------------------------------------------------------------------------------------------------

  /** Position p is in units of 1/RATE source samples; the division rounds down. */
  function Interpolate(src: seq<int>, p: nat): int
    requires p < (|src| - 1) * RATE
  {
    var i, rem := p / RATE, p % RATE;
    src[i] + ((src[i + 1] - src[i]) * rem) / RATE
  }

  function Emit(src: seq<int>, p: nat, rate: nat): (r: (seq<int>, nat))
    requires rate > 0
    decreases (|src| - 1) * RATE - p
  {
    if p < (|src| - 1) * RATE then
      var rest := Emit(src, p + rate, rate);
      ([Interpolate(src, p)] + rest.0, rest.1)
    else ([], p)
  }

  /** Everything the framer keeps between calls. */
  datatype State = State(pending: seq<Byte>, carry: seq<int>, pos: nat, out: seq<Byte>)

  const EMPTY := State([], [], 0, [])

  function Pushed(rate: nat, channels: int, f: State, pcm: seq<Byte>): State
    requires rate > 0 && (channels == 1 || channels == 2)
  {
    var data := f.pending + pcm;
    var mono := Mono(data, channels);
    var g := f.(pending := Tail(data, channels));
    if mono == [] then g
    else if rate == RATE then g.(out := f.out + EncodeAll(mono))
    else Resampling(rate, g, mono)
  }

  /** Reads on from the carried position; what lies wholly before the next position is dropped. */
  function Resampling(rate: nat, f: State, mono: seq<int>): State
    requires rate > 0
  {
    var src := f.carry + mono;
    var emitted := Emit(src, f.pos, rate);
    var consumed := emitted.1 / RATE;
    f.(carry := if consumed <= |src| then src[consumed..] else [],
       pos := emitted.1 - consumed * RATE,
       out := f.out + EncodeAll(emitted.0))
  }

  class PcmFramer {
    const rate: nat
    const channels: int
    var pending: seq<Byte>
    var carry: seq<int>
    var posNum: nat
    var out: seq<Byte>

    ghost function View(): State
      reads this
    {
      State(pending, carry, posNum, out)
    }

    ghost predicate Valid() {
      rate > 0 && (channels == 1 || channels == 2)
    }

    constructor (sampleRate: nat, channels: int)
      requires sampleRate > 0 && (channels == 1 || channels == 2)
      ensures Valid() && View() == EMPTY && rate == sampleRate && this.channels == channels
    {
      rate, this.channels := sampleRate, channels;
      pending, carry, posNum, out := [], [], 0, [];
    }

    method Push(pcm: seq<Byte>)
      requires Valid()
      modifies this
      ensures View() == Pushed(rate, channels, old(View()), pcm)
    {
      var unit := 2 * channels;
      var data := pending + pcm;
      var usable := |data| - |data| % unit;
      TailIsSuffix(data, channels);
      assert |data| % unit == Odd(|data|, channels);
      pending := data[usable..];
      if usable == 0 {
        return;
      }
      var mono := Mono(data, channels);
      if rate == RATE {
        Append(mono);
      } else {
        Resample(mono);
      }
    }

    method Resample(mono: seq<int>)
      requires Valid()
      modifies this`carry, this`posNum, this`out
      ensures View() == Resampling(rate, old(View()), mono)
    {
      var src := carry + mono;
      var emitted, pos := EmitAll(src, posNum);
      var consumed := pos / RATE;
      carry := if consumed <= |src| then src[consumed..] else [];
      posNum := pos - consumed * RATE;
      Append(emitted);
    }

    method EmitAll(src: seq<int>, from: nat) returns (emitted: seq<int>, pos: nat)
      requires Valid()
      ensures emitted == Emit(src, from, rate).0 && pos == Emit(src, from, rate).1
    {
      emitted, pos := [], from;
      var limit := (|src| - 1) * RATE;
      while pos < limit
        invariant Emit(src, from, rate).0 == emitted + Emit(src, pos, rate).0
        invariant Emit(src, from, rate).1 == Emit(src, pos, rate).1
        decreases limit - pos
      {
        var i, rem := pos / RATE, pos % RATE;
        var a := src[i];
        var y := a + ((src[i + 1] - a) * rem) / RATE;
        assert y == Interpolate(src, pos);
        emitted := emitted + [y];
        pos := pos + rate;
      }
      assert emitted + [] == emitted;
    }

    method Append(vs: seq<int>)
      modifies this`out
      ensures out == old(out) + EncodeAll(vs)
    {
      for i := 0 to |vs|
        invariant out == old(out) + EncodeAll(vs[..i])
      {
        assert vs[..i + 1][..i] == vs[..i];
        out := out + EncodeSample(ClampSample(vs[i]));
      }
      assert vs[..|vs|] == vs;
    }

    /** A complete frame, oldest bytes first, or none while less than one is buffered. */
    method GetFrame() returns (frame: Option<seq<Byte>>)
      modifies this`out
      ensures frame.None? <==> |old(out)| < 1920
      ensures frame.None? ==> out == old(out)
      ensures frame.Some? ==> |frame.value| == 1920 && frame.value + out == old(out)
    {
      if |out| < FRAME_BYTES {
        return None;
      }
      frame := Some(out[..FRAME_BYTES]);
      out := out[FRAME_BYTES..];
    }

    /** Zeros fill the last frame, and only when it is begun. */
    method Flush()
      modifies this`out
      ensures |out| % 1920 == 0 && |old(out)| <= |out| < |old(out)| + 1920
      ensures out[..|old(out)|] == old(out)
      ensures forall k :: |old(out)| <= k < |out| ==> out[k] == 0
    {
      var tail := |out| % FRAME_BYTES;
      if tail != 0 {
        out := out + seq(FRAME_BYTES - tail, _ => 0);
      }
    }
  }

  // ---- What a stream of bytes must give -----------------------------------------------------------------------------

  /** The number of output samples of m source samples. */
  function Outputs(m: nat, rate: nat): nat
    requires rate > 0
  {
    if m == 0 then 0 else ((m - 1) * RATE + rate - 1) / rate
  }

  /** Output sample k exists exactly when its source position lies before the last source sample. */
  lemma OutputsAreThoseBeforeTheEnd(m: nat, rate: nat, k: nat)
    requires rate > 0
    ensures k < Outputs(m, rate) <==> m > 0 && k * rate < (m - 1) * RATE
  {
    if m > 0 {
      var x := (m - 1) * RATE + rate - 1;
      var n := x / rate;
      assert x == n * rate + x % rate;
      if k < n {
        MulMono(k + 1, n, rate);
        assert (k + 1) * rate == k * rate + rate;
      } else {
        MulMono(n, k, rate);
      }
    }
  }

  lemma MulMono(a: nat, b: nat, c: nat)
    requires a <= b
    ensures a * c <= b * c
  {
  }

  /** No interpolated value leaves the span of its two neighbours, so the clamp never acts; it is the exact point on the
      line between them, rounded down. */
  lemma InterpolationIsExact(src: seq<int>, p: nat)
    requires p < (|src| - 1) * RATE && forall i :: 0 <= i < |src| ==> Is16(src[i])
    ensures var a, b, y := src[p / RATE], src[p / RATE + 1], Interpolate(src, p);
            && (a <= y <= b || b <= y <= a)
            && ClampSample(y) == y
            && (y - a) * RATE <= (b - a) * (p % RATE) < (y - a + 1) * RATE
  {
    BetweenNeighbours(src[p / RATE], src[p / RATE + 1], p % RATE);
  }

  lemma BetweenNeighbours(a: int, b: int, rem: nat)
    requires rem < RATE
    ensures var y := a + ((b - a) * rem) / RATE;
            (a <= y <= b || b <= y <= a) && (y - a) * RATE <= (b - a) * rem < (y - a + 1) * RATE
  {
    var d := (b - a) * rem;
    if b >= a {
      Scaled(b - a, rem);
    } else {
      Scaled(a - b, rem);
      assert d == -((a - b) * rem);
    }
    FloorOf(d, b - a);
  }

  lemma Scaled(w: nat, rem: nat)
    requires rem < RATE
    ensures 0 <= w * rem <= w * RATE
  {
    MulMono(rem, RATE, w);
  }

  /** A quotient rounded down stays on the side of zero its dividend is on, and within the bound. */
  lemma FloorOf(d: int, bound: int)
    requires 0 <= d <= bound * RATE || bound * RATE <= d <= 0
    ensures 0 <= d / RATE <= bound || bound <= d / RATE <= 0
    ensures d / RATE * RATE <= d < (d / RATE + 1) * RATE
  {
  }

  ghost function Interpolated(src: seq<int>, rate: nat, k: nat): int
    requires rate > 0 && k < Outputs(|src|, rate)
  {
    OutputsAreThoseBeforeTheEnd(|src|, rate, k);
    Interpolate(src, k * rate)
  }

  /** The first n outputs of the source: sample k is read at position k * rate. */
  ghost function Resampled(src: seq<int>, rate: nat, n: nat): (r: seq<int>)
    requires rate > 0 && n <= Outputs(|src|, rate)
    ensures |r| == n && forall k :: 0 <= k < n ==> r[k] == Interpolated(src, rate, k)
  {
    if n == 0 then [] else Resampled(src, rate, n - 1) + [Interpolated(src, rate, n - 1)]
  }

  /** How many source samples lie before the next position to read. */
  function Consumed(m: nat, rate: nat): nat
    requires rate > 0
  {
    Outputs(m, rate) * rate / RATE
  }

  lemma ConsumedFits(m: nat, rate: nat)
    requires 0 < rate <= 2 * RATE
    ensures Consumed(m, rate) <= m
  {
    var n := Outputs(m, rate);
    if n > 0 {
      OutputsAreThoseBeforeTheEnd(m, rate, n - 1);
      assert n * rate == (n - 1) * rate + rate;
    }
  }

  /** The state a stream must leave, however it was pushed. */
  ghost function Canon(rate: nat, channels: int, bytes: seq<Byte>): State
    requires 0 < rate <= 2 * RATE && (channels == 1 || channels == 2)
  {
    var mono, tail := Mono(bytes, channels), Tail(bytes, channels);
    if rate == RATE then State(tail, [], 0, EncodeAll(mono))
    else
      var n, c := Outputs(|mono|, rate), Consumed(|mono|, rate);
      ConsumedFits(|mono|, rate);
      State(tail, mono[c..], n * rate - c * RATE, EncodeAll(Resampled(mono, rate, n)))
  }

  // ---- Pushing is invariant under chunking --------------------------------------------------------------------------

  /** The pending bytes and the next push decode as the whole stream does. */
  lemma {:induction false} Realigned(bytes: seq<Byte>, pcm: seq<Byte>, channels: int)
    requires channels == 1 || channels == 2
    ensures var data := Tail(bytes, channels) + pcm;
            && Mono(bytes + pcm, channels) == Mono(bytes, channels) + Mono(data, channels)
            && Tail(bytes + pcm, channels) == Tail(data, channels)
  {
    var u := Unit(channels);
    if |bytes| >= u {
      var rest, x := bytes[u..], MonoSample(bytes, channels);
      Realigned(rest, pcm, channels);
      Peeled(bytes, pcm, channels);
      Regrouped(x, Mono(rest, channels), Mono(Tail(rest, channels) + pcm, channels));
    }
  }

  lemma Regrouped(x: int, a: seq<int>, b: seq<int>)
    ensures [x] + (a + b) == [x] + a + b
  {
  }

  lemma Peeled(bytes: seq<Byte>, pcm: seq<Byte>, channels: int)
    requires (channels == 1 || channels == 2) && |bytes| >= Unit(channels)
    ensures var rest := bytes[Unit(channels)..] + pcm;
            && Mono(bytes + pcm, channels) == [MonoSample(bytes, channels)] + Mono(rest, channels)
            && Tail(bytes + pcm, channels) == Tail(rest, channels)
  {
    assert (bytes + pcm)[Unit(channels)..] == bytes[Unit(channels)..] + pcm;
    assert MonoSample(bytes + pcm, channels) == MonoSample(bytes, channels);
  }

  lemma InterpolateShift(w: seq<int>, c: nat, p: nat)
    requires c < |w| && p < (|w| - c - 1) * RATE
    ensures Interpolate(w[c..], p) == Interpolate(w, p + c * RATE)
  {
  }

  /** Reading on from position k * rate of the whole source, seen from c samples in, gives the whole source's outputs
      from k. */
  lemma {:induction false} EmitContinues(w: seq<int>, c: nat, k: nat, rate: nat)
    requires rate > 0 && c < |w| && c * RATE <= k * rate && k <= Outputs(|w|, rate)
    ensures var n := Outputs(|w|, rate);
            Emit(w[c..], k * rate - c * RATE, rate) == (Resampled(w, rate, n)[k..], n * rate - c * RATE)
    decreases Outputs(|w|, rate) - k
  {
    var n := Outputs(|w|, rate);
    OutputsAreThoseBeforeTheEnd(|w|, rate, k);
    var p := k * rate - c * RATE;
    if k < n {
      assert (k + 1) * rate == k * rate + rate;
      EmitContinues(w, c, k + 1, rate);
      InterpolateShift(w, c, p);
      assert Resampled(w, rate, n)[k..] == [Interpolated(w, rate, k)] + Resampled(w, rate, n)[k + 1..];
    }
  }

  lemma {:induction false} ResampledPrefix(m: seq<int>, s: seq<int>, rate: nat, n: nat)
    requires rate > 0 && n <= Outputs(|m|, rate) <= Outputs(|m + s|, rate)
    ensures Resampled(m + s, rate, n) == Resampled(m, rate, n)
  {
    if n > 0 {
      ResampledPrefix(m, s, rate, n - 1);
      OutputsAreThoseBeforeTheEnd(|m|, rate, n - 1);
      assert m + s == (m + s)[0..];
    }
  }

  lemma OutputsGrow(m: nat, m': nat, rate: nat)
    requires rate > 0 && m <= m'
    ensures Outputs(m, rate) <= Outputs(m', rate)
  {
    var n := Outputs(m, rate);
    if n > 0 {
      OutputsAreThoseBeforeTheEnd(m, rate, n - 1);
      OutputsAreThoseBeforeTheEnd(m', rate, n - 1);
    }
  }

  /** One more push takes the state of a stream to the state of the longer stream. */
  lemma PushExtends(rate: nat, channels: int, bytes: seq<Byte>, pcm: seq<Byte>)
    requires 0 < rate <= 2 * RATE && (channels == 1 || channels == 2)
    ensures Pushed(rate, channels, Canon(rate, channels, bytes), pcm) == Canon(rate, channels, bytes + pcm)
  {
    Realigned(bytes, pcm, channels);
    var m, s := Mono(bytes, channels), Mono(Tail(bytes, channels) + pcm, channels);
    if s == [] {
      assert m + s == m;
    } else if rate == RATE {
      EncodeAppends(m, s);
    } else {
      ResampleExtends(m, s, rate);
    }
  }

  /** What the next push emits, and where it stops. */
  lemma EmitExtends(m: seq<int>, s: seq<int>, rate: nat)
    requires 0 < rate <= 2 * RATE && s != [] && Consumed(|m|, rate) <= |m|
    ensures var n, n', c := Outputs(|m|, rate), Outputs(|m + s|, rate), Consumed(|m|, rate);
            && n <= n' && c * RATE <= n * rate <= n' * rate
            && Emit(m[c..] + s, n * rate - c * RATE, rate) == (Resampled(m + s, rate, n')[n..], n' * rate - c * RATE)
  {
    var w := m + s;
    var n, n', c := Outputs(|m|, rate), Outputs(|w|, rate), Consumed(|m|, rate);
    OutputsGrow(|m|, |w|, rate);
    assert m[c..] + s == w[c..];
    EmitContinues(w, c, n, rate);
    MulMono(n, n', rate);
  }

  lemma OutputExtends(m: seq<int>, s: seq<int>, rate: nat)
    requires rate > 0 && Outputs(|m|, rate) <= Outputs(|m + s|, rate)
    ensures var n, n' := Outputs(|m|, rate), Outputs(|m + s|, rate);
            EncodeAll(Resampled(m, rate, n)) + EncodeAll(Resampled(m + s, rate, n')[n..])
              == EncodeAll(Resampled(m + s, rate, n'))
  {
    var w, n, n' := m + s, Outputs(|m|, rate), Outputs(|m + s|, rate);
    ResampledPrefix(m, s, rate, n);
    ResampledIsPrefix(w, rate, n, n');
    EncodeAppends(Resampled(w, rate, n), Resampled(w, rate, n')[n..]);
  }

  lemma ResampleExtends(m: seq<int>, s: seq<int>, rate: nat)
    requires 0 < rate <= 2 * RATE && s != []
    ensures Consumed(|m|, rate) <= |m| && Consumed(|m + s|, rate) <= |m + s|
    ensures var n, n', c := Outputs(|m|, rate), Outputs(|m + s|, rate), Consumed(|m|, rate);
            var emitted := Emit(m[c..] + s, n * rate - c * RATE, rate);
            && EncodeAll(Resampled(m, rate, n)) + EncodeAll(emitted.0) == EncodeAll(Resampled(m + s, rate, n'))
            && emitted.1 == n' * rate - c * RATE
            && emitted.1 / RATE + c == Consumed(|m + s|, rate)
            && (m[c..] + s)[emitted.1 / RATE..] == (m + s)[Consumed(|m + s|, rate)..]
  {
    var c, p := Consumed(|m|, rate), Outputs(|m + s|, rate) * rate;
    ConsumedFits(|m|, rate);
    ConsumedFits(|m + s|, rate);
    EmitExtends(m, s, rate);
    OutputExtends(m, s, rate);
    DropsTwice(m, s, c, p);
  }

  /** Dropping c samples and then those before position p of the rest drops those before p of the whole. */
  lemma DropsTwice(m: seq<int>, s: seq<int>, c: nat, p: nat)
    requires c <= |m| && c * RATE <= p && p / RATE <= |m + s|
    ensures (p - c * RATE) / RATE + c == p / RATE
    ensures (m[c..] + s)[(p - c * RATE) / RATE..] == (m + s)[p / RATE..]
  {
    assert m[c..] + s == (m + s)[c..];
  }

  lemma ResampledIsPrefix(w: seq<int>, rate: nat, n: nat, n': nat)
    requires rate > 0 && n <= n' <= Outputs(|w|, rate)
    ensures Resampled(w, rate, n) + Resampled(w, rate, n')[n..] == Resampled(w, rate, n')
  {
  }

  function PushAll(rate: nat, channels: int, chunks: seq<seq<Byte>>): State
    requires rate > 0 && (channels == 1 || channels == 2)
  {
    if chunks == [] then EMPTY
    else Pushed(rate, channels, PushAll(rate, channels, chunks[..|chunks| - 1]), chunks[|chunks| - 1])
  }

  function Concat(chunks: seq<seq<Byte>>): seq<Byte> {
    if chunks == [] then [] else Concat(chunks[..|chunks| - 1]) + chunks[|chunks| - 1]
  }

  lemma EmptyIsCanon(rate: nat, channels: int)
    requires 0 < rate <= 2 * RATE && (channels == 1 || channels == 2)
    ensures Canon(rate, channels, []) == EMPTY
  {
  }

  /** Up to 96 kHz the state depends on the bytes alone: any chunking leaves the state the whole stream must leave. */
  lemma {:induction false} ChunksReachCanon(rate: nat, channels: int, chunks: seq<seq<Byte>>)
    requires 0 < rate <= 2 * RATE && (channels == 1 || channels == 2)
    ensures PushAll(rate, channels, chunks) == Canon(rate, channels, Concat(chunks))
  {
    if chunks == [] {
      EmptyIsCanon(rate, channels);
    } else {
      ChunksReachCanon(rate, channels, chunks[..|chunks| - 1]);
      PushExtends(rate, channels, Concat(chunks[..|chunks| - 1]), chunks[|chunks| - 1]);
    }
  }

  /** Any chunking gives what one push of the same bytes gives. */
  ghost predicate ChunkInvariant(rate: nat, channels: int)
    requires rate > 0 && (channels == 1 || channels == 2)
  {
    forall chunks: seq<seq<Byte>> :: PushAll(rate, channels, chunks).out
      == PushAll(rate, channels, [Concat(chunks)]).out
  }

  // ---- Above 96 kHz the position is lost ----------------------------------------------------------------------------

  function Zeros(n: nat): (z: seq<Byte>)
    ensures |z| == n
  {
    seq(n, _ => 0)
  }

  /** The number of samples one Emit gives, and where it stops. */
  lemma {:induction false} EmitCounts(src: seq<int>, p: nat, rate: nat, n: nat)
    requires rate > 0 && src != []
    requires p + n * rate >= (|src| - 1) * RATE && (n > 0 ==> p + (n - 1) * rate < (|src| - 1) * RATE)
    ensures |Emit(src, p, rate).0| == n && Emit(src, p, rate).1 == p + n * rate
    decreases n
  {
    if n > 0 {
      assert n * rate == (n - 1) * rate + rate;
      MulMono(0, n - 1, rate);
      if n > 1 {
        assert (n - 1) * rate == (n - 2) * rate + rate;
      }
      EmitCounts(src, p + rate, rate, n - 1);
    }
  }

  /** A push of n samples onto a framer holding no bytes and no samples: what it emits and where it stops. */
  lemma PushCounts(rate: nat, channels: int, f: State, data: seq<Byte>, n: nat, k: nat)
    requires rate > 0 && rate != RATE && (channels == 1 || channels == 2) && f.pending == [] && f.carry == []
    requires n > 0 && |data| == n * Unit(channels)
    requires f.pos + k * rate >= (n - 1) * RATE && (k > 0 ==> f.pos + (k - 1) * rate < (n - 1) * RATE)
    ensures var g, consumed := Pushed(rate, channels, f, data), (f.pos + k * rate) / RATE;
            && |g.out| == |f.out| + 2 * k && g.pending == []
            && (consumed >= n ==> g.carry == []) && g.pos == f.pos + k * rate - consumed * RATE
  {
    Units(data, n, channels);
    var m := Mono(data, channels);
    PushOntoEmpty(rate, channels, f, data);
    EmitCounts(m, f.pos, rate, k);
  }

  lemma PushOntoEmpty(rate: nat, channels: int, f: State, data: seq<Byte>)
    requires rate > 0 && rate != RATE && (channels == 1 || channels == 2) && f.pending == [] && f.carry == []
    requires Mono(data, channels) != [] && Tail(data, channels) == []
    ensures var m := Mono(data, channels);
            var emitted := Emit(m, f.pos, rate);
            var g := Pushed(rate, channels, f, data);
            && g.pending == [] && g.out == f.out + EncodeAll(emitted.0) && g.pos == emitted.1 - emitted.1 / RATE * RATE
            && (emitted.1 / RATE >= |m| ==> g.carry == [])
  {
    assert [] + data == data;
    assert [] + Mono(data, channels) == Mono(data, channels);
  }

  /** Pushing 2k samples and then 2 more emits one sample more than pushing all 2k + 2 at once, for the k at which the
      reading position first runs a whole sample past the end of the first push. */
  lemma SplitEmitsMore(rate: nat, channels: int, k: nat, a: seq<Byte>, b: seq<Byte>)
    requires rate > 2 * RATE && (channels == 1 || channels == 2)
    requires k > 0 && (k - 1) * rate < (2 * k - 1) * RATE && k * rate >= (2 * k + 1) * RATE
    requires |a| == 2 * k * Unit(channels) && |b| == 2 * Unit(channels)
    ensures |Pushed(rate, channels, Pushed(rate, channels, EMPTY, a), b).out| == 2 * (k + 1)
    ensures |Pushed(rate, channels, EMPTY, a + b).out| == 2 * k
  {
    PushCounts(rate, channels, EMPTY, a, 2 * k, k);
    var first := Pushed(rate, channels, EMPTY, a);
    assert first.pos < RATE;
    PushCounts(rate, channels, first, b, 2, 1);
    assert |a + b| == (2 * k + 2) * Unit(channels);
    PushCounts(rate, channels, EMPTY, a + b, 2 * k + 2, k);
  }

  /** n whole units decode to n samples and leave no tail. */
  lemma {:induction false} Units(data: seq<Byte>, n: nat, channels: int)
    requires (channels == 1 || channels == 2) && |data| == n * Unit(channels)
    ensures |Mono(data, channels)| == n && Tail(data, channels) == []
  {
    if n > 0 {
      Units(data[Unit(channels)..], n - 1, channels);
    }
  }

  /** The first k whose position outruns twice k by a whole sample. */
  lemma OverrunExists(rate: nat) returns (k: nat)
    requires rate > 2 * RATE
    ensures k > 0 && (k - 1) * rate < (2 * k - 1) * RATE && k * rate >= (2 * k + 1) * RATE
  {
    var d := rate - 2 * RATE;
    k := (RATE + d - 1) / d;
    var x := RATE + d - 1;
    assert x == k * d + x % d;
    assert k > 0 by {
      if k == 0 {
        assert false;
      }
    }
    assert (k - 1) * d == k * d - d;
    assert k * rate == k * d + 2 * RATE * k;
    assert (k - 1) * rate == (k - 1) * d + 2 * RATE * (k - 1);
  }

  lemma OneChunk(rate: nat, channels: int, bytes: seq<Byte>)
    requires rate > 0 && (channels == 1 || channels == 2)
    ensures PushAll(rate, channels, [bytes]) == Pushed(rate, channels, EMPTY, bytes) && Concat([bytes]) == bytes
  {
    var none: seq<seq<Byte>> := [];
    assert [bytes][..0] == none;
  }

  lemma TwoChunks(rate: nat, channels: int, a: seq<Byte>, b: seq<Byte>)
    requires rate > 0 && (channels == 1 || channels == 2)
    ensures PushAll(rate, channels, [a, b]) == Pushed(rate, channels, Pushed(rate, channels, EMPTY, a), b)
    ensures Concat([a, b]) == a + b
  {
    OneChunk(rate, channels, a);
    assert [a, b][..1] == [a];
  }

  /** The framer's promise, that a chunked push gives the output of a single one, holds exactly up to 96 kHz. */
  lemma ChunkInvariantUpTo96k(rate: nat, channels: int)
    requires rate > 0 && (channels == 1 || channels == 2)
    ensures ChunkInvariant(rate, channels) <==> rate <= 2 * RATE
  {
    if rate <= 2 * RATE {
      forall chunks: seq<seq<Byte>> ensures PushAll(rate, channels, chunks).out
        == PushAll(rate, channels, [Concat(chunks)]).out {
        OneChunk(rate, channels, Concat(chunks));
        ChunksReachCanon(rate, channels, chunks);
        ChunksReachCanon(rate, channels, [Concat(chunks)]);
      }
    } else {
      var k := OverrunExists(rate);
      var a, b := Zeros(2 * k * Unit(channels)), Zeros(2 * Unit(channels));
      SplitEmitsMore(rate, channels, k, a, b);
      TwoChunks(rate, channels, a, b);
      OneChunk(rate, channels, a + b);
      assert PushAll(rate, channels, [a, b]).out != PushAll(rate, channels, [Concat([a, b])]).out;
    }
  }

  // ---- Frames taken between pushes ----------------------------------------------------------------------------------

  datatype Call = Push(pcm: seq<Byte>) | GetFrame

  /** The state, and all bytes handed out so far. */
  datatype Session = Session(f: State, sent: seq<Byte>)

  function Called(rate: nat, channels: int, s: Session, c: Call): Session
    requires rate > 0 && (channels == 1 || channels == 2)
  {
    match c
    case Push(pcm) => s.(f := Pushed(rate, channels, s.f, pcm))
    case GetFrame =>
      if |s.f.out| < FRAME_BYTES then s
      else Session(s.f.(out := s.f.out[FRAME_BYTES..]), s.sent + s.f.out[..FRAME_BYTES])
  }

  function Calls(rate: nat, channels: int, calls: seq<Call>): Session
    requires rate > 0 && (channels == 1 || channels == 2)
  {
    if calls == [] then Session(EMPTY, [])
    else Called(rate, channels, Calls(rate, channels, calls[..|calls| - 1]), calls[|calls| - 1])
  }

  function PushedBytes(calls: seq<Call>): seq<Byte> {
    if calls == [] then []
    else PushedBytes(calls[..|calls| - 1]) + match calls[|calls| - 1] case Push(pcm) => pcm case GetFrame => []
  }

  /** The frames handed out and the bytes still buffered are together the stream's exact output, in whole frames. */
  ghost predicate Delivers(rate: nat, channels: int, s: Session, bytes: seq<Byte>)
    requires 0 < rate <= 2 * RATE && (channels == 1 || channels == 2)
  {
    var c := Canon(rate, channels, bytes);
    s.sent + s.f.out == c.out && |s.sent| % FRAME_BYTES == 0 && s.f.(out := c.out) == c
  }

  /** However pushes and reads interleave, no byte of the stream's output is lost, repeated or reordered. */
  lemma {:induction false} FramesDeliverTheStream(rate: nat, channels: int, calls: seq<Call>)
    requires 0 < rate <= 2 * RATE && (channels == 1 || channels == 2)
    ensures Delivers(rate, channels, Calls(rate, channels, calls), PushedBytes(calls))
  {
    if calls == [] {
      EmptyIsCanon(rate, channels);
    } else {
      var front, call := calls[..|calls| - 1], calls[|calls| - 1];
      FramesDeliverTheStream(rate, channels, front);
      match call
      case Push(pcm) => PushDelivers(rate, channels, Calls(rate, channels, front), PushedBytes(front), pcm);
      case GetFrame => GetDelivers(rate, channels, Calls(rate, channels, front), PushedBytes(front));
    }
  }

  lemma GetDelivers(rate: nat, channels: int, s: Session, bytes: seq<Byte>)
    requires 0 < rate <= 2 * RATE && (channels == 1 || channels == 2) && Delivers(rate, channels, s, bytes)
    ensures Delivers(rate, channels, Called(rate, channels, s, GetFrame), bytes + [])
  {
    assert bytes + [] == bytes;
    var out := s.f.out;
    if |out| >= FRAME_BYTES {
      assert s.sent + out[..FRAME_BYTES] + out[FRAME_BYTES..] == s.sent + out;
    }
  }

  lemma PushDelivers(rate: nat, channels: int, s: Session, bytes: seq<Byte>, pcm: seq<Byte>)
    requires 0 < rate <= 2 * RATE && (channels == 1 || channels == 2) && Delivers(rate, channels, s, bytes)
    ensures Delivers(rate, channels, Called(rate, channels, s, Push(pcm)), bytes + pcm)
  {
    PushExtends(rate, channels, bytes, pcm);
    PushIgnoresTaken(rate, channels, s.f, s.sent, pcm);
    assert s.f.(out := s.sent + s.f.out) == Canon(rate, channels, bytes);
  }

  lemma PushIgnoresTaken(rate: nat, channels: int, f: State, sent: seq<Byte>, pcm: seq<Byte>)
    requires rate > 0 && (channels == 1 || channels == 2)
    ensures var g := f.(out := sent + f.out);
            Pushed(rate, channels, g, pcm)
              == Pushed(rate, channels, f, pcm).(out := sent + Pushed(rate, channels, f, pcm).out)
  {
  }

  lemma {:induction false} BytesOfSample(vs: seq<int>, k: nat)
    requires k < |vs|
    ensures EncodeAll(vs)[2 * k..2 * k + 2] == EncodeSample(ClampSample(vs[k]))
  {
    if k < |vs| - 1 {
      BytesOfSample(vs[..|vs| - 1], k);
      assert EncodeAll(vs)[2 * k..2 * k + 2] == EncodeAll(vs[..|vs| - 1])[2 * k..2 * k + 2];
    }
  }

  /** Output sample k, read back from the stream's bytes, is the exact interpolation at source position k * rate / RATE,
      and there are exactly as many as positions before the last source sample. */
  lemma OutputIsExact(rate: nat, channels: int, bytes: seq<Byte>, k: nat)
    requires 0 < rate <= 2 * RATE && rate != RATE && (channels == 1 || channels == 2)
    ensures var mono, out := Mono(bytes, channels), Canon(rate, channels, bytes).out;
            && |out| == 2 * Outputs(|mono|, rate)
            && (2 * k < |out| <==> mono != [] && k * rate < (|mono| - 1) * RATE)
            && (2 * k < |out| ==> DecodeSample(out[2 * k], out[2 * k + 1]) == Interpolate(mono, k * rate))
  {
    var mono := Mono(bytes, channels);
    OutputsAreThoseBeforeTheEnd(|mono|, rate, k);
    var n := Outputs(|mono|, rate);
    if k < n {
      BytesOfSample(Resampled(mono, rate, n), k);
      var out := Canon(rate, channels, bytes).out;
      InterpolationIsExact(mono, k * rate);
      assert out[2 * k..2 * k + 2] == EncodeSample(Interpolate(mono, k * rate));
      assert out[2 * k..2 * k + 2] == [out[2 * k], out[2 * k + 1]];
    }
  }
}
