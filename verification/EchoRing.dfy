/** The self-monitor's delay ring: a fixed 500 ms line over a ring that is longer than the delay. */
module EchoRing {
  const DELAY := 24_000
  const DECODE_MAX := 5760
  const FRAME := 960
  const RING := DELAY + DECODE_MAX + FRAME

  /** One stereo sample. */
  datatype Stereo = Stereo(l: real, r: real)

  const ZERO := Stereo(0.0, 0.0)

  function Zeros(n: nat): (r: seq<Stereo>)
    ensures |r| == n && forall i :: 0 <= i < n ==> r[i] == ZERO
  {
    if n == 0 then [] else Zeros(n - 1) + [ZERO]
  }

  /** The samples one tick feeds into the line: the decoded ones it needs, silence for the rest. */
  function Fed(decoded: seq<Stereo>, samples: nat): (r: seq<Stereo>)
    ensures |r| == samples
    ensures forall i :: 0 <= i < samples ==> r[i] == if i < |decoded| then decoded[i] else ZERO
  {
    if samples <= |decoded| then decoded[..samples] else decoded + Zeros(samples - |decoded|)
  }

  /** An ideal delay line: what has come out when `fed` has gone in. */
  function Line(fed: seq<Stereo>): (r: seq<Stereo>)
    ensures |r| == |fed|
  {
    (Zeros(DELAY) + fed)[..|fed|]
  }

  /** What has come out never changes as more goes in. */
  lemma LineGrows(fed: seq<Stereo>, x: Stereo)
    ensures Line(fed + [x]) == Line(fed) + [if |fed| < DELAY then ZERO else (fed + [x])[|fed| - DELAY]]
  {
  }

  lemma {:induction false} LineOfPrefix(fed: seq<Stereo>, more: seq<Stereo>)
    ensures Line(fed + more)[..|fed|] == Line(fed)
  {
  }

  /** The slot d samples behind the write cursor. */
  function Back(w: nat, d: nat): (r: nat)
    requires w < RING && 1 <= d <= RING
    ensures r < RING && r == (w + RING - d) % RING
  {
    if d <= w then w - d else w + RING - d
  }

  class Echo {
    const ring: array<Stereo>
    var wpos: nat
    ghost var history: seq<Stereo>   // everything fed since echo started

    /** Looking back d samples from the write cursor finds what was fed d samples ago, or silence before the start. */
    ghost predicate Looks(d: nat)
      reads this, ring
      requires ring.Length == RING && wpos < RING && 1 <= d <= RING
    {
      ring[Back(wpos, d)] == if d <= |history| then history[|history| - d] else ZERO
    }

    ghost predicate Valid()
      reads this, ring
    {
      && ring.Length == RING && wpos < RING
      && forall d :: 1 <= d <= RING ==> Looks(d)
    }

    constructor ()
      ensures Valid() && history == [] && fresh(ring)
    {
      ring := new Stereo[RING](i => ZERO);
      wpos := 0;
      history := [];
    }

    /** Starting or stopping echo clears the line. */
    method Clear()
      requires ring.Length == RING
      modifies this, ring
      ensures Valid() && history == []
    {
      forall i | 0 <= i < RING {
        ring[i] := ZERO;
      }
      wpos := 0;
      history := [];
    }

    /** One sample through the line. */
    method Push(x: Stereo, rp: nat) returns (y: Stereo)
      requires Valid() && rp == (wpos + RING - DELAY) % RING
      modifies this, ring
      ensures Valid() && history == old(history) + [x]
      ensures y == if |old(history)| < DELAY then ZERO else history[|old(history)| - DELAY]
      ensures wpos == (old(wpos) + 1) % RING
    {
      assert Looks(DELAY);
      y := ring[rp];
      ghost var w := wpos;
      ring[wpos] := x;
      wpos := (wpos + 1) % RING;
      history := history + [x];
      forall d | 1 <= d <= RING ensures Looks(d) {
        CursorMoves(w, d);
        if d > 1 {
          assert old(Looks(d - 1));
        }
      }
    }

    /** One tick's echo frame, 960 samples in the plugin: the ring advances by the frame whatever was decoded. */
    method BuildEcho(decoded: seq<Stereo>, samples: nat) returns (out: seq<Stereo>)
      requires Valid()
      modifies this, ring
      ensures Valid() && history == old(history) + Fed(decoded, samples)
      ensures out == Line(history)[|old(history)|..]
    {
      var rp := (wpos + RING - DELAY) % RING;
      out := [];
      assert Line(history)[|history|..] == [];
      for i := 0 to samples
        invariant Valid()
        invariant rp == (wpos + RING - DELAY) % RING
        invariant history == old(history) + Fed(decoded, samples)[..i]
        invariant out == Line(history)[|old(history)|..]
      {
        var x := if i < |decoded| then decoded[i] else ZERO;
        ghost var was := history;
        ghost var w := wpos;
        var y := Push(x, rp);
        assert history == old(history) + Fed(decoded, samples)[..i + 1];
        LineGrows(was, x);
        out := out + [y];
        assert out == Line(history)[|old(history)|..];
        rp := (rp + 1) % RING;
        ReadFollowsWrite(w);
      }
      assert Fed(decoded, samples)[..samples] == Fed(decoded, samples);
    }
  }

  /** The slot d behind the moved cursor is the slot d - 1 behind it before, and the one just written for d = 1. */
  lemma CursorMoves(w: nat, d: nat)
    requires w < RING && 1 <= d <= RING
    ensures Back((w + 1) % RING, d) == if d == 1 then w else Back(w, d - 1)
    ensures d > 1 ==> Back(w, d - 1) != w
  {
  }

  lemma ReadFollowsWrite(w: nat)
    requires w < RING
    ensures ((w + RING - DELAY) % RING + 1) % RING == ((w + 1) % RING + RING - DELAY) % RING
  {
  }

  // ---- Any number of ticks ------------------------------------------------------------------------------------------

  /** The whole input stream of a run: one decoded buffer per tick. */
  function Input(ticks: seq<seq<Stereo>>): (r: seq<Stereo>)
    ensures |r| == FRAME * |ticks|
  {
    if ticks == [] then [] else Input(ticks[..|ticks| - 1]) + Fed(ticks[|ticks| - 1], FRAME)
  }

  /** Any number of ticks since echo started: the output stream is 24000 zeros followed by the input stream, missing
      input as silence, across every wrap of the ring. */
  method Monitor(ticks: seq<seq<Stereo>>) returns (out: seq<Stereo>)
    ensures |out| == 960 * |ticks|
    ensures out == (Zeros(24_000) + Input(ticks))[..|out|]
  {
    var echo := new Echo();
    out := [];
    for n := 0 to |ticks|
      invariant echo.Valid() && fresh(echo) && fresh(echo.ring)
      invariant echo.history == Input(ticks[..n]) && out == Line(echo.history)
    {
      assert ticks[..n + 1][..n] == ticks[..n];
      ghost var was := echo.history;
      var frame := echo.BuildEcho(ticks[n], FRAME);
      LineOfPrefix(was, Fed(ticks[n], FRAME));
      out := out + frame;
    }
    assert ticks[..|ticks|] == ticks;
  }
}
