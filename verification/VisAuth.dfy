/** The pure rules of the visibility authority: epochs on the wire, the adoption rule, the listener rows, feed liveness
    and the would-silence gauge. Times are microseconds of the mixer's monotonic clock; 0 stands for "never". */
module VisAuth {
  import opened Common
  import opened VisBatch


  // ---- Epochs on the wire ------------------------------------------------------------------------------------------

  function HexDigit(c: char): Option<nat> {
    if '0' <= c <= '9' then Some(c as nat - '0' as nat)
    else if 'a' <= c <= 'f' then Some(c as nat - 'a' as nat + 10)
    else if 'A' <= c <= 'F' then Some(c as nat - 'A' as nat + 10)
    else None
  }

  /** A digit is one of the sixteen in either case, and stands for its place among them. */
  lemma HexDigitExactly(c: char)
    ensures HexDigit(c).Some? <==> c in "0123456789abcdef" || c in "0123456789ABCDEF"
    ensures HexDigit(c).Some? ==>
              var d := HexDigit(c).value;
              d < 16 && (c == "0123456789abcdef"[d] || c == "0123456789ABCDEF"[d])
  {
    if HexDigit(c).Some? {
      var d := HexDigit(c).value;
      assert d < 10 ==> c == "0123456789abcdef"[d];
      assert c == "0123456789abcdef"[d] || c == "0123456789ABCDEF"[d];
    }
    if c in "0123456789abcdef" {
      var d :| 0 <= d < 16 && "0123456789abcdef"[d] == c;
    }
    if c in "0123456789ABCDEF" {
      var d :| 0 <= d < 16 && "0123456789ABCDEF"[d] == c;
    }
  }

  predicate AllHex(s: string) {
    forall i :: 0 <= i < |s| ==> HexDigit(s[i]).Some?
  }

  /** The number a hexadecimal text stands for. */
  function HexValue(s: string): nat
    requires AllHex(s)
  {
    if s == [] then 0 else HexValue(s[..|s| - 1]) * 16 + HexDigit(s[|s| - 1]).value
  }

  function Pow16(n: nat): nat {
    if n == 0 then 1 else 16 * Pow16(n - 1)
  }

  function HexChar(d: nat): char
    requires d < 16
  {
    if d < 10 then '0' + d as char else 'a' + (d - 10) as char
  }

  /** `n` lowercase hexadecimal digits of `v`, most significant first. */
  function HexText(v: nat, n: nat): string {
    if n == 0 then "" else HexText(v / 16, n - 1) + [HexChar(v % 16)]
  }

  /** An epoch as the wire carries it. */
  function FormatEpoch(epoch: nat): string {
    HexText(epoch, 16)
  }

  lemma {:induction false} HexValueBelow(s: string)
    requires AllHex(s)
    ensures HexValue(s) < Pow16(|s|)
  {
    if s != [] {
      HexValueBelow(s[..|s| - 1]);
    }
  }

  lemma {:induction false} HexTextValue(v: nat, n: nat)
    requires v < Pow16(n)
    ensures |HexText(v, n)| == n && AllHex(HexText(v, n)) && HexValue(HexText(v, n)) == v
  {
    if n > 0 {
      HexTextValue(v / 16, n - 1);
      var front := HexText(v / 16, n - 1);
      assert HexText(v, n)[..n - 1] == front;
      assert HexDigit(HexChar(v % 16)) == Some(v % 16);
    }
  }

  lemma Pow16Of16()
    ensures Pow16(16) == MAX_U64 + 1
  {
    assert Pow16(4) == 0x1_0000;
    assert Pow16(8) == 0x1_0000_0000;
    assert Pow16(12) == 0x1_0000_0000_0000;
  }

  /** A room_epoch is exactly 16 hex digits and not zero; the 64-bit accumulator never loses a digit. */
  method ParseEpoch(s: string) returns (r: Option<nat>)
    ensures r.Some? <==> |s| == 16 && AllHex(s) && HexValue(s) != 0
    ensures r.Some? ==> r.value == HexValue(s) && 0 < r.value <= MAX_U64
  {
    if |s| != 16 {
      return None;
    }
    var v := 0;
    for i := 0 to 16
      invariant AllHex(s[..i]) && v == HexValue(s[..i])
    {
      var d := HexDigit(s[i]);
      if d.None? {
        assert !AllHex(s);
        return None;
      }
      assert s[..i + 1][..i] == s[..i];
      v := ShiftIn(v, d.value, s[..i]);
    }
    assert s[..16] == s;
    HexValueBelow(s);
    Pow16Of16();
    return if v == 0 then None else Some(v);
  }

  /** One step of the accumulator, `(v << 4) | d` in 64 bits. */
  method ShiftIn(v: nat, d: nat, ghost sofar: string) returns (r: nat)
    requires |sofar| < 16 && AllHex(sofar) && v == HexValue(sofar) && d < 16
    ensures r == v * 16 + d
  {
    HexValueBelow(sofar);
    PowMonotone(|sofar|, 15);
    assert Pow16(15) == 0x1000_0000_0000_0000 by { Pow16Of16(); }
    r := (v * 16) % (MAX_U64 + 1) + d;
  }

  lemma {:induction false} PowMonotone(m: nat, n: nat)
    requires m <= n
    ensures Pow16(m) <= Pow16(n)
  {
    if m < n {
      PowMonotone(m, n - 1);
    }
  }

  /** Every epoch survives the wire. */
  lemma EpochRoundTrip(epoch: nat)
    requires 0 < epoch <= MAX_U64
    ensures var s := FormatEpoch(epoch); |s| == 16 && AllHex(s) && HexValue(s) == epoch
    ensures forall i :: 0 <= i < |FormatEpoch(epoch)| ==> FormatEpoch(epoch)[i] in "0123456789abcdef"
  {
    Pow16Of16();
    HexTextValue(epoch, 16);
    HexTextIsLower(epoch, 16);
  }

  lemma {:induction false} HexTextIsLower(v: nat, n: nat)
    ensures forall i :: 0 <= i < |HexText(v, n)| ==> HexText(v, n)[i] in "0123456789abcdef"
  {
    if n > 0 {
      HexTextIsLower(v / 16, n - 1);
      HexCharIsLower(v % 16);
    }
  }

  lemma HexCharIsLower(d: nat)
    requires d < 16
    ensures HexChar(d) in "0123456789abcdef"
  {
    assert "0123456789abcdef"[d] == HexChar(d);
  }

  // ---- Adoption ----------------------------------------------------------------------------------------------------

  datatype Verdict = Equal | Adopt | Takeover | StaleEpoch

  /** No accepted message within the window, or the authority said it was stopping. */
  predicate AuthorityStale(lastAccept: int, now: int, staleUs: int) {
    lastAccept == 0 || now - lastAccept > staleUs
  }

  function EpochDecide(stored: nat, lastAccept: int, now: int, staleUs: int, incoming: nat): Verdict {
    if stored == 0 || incoming > stored then Adopt
    else if incoming == stored then Equal
    else if AuthorityStale(lastAccept, now, staleUs) then Takeover
    else StaleEpoch
  }

  // ---- Rows --------------------------------------------------------------------------------------------------------

  /** Which row a display stands in: 1 unarmed, 2 another epoch, 3 stale or unconfirmed, 4 good. */
  function Row(armed: bool, recordEpoch: nat, authEpoch: nat, confirmed: int, stale: bool, now: int,
               staleUs: int): (r: nat) {
    if !armed then 1
    else if authEpoch == 0 || recordEpoch != authEpoch then 2
    else if stale || now - confirmed > staleUs then 3
    else 4
  }

  /** Whether a heartbeat built on a feed of this age counts as live; no age, or a negative one, is live. */
  predicate FeedLive(feedAge: Option<int>, staleMs: nat) {
    feedAge.None? || feedAge.value < 0 || feedAge.value <= staleMs
  }

  // ---- The would-silence gauge -------------------------------------------------------------------------------------

  function WouldSilencePairs(n: nat, good: nat): int {
    (if n < 2 then 0 else n * (n - 1)) - (if good < 2 then 0 else good * (good - 1))
  }

  /** The ordered pairs of distinct members. */
  ghost function OrderedPairs<T(!new)>(s: set<T>): set<(T, T)> {
    set a, b | a in s && b in s && a != b :: (a, b)
  }

  lemma PairsOfOneMore<T(!new)>(rest: set<T>, x: T)
    requires x !in rest
    ensures |OrderedPairs(rest + {x})| == |OrderedPairs(rest)| + 2 * |rest|
  {
    var from, to := set b | b in rest :: (x, b), set a | a in rest :: (a, x);
    var first := b => (x, b);
    var second := a => (a, x);
    assert from == set b | b in rest :: first(b);
    assert to == set a | a in rest :: second(a);
    MapCount(rest, first);
    MapCount(rest, second);
    PairsSplit(rest, x, from, to);
  }

  lemma PairsSplit<T(!new)>(rest: set<T>, x: T, from: set<(T, T)>, to: set<(T, T)>)
    requires x !in rest && from == (set b | b in rest :: (x, b)) && to == set a | a in rest :: (a, x)
    ensures OrderedPairs(rest + {x}) == OrderedPairs(rest) + (from + to)
    ensures OrderedPairs(rest) !! (from + to) && from !! to
  {
  }

  lemma {:induction false} OrderedPairsCount<T(!new)>(s: set<T>)
    ensures |OrderedPairs(s)| == |s| * |s| - |s|
    decreases s
  {
    if s == {} {
      assert OrderedPairs(s) == {};
    } else {
      var x :| x in s;
      var rest := s - {x};
      OrderedPairsCount(rest);
      PairsOfOneMore(rest, x);
      assert rest + {x} == s;
      var n := |rest|;
      assert (n + 1) * (n + 1) == n * n + 2 * n + 1;
    }
  }

  lemma {:induction false} MapCount<T(!new), U(!new)>(s: set<T>, f: T -> U)
    requires forall a, b :: a in s && b in s && f(a) == f(b) ==> a == b
    ensures |set a | a in s :: f(a)| == |s|
    decreases s
  {
    if s != {} {
      var x :| x in s;
      var rest := s - {x};
      MapCount(rest, f);
      assert (set a | a in s :: f(a)) == (set a | a in rest :: f(a)) + {f(x)};
    } else {
      assert (set a | a in s :: f(a)) == {};
    }
  }

  /** The gauge counts exactly the ordered (listener, source) pairs with a side outside row 4. */
  lemma WouldSilenceCountsPairs<T(!new)>(all: set<T>, good: set<T>)
    requires good <= all
    ensures WouldSilencePairs(|all|, |good|)
            == |set a, b | a in all && b in all && a != b && !(a in good && b in good) :: (a, b)|
  {
    OrderedPairsCount(all);
    OrderedPairsCount(good);
    assert OrderedPairs(good) <= OrderedPairs(all);
    assert (set a, b | a in all && b in all && a != b && !(a in good && b in good) :: (a, b))
        == OrderedPairs(all) - OrderedPairs(good);
  }
}
