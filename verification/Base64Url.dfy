/** The capability's base64url text (section 5 of RFC 4648, unpadded): a streaming decoder over a 32-bit accumulator,
    and the encoder it inverts. */
module Base64Url {
  import opened Common

  newtype Six = v: int | 0 <= v < 64

  // ---- The alphabet -------------------------------------------------------------------------------------------------

  /** The decoder's table: zero for every character outside the alphabet. */
  function Table(c: char): Six {
    if 'A' <= c <= 'Z' then (c as int - 'A' as int) as Six
    else if 'a' <= c <= 'z' then (c as int - 'a' as int + 26) as Six
    else if '0' <= c <= '9' then (c as int - '0' as int + 52) as Six
    else if c == '-' then 62
    else if c == '_' then 63
    else 0
  }

  predicate Legal(c: char) {
    Table(c) != 0 || c == 'A'
  }

  function Letter(v: Six): (c: char)
    ensures Legal(c) && Table(c) == v
  {
    if v < 26 then ('A' as int + v as int) as char
    else if v < 52 then ('a' as int + v as int - 26) as char
    else if v < 62 then ('0' as int + v as int - 52) as char
    else if v == 62 then '-'
    else '_'
  }

  /** The letters are those of the standard's URL-safe alphabet, in its order. */
  lemma LetterExactly(v: Six)
    ensures v < 26 ==> Letter(v) == "ABCDEFGHIJKLMNOPQRSTUVWXYZ"[v as int]
    ensures 26 <= v < 52 ==> Letter(v) == "abcdefghijklmnopqrstuvwxyz"[v as int - 26]
    ensures 52 <= v ==> Letter(v) == "0123456789-_"[v as int - 52]
  {
    if v < 26 {
      NthUpper(v as int);
    } else if v < 52 {
      NthLower(v as int - 26);
    }
  }

  lemma NthUpper(n: nat)
    requires n < 26
    ensures "ABCDEFGHIJKLMNOPQRSTUVWXYZ"[n] as int == 'A' as int + n
  {
    if n < 13 {
      assert "ABCDEFGHIJKLM"[n] == "ABCDEFGHIJKLMNOPQRSTUVWXYZ"[n];
    } else {
      assert "NOPQRSTUVWXYZ"[n - 13] == "ABCDEFGHIJKLMNOPQRSTUVWXYZ"[n];
    }
  }

  lemma NthLower(n: nat)
    requires n < 26
    ensures "abcdefghijklmnopqrstuvwxyz"[n] as int == 'a' as int + n
  {
    if n < 13 {
      assert "abcdefghijklm"[n] == "abcdefghijklmnopqrstuvwxyz"[n];
    } else {
      assert "nopqrstuvwxyz"[n - 13] == "abcdefghijklmnopqrstuvwxyz"[n];
    }
  }

  lemma LetterOfTable(c: char)
    requires Legal(c)
    ensures Letter(Table(c)) == c
  {
  }

  function Values(text: string): (v: seq<Six>)
    ensures |v| == |text| && forall i :: 0 <= i < |v| ==> v[i] == Table(text[i])
  {
    seq(|text|, i requires 0 <= i < |text| => Table(text[i]))
  }

  function Letters(v: seq<Six>): (text: string)
    ensures |text| == |v| && forall i :: 0 <= i < |v| ==> text[i] == Letter(v[i])
  {
    seq(|v|, i requires 0 <= i < |v| => Letter(v[i]))
  }

  // ---- Groups -------------------------------------------------------------------------------------------------------

  function Byte1(a: Six, b: Six): Byte { (a as int * 4 + b as int / 16) as Byte }
  function Byte2(b: Six, c: Six): Byte { (b as int % 16 * 16 + c as int / 4) as Byte }
  function Byte3(c: Six, d: Six): Byte { (c as int % 4 * 64 + d as int) as Byte }

  /** Four sextets make three bytes; a last group of two or three makes one or two. */
  function Bytes(v: seq<Six>): seq<Byte> {
    if |v| < 2 then []
    else if |v| == 2 then [Byte1(v[0], v[1])]
    else if |v| == 3 then [Byte1(v[0], v[1]), Byte2(v[1], v[2])]
    else [Byte1(v[0], v[1]), Byte2(v[1], v[2]), Byte3(v[2], v[3])] + Bytes(v[4..])
  }

  /** The bits of a short last group that belong to no byte. */
  function Leftover(v: seq<Six>): int {
    if |v| % 4 == 2 then v[|v| - 1] as int % 16 else if |v| % 4 == 3 then v[|v| - 1] as int % 4 else 0
  }

  function Six1(x: Byte): Six { (x as int / 4) as Six }
  function Six2(x: Byte, y: Byte): Six { (x as int % 4 * 16 + y as int / 16) as Six }
  function Six3(y: Byte, z: Byte): Six { (y as int % 16 * 4 + z as int / 64) as Six }
  function Six4(z: Byte): Six { (z as int % 64) as Six }

  /** Three bytes make four sextets; a missing byte counts as zero bits. */
  function Sextets(bytes: seq<Byte>): seq<Six> {
    if bytes == [] then []
    else if |bytes| == 1 then [Six1(bytes[0]), Six2(bytes[0], 0)]
    else if |bytes| == 2 then [Six1(bytes[0]), Six2(bytes[0], bytes[1]), Six3(bytes[1], 0)]
    else [Six1(bytes[0]), Six2(bytes[0], bytes[1]), Six3(bytes[1], bytes[2]), Six4(bytes[2])] + Sextets(bytes[3..])
  }

  lemma BytesOfGroup(x: Byte, y: Byte, z: Byte)
    ensures Byte1(Six1(x), Six2(x, y)) == x && Byte2(Six2(x, y), Six3(y, z)) == y && Byte3(Six3(y, z), Six4(z)) == z
    ensures Six2(x, 0) as int % 16 == 0 && Six3(y, 0) as int % 4 == 0
  {
  }

  lemma SextetsOfGroup(a: Six, b: Six, c: Six, d: Six)
    ensures Six1(Byte1(a, b)) == a && Six2(Byte1(a, b), Byte2(b, c)) == b
    ensures Six3(Byte2(b, c), Byte3(c, d)) == c && Six4(Byte3(c, d)) == d
    ensures b as int % 16 == 0 ==> Six2(Byte1(a, b), 0) == b
    ensures c as int % 4 == 0 ==> Six3(Byte2(b, c), 0) == c
  {
  }

  function Encode(bytes: seq<Byte>): string {
    Letters(Sextets(bytes))
  }

  ghost predicate AllLegal(text: string) {
    forall i :: 0 <= i < |text| ==> Legal(text[i])
  }

  /** The bytes a text stands for, if it stands for any: no length of one past a group, only the alphabet, zero leftover
      bits. */
  ghost function Decoded(text: string): Option<seq<Byte>> {
    if text == "" || |text| % 4 == 1 || !AllLegal(text) || Leftover(Values(text)) != 0 then None
    else Some(Bytes(Values(text)))
  }

  // ---- Round trips --------------------------------------------------------------------------------------------------

  /** A whole group in front of more text. */
  lemma BytesOfFront(a: Six, b: Six, c: Six, d: Six, w: seq<Six>)
    ensures Bytes([a, b, c, d] + w) == [Byte1(a, b), Byte2(b, c), Byte3(c, d)] + Bytes(w)
  {
    assert ([a, b, c, d] + w)[4..] == w;
  }

  lemma LeftoverOfFront(g: seq<Six>, w: seq<Six>)
    requires |g| == 4
    ensures Leftover(g + w) == Leftover(w) && |g + w| % 4 == |w| % 4
  {
    assert |g + w| == |w| + 4;
    if w != [] {
      assert (g + w)[|w| + 3] == w[|w| - 1];
    }
  }

  lemma SextetsOfFront(x: Byte, y: Byte, z: Byte, w: seq<Byte>)
    ensures Sextets([x, y, z] + w) == [Six1(x), Six2(x, y), Six3(y, z), Six4(z)] + Sextets(w)
  {
    assert ([x, y, z] + w)[3..] == w;
  }

  lemma ShortBytes(a: Six, b: Six, c: Six)
    ensures Bytes([a, b]) == [Byte1(a, b)] && Leftover([a, b]) == b as int % 16
    ensures Bytes([a, b, c]) == [Byte1(a, b), Byte2(b, c)] && Leftover([a, b, c]) == c as int % 4
  {
  }

  lemma BytesOfOne(x: Byte)
    ensures var v := Sextets([x]); Bytes(v) == [x] && Leftover(v) == 0 && |v| == 2
  {
    var a, b := Six1(x), Six2(x, 0);
    ShortBytes(a, b, 0);
    LastByte(x);
    assert Sextets([x]) == [a, b];
  }

  lemma LastByte(x: Byte)
    ensures Byte1(Six1(x), Six2(x, 0)) == x && Six2(x, 0) as int % 16 == 0
  {
  }

  lemma BytesOfTwo(x: Byte, y: Byte)
    ensures var v := Sextets([x, y]); Bytes(v) == [x, y] && Leftover(v) == 0 && |v| == 3
  {
    var a, b, c := Six1(x), Six2(x, y), Six3(y, 0);
    ShortBytes(a, b, c);
    BytesOfGroup(x, y, 0);
  }

  lemma {:induction false} BytesOfSextets(bytes: seq<Byte>)
    ensures Bytes(Sextets(bytes)) == bytes
    ensures Leftover(Sextets(bytes)) == 0 && |Sextets(bytes)| % 4 != 1
  {
    if |bytes| == 1 {
      BytesOfOne(bytes[0]);
      assert bytes == [bytes[0]];
    } else if |bytes| == 2 {
      BytesOfTwo(bytes[0], bytes[1]);
      assert bytes == [bytes[0], bytes[1]];
    } else if bytes != [] {
      BytesOfSextets(bytes[3..]);
      assert bytes == [bytes[0], bytes[1], bytes[2]] + bytes[3..];
      LongBytesOfSextets(bytes[0], bytes[1], bytes[2], bytes[3..]);
    }
  }

  lemma LongBytesOfSextets(x: Byte, y: Byte, z: Byte, w: seq<Byte>)
    ensures Bytes(Sextets([x, y, z] + w)) == [x, y, z] + Bytes(Sextets(w))
    ensures Leftover(Sextets([x, y, z] + w)) == Leftover(Sextets(w)) && |Sextets([x, y, z] + w)| % 4 == |Sextets(w)| % 4
  {
    SextetsOfFront(x, y, z, w);
    BytesOfFront(Six1(x), Six2(x, y), Six3(y, z), Six4(z), Sextets(w));
    LeftoverOfFront([Six1(x), Six2(x, y), Six3(y, z), Six4(z)], Sextets(w));
    BytesOfGroup(x, y, z);
  }

  lemma {:induction false} SextetsOfBytes(v: seq<Six>)
    requires |v| % 4 != 1 && Leftover(v) == 0
    ensures Sextets(Bytes(v)) == v
  {
    if |v| >= 4 {
      var a, b, c, d, w := v[0], v[1], v[2], v[3], v[4..];
      assert v == [a, b, c, d] + w;
      BytesOfFront(a, b, c, d, w);
      LeftoverOfFront([a, b, c, d], w);
      SextetsOfBytes(w);
      SextetsOfFront(Byte1(a, b), Byte2(b, c), Byte3(c, d), Bytes(w));
      SextetsOfGroup(a, b, c, d);
    } else if |v| == 3 {
      SextetsOfGroup(v[0], v[1], v[2], 0);
    } else if |v| == 2 {
      SextetsOfGroup(v[0], v[1], 0, 0);
    }
  }

  /** The decoder inverts the encoder on every non-empty byte string. */
  lemma DecodeOfEncode(bytes: seq<Byte>)
    requires bytes != []
    ensures Decoded(Encode(bytes)) == Some(bytes)
  {
    BytesOfSextets(bytes);
    assert Sextets(bytes) != [];
    assert Values(Encode(bytes)) == Sextets(bytes);
  }

  /** The encoder inverts the decoder: an accepted text is the one encoding of its bytes. */
  lemma EncodeOfDecode(text: string)
    requires Decoded(text).Some?
    ensures Encode(Decoded(text).value) == text && Decoded(text).value != []
  {
    SextetsOfBytes(Values(text));
    forall i | 0 <= i < |text| ensures Letters(Values(text))[i] == text[i] {
      LetterOfTable(text[i]);
    }
    assert Letters(Values(text)) == text;
  }

  /** No two accepted texts stand for the same bytes, so a capability has one text. */
  lemma DecodeIsInjective(a: string, b: string)
    requires Decoded(a).Some? && Decoded(a) == Decoded(b)
    ensures a == b
  {
    EncodeOfDecode(a);
    EncodeOfDecode(b);
  }

  // ---- The streaming decoder ----------------------------------------------------------------------------------------

  /** Bits held after n sextets. */
  function Held(n: nat): int {
    if n % 4 == 0 then 0 else if n % 4 == 1 then 6 else if n % 4 == 2 then 4 else 2
  }

  function Pow2(bits: int): nat {
    if bits == 0 then 1 else if bits == 2 then 4 else if bits == 4 then 16 else if bits == 6 then 64 else 0
  }

  /** The accumulator's held bits are those of the last sextet that no byte has taken. */
  ghost predicate Holding(v: seq<Six>, n: nat, acc: int)
    requires n <= |v|
  {
    n % 4 != 0 ==> acc % Pow2(Held(n)) == v[n - 1] as int % Pow2(Held(n))
  }

  /** The byte that sextet n completes. */
  function Completed(v: seq<Six>, n: nat): Byte
    requires n < |v| && n % 4 != 0
  {
    if n % 4 == 1 then Byte1(v[n - 1], v[n]) else if n % 4 == 2 then Byte2(v[n - 1], v[n]) else Byte3(v[n - 1], v[n])
  }

  /** What sextet n adds: nothing at the start of a group, one byte after that. */
  function Gain(v: seq<Six>, n: nat): seq<Byte>
    requires n < |v|
  {
    if n % 4 == 0 then [] else [Completed(v, n)]
  }

  lemma GainShifts(v: seq<Six>, n: nat)
    requires 4 <= n < |v|
    ensures Gain(v, n) == Gain(v[4..], n - 4)
  {
    assert n % 4 == (n - 4) % 4;
    assert v[4..][n - 4] == v[n];
    assert n % 4 != 0 ==> v[4..][n - 5] == v[n - 1];
  }

  lemma BytesOfPrefix(v: seq<Six>, m: nat)
    requires 4 <= m <= |v|
    ensures Bytes(v[..m]) == [Byte1(v[0], v[1]), Byte2(v[1], v[2]), Byte3(v[2], v[3])] + Bytes(v[4..][..m - 4])
  {
    assert v[..m] == [v[0], v[1], v[2], v[3]] + v[4..][..m - 4];
    BytesOfFront(v[0], v[1], v[2], v[3], v[4..][..m - 4]);
  }

  lemma {:induction false} BytesExtend(v: seq<Six>, n: nat)
    requires n < |v|
    ensures Bytes(v[..n + 1]) == Bytes(v[..n]) + Gain(v, n)
    decreases n
  {
    if n >= 4 {
      BytesExtend(v[4..], n - 4);
      BytesOfPrefix(v, n + 1);
      BytesOfPrefix(v, n);
      GainShifts(v, n);
    } else {
      BytesExtendFirst(v, n);
    }
  }

  lemma BytesExtendFirst(v: seq<Six>, n: nat)
    requires n < |v| && n < 4
    ensures Bytes(v[..n + 1]) == Bytes(v[..n]) + Gain(v, n)
  {
    if n == 1 {
      assert v[..2] == [v[0], v[1]];
      ShortBytes(v[0], v[1], 0);
    } else if n == 2 {
      assert v[..2] == [v[0], v[1]] && v[..3] == [v[0], v[1], v[2]];
      ShortBytes(v[0], v[1], v[2]);
    } else if n == 3 {
      assert v[..3] == [v[0], v[1], v[2]] && v[..4] == [v[0], v[1], v[2], v[3]] + [];
      ShortBytes(v[0], v[1], v[2]);
      BytesOfFront(v[0], v[1], v[2], v[3], []);
    }
  }

  /** The accumulator after one more sextet, in 32-bit arithmetic. */
  function Shift(acc: nat, v: nat): nat {
    (acc * 64 + v) % 0x1_0000_0000
  }

  /** The low bits of the wrapped accumulator are those of the unwrapped one. */
  lemma Wrap64(x: nat)
    ensures x % 0x1_0000_0000 % 64 == x % 64
  {
  }

  lemma Wrap256(x: nat)
    ensures x % 0x1_0000_0000 % 256 == x % 256
  {
  }

  lemma Wrap1024(x: nat)
    ensures x % 0x1_0000_0000 % 1024 == x % 1024
  {
  }

  lemma Wrap4096(x: nat)
    ensures x % 0x1_0000_0000 % 4096 == x % 4096
  {
  }

  lemma Shift0(acc: nat, v: nat)
    requires v < 64
    ensures Shift(acc, v) % 64 == v
  {
    Wrap64(acc * 64 + v);
  }

  lemma Shift1(acc: nat, prev: nat, v: nat)
    requires acc % 64 == prev && v < 64
    ensures Shift(acc, v) % 16 == v % 16 && Shift(acc, v) / 16 % 256 == prev * 4 + v / 16
  {
    var k, r := acc / 64, prev * 64 + v;
    Rest4096(k, r);
    assert acc * 64 + v == k * 4096 + r;
    Wrap4096(acc * 64 + v);
    Split1(Shift(acc, v), prev, v);
  }

  lemma Rest4096(k: nat, r: nat)
    requires r < 4096
    ensures (k * 4096 + r) % 4096 == r
  {
  }

  lemma Split1(next: nat, prev: nat, v: nat)
    requires next % 4096 == prev * 64 + v && v < 64 && prev < 64
    ensures next % 16 == v % 16 && next / 16 % 256 == prev * 4 + v / 16
  {
    var j, h, l := next / 4096, v / 16, v % 16;
    var b := j * 256 + prev * 4 + h;
    assert next == b * 16 + l;
    assert next / 16 == b;
  }

  lemma Shift2(acc: nat, low: nat, v: nat)
    requires acc % 16 == low && v < 64
    ensures Shift(acc, v) % 4 == v % 4 && Shift(acc, v) / 4 % 256 == low * 16 + v / 4
  {
    var k, r := acc / 16, low * 64 + v;
    Rest1024(k, r);
    assert acc * 64 + v == k * 1024 + r;
    Wrap1024(acc * 64 + v);
    Split2(Shift(acc, v), low, v);
  }

  lemma Rest1024(k: nat, r: nat)
    requires r < 1024
    ensures (k * 1024 + r) % 1024 == r
  {
  }

  lemma Split2(next: nat, low: nat, v: nat)
    requires next % 1024 == low * 64 + v && v < 64 && low < 16
    ensures next % 4 == v % 4 && next / 4 % 256 == low * 16 + v / 4
  {
    var j, h, l := next / 1024, v / 4, v % 4;
    var b := j * 256 + low * 16 + h;
    assert next == b * 4 + l;
    assert next / 4 == b;
  }

  lemma Shift3(acc: nat, low: nat, v: nat)
    requires acc % 4 == low && v < 64
    ensures Shift(acc, v) % 256 == low * 64 + v
  {
    var k, r := acc / 4, low * 64 + v;
    Rest256(k, r);
    assert acc * 64 + v == k * 256 + r;
    Wrap256(acc * 64 + v);
  }

  lemma Rest256(k: nat, r: nat)
    requires r < 256
    ensures (k * 256 + r) % 256 == r
  {
  }

  /** One shift keeps the held bits right and brings the next byte, if the group has one here, to the top of them. */
  lemma Shifted(v: seq<Six>, n: nat, acc: nat)
    requires n < |v| && Holding(v, n, acc)
    ensures Holding(v, n + 1, Shift(acc, v[n] as int))
    ensures n % 4 != 0 ==> Shift(acc, v[n] as int) / Pow2(Held(n + 1)) % 256 == Completed(v, n) as int
  {
    var six := v[n] as int;
    if n % 4 == 0 {
      assert (n + 1) % 4 == 1;
      Shift0(acc, six);
    } else if n % 4 == 1 {
      assert (n + 1) % 4 == 2;
      Shift1(acc, v[n - 1] as int, six);
    } else if n % 4 == 2 {
      assert (n + 1) % 4 == 3;
      Shift2(acc, v[n - 1] as int % 16, six);
    } else {
      assert (n + 1) % 4 == 0;
      Shift3(acc, v[n - 1] as int % 4, six);
    }
  }

  lemma HeldNext(n: nat)
    ensures Held(n) + 6 >= 8 <==> n % 4 != 0
    ensures Held(n + 1) == if n % 4 != 0 then Held(n) - 2 else Held(n) + 6
  {
  }

  lemma LeftoverIs(v: seq<Six>, acc: nat)
    requires |v| % 4 != 1 && Holding(v, |v|, acc)
    ensures Leftover(v) == if Held(|v|) > 0 then acc % Pow2(Held(|v|)) else 0
  {
  }

  /** Everything one step of the decoder relies on. */
  lemma Step(v: seq<Six>, n: nat, acc: nat)
    requires n < |v| && Holding(v, n, acc)
    ensures Holding(v, n + 1, Shift(acc, v[n] as int))
    ensures Held(n) + 6 >= 8 <==> n % 4 != 0
    ensures Held(n + 1) == if n % 4 != 0 then Held(n) - 2 else Held(n) + 6
    ensures n % 4 == 0 ==> Bytes(v[..n + 1]) == Bytes(v[..n])
    ensures n % 4 != 0 ==> Shift(acc, v[n] as int) / Pow2(Held(n + 1)) % 256 == Completed(v, n) as int
                           && Bytes(v[..n + 1]) == Bytes(v[..n]) + [Completed(v, n)]
    ensures |Bytes(v[..n + 1])| <= |Bytes(v)|
  {
    Shifted(v, n, acc);
    HeldNext(n);
    BytesExtend(v, n);
    BytesGrow(v, n + 1);
  }

  lemma IllegalIsNone(text: string, i: nat)
    requires i < |text| && !Legal(text[i])
    ensures Decoded(text).None?
  {
  }

  lemma LegalIsDecoded(text: string, acc: nat)
    requires text != "" && |text| % 4 != 1 && AllLegal(text) && Holding(Values(text), |text|, acc)
    ensures var bits := Held(|text|);
            Decoded(text) == if bits > 0 && acc % Pow2(bits) != 0 then None else Some(Bytes(Values(text)))
  {
    LeftoverIs(Values(text), acc);
  }

  /** The decoder after i characters: all legal, the held bits in the accumulator, the whole bytes written. */
  ghost predicate Decoding(text: string, i: nat, acc: nat, bits: int, bytes: seq<Byte>)
    requires i <= |text|
  {
    && (forall k :: 0 <= k < i ==> Legal(text[k]))
    && bits == Held(i) && Holding(Values(text), i, acc) && bytes == Bytes(Values(text)[..i])
  }

  /** One more legal character: it completes a byte exactly when eight bits are held. */
  lemma DecodingStep(text: string, i: nat, acc: nat, bits: int, bytes: seq<Byte>)
    requires i < |text| && Decoding(text, i, acc, bits, bytes) && Legal(text[i])
    ensures var next := Shift(acc, Table(text[i]) as int);
            && (bits + 6 < 8 ==> Decoding(text, i + 1, next, bits + 6, bytes))
            && (bits + 6 >= 8 ==>
                  && Pow2(bits - 2) > 0
                  && Decoding(text, i + 1, next, bits - 2, bytes + [(next / Pow2(bits - 2) % 256) as Byte])
                  && |bytes| < |Bytes(Values(text))|)
  {
    Step(Values(text), i, acc);
  }

  lemma DecodingDone(text: string, acc: nat, bits: int, bytes: seq<Byte>)
    requires text != "" && |text| % 4 != 1 && Decoding(text, |text|, acc, bits, bytes)
    ensures Decoded(text) == if bits > 0 && acc % Pow2(bits) != 0 then None else Some(bytes)
  {
    assert Values(text)[..|text|] == Values(text);
    LegalIsDecoded(text, acc);
  }

  /** Writes the decoded bytes to the buffer: it accepts exactly the texts that stand for bytes that fit. */
  method Decode(text: string, out: array<Byte>) returns (ok: bool, produced: nat)
    modifies out
    ensures ok <==> Decoded(text).Some? && |Decoded(text).value| <= out.Length
    ensures ok ==> produced <= out.Length && out[..produced] == Decoded(text).value
  {
    ok, produced := false, 0;
    if |text| == 0 || |text| % 4 == 1 {
      return;
    }
    var acc: nat, bits: int := 0, 0;
    for i := 0 to |text|
      invariant produced <= out.Length && Decoding(text, i, acc, bits, out[..produced])
    {
      var c := text[i];
      if Table(c) == 0 && c != 'A' {
        IllegalIsNone(text, i);
        return;
      }
      DecodingStep(text, i, acc, bits, out[..produced]);
      acc := Shift(acc, Table(c) as int);
      bits := bits + 6;
      if bits >= 8 {
        bits := bits - 8;
        if produced >= out.Length {
          TooLong(text, out.Length);
          return;
        }
        ghost var done := out[..produced];
        out[produced] := (acc / Pow2(bits) % 256) as Byte;
        produced := produced + 1;
        assert out[..produced] == done + [out[produced - 1]];
      }
    }
    DecodingDone(text, acc, bits, out[..produced]);
    ok := !(bits > 0 && acc % Pow2(bits) != 0);
  }

  lemma TooLong(text: string, length: nat)
    requires |Bytes(Values(text))| > length
    ensures Decoded(text).None? || |Decoded(text).value| > length
  {
  }

  lemma {:induction false} BytesGrow(v: seq<Six>, n: nat)
    requires n <= |v|
    ensures |Bytes(v[..n])| <= |Bytes(v)|
    decreases |v| - n
  {
    if n < |v| {
      BytesExtend(v, n);
      BytesGrow(v, n + 1);
    } else {
      assert v[..n] == v;
    }
  }
}
