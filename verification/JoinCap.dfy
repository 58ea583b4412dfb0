/** The join capability's text: prefix, base64url payload of eight fields, last dot, base64url signature. */
module JoinCap {
  import opened Common
  import opened Base64Url
  import VisAuth

  const MAX_LEN := 1024
  const PAYLOAD_MAX := 512
  const MAC_LEN := 32
  const FIELDS := 8
  const PREFIX := "v1."

  // ---- Fields -------------------------------------------------------------------------------------------------------

  /** The stretches between bars: always one more than there are bars. */
  function Split(p: string): (fields: seq<string>)
    ensures fields != []
  {
    if p == "" then [""]
    else
      var before, c := Split(p[..|p| - 1]), p[|p| - 1];
      if c == '|' then before + [""] else before[..|before| - 1] + [before[|before| - 1] + [c]]
  }

  function Join(fields: seq<string>): string
    requires fields != []
  {
    if |fields| == 1 then fields[0] else Join(fields[..|fields| - 1]) + "|" + fields[|fields| - 1]
  }

  function Bars(p: string): nat {
    if p == "" then 0 else Bars(p[..|p| - 1]) + if p[|p| - 1] == '|' then 1 else 0
  }

  ghost predicate NoBars(fields: seq<string>) {
    forall i :: 0 <= i < |fields| ==> '|' !in fields[i]
  }

  lemma JoinEnd(fields: seq<string>, last: string)
    requires fields != []
    ensures Join(fields + [last]) == Join(fields) + "|" + last
  {
    assert (fields + [last])[..|fields|] == fields;
  }

  lemma JoinLonger(fields: seq<string>, last: string, c: char)
    ensures Join(fields + [last + [c]]) == Join(fields + [last]) + [c]
  {
    if fields == [] {
      assert fields + [last + [c]] == [last + [c]] && fields + [last] == [last];
    } else {
      JoinEnd(fields, last + [c]);
      JoinEnd(fields, last);
    }
  }

  /** Joining the fields restores the payload, no field holds a bar, and there is one field more than bars. */
  lemma {:induction false} JoinOfSplit(p: string)
    ensures Join(Split(p)) == p && NoBars(Split(p)) && |Split(p)| == Bars(p) + 1
  {
    if p != "" {
      var front, c := p[..|p| - 1], p[|p| - 1];
      JoinOfSplit(front);
      var before := Split(front);
      assert p == front + [c];
      if c == '|' {
        JoinEnd(before, "");
      } else {
        JoinLonger(before[..|before| - 1], before[|before| - 1], c);
        assert before == before[..|before| - 1] + [before[|before| - 1]];
      }
    }
  }

  lemma {:induction false} SplitAfterBar(a: string, b: string)
    requires '|' !in b
    ensures Split(a + "|" + b) == Split(a) + [b]
  {
    var p := a + "|" + b;
    if b == "" {
      assert p[..|p| - 1] == a;
    } else {
      var n := |b| - 1;
      SplitAfterBar(a, b[..n]);
      assert p[..|p| - 1] == a + "|" + b[..n];
      assert b == b[..n] + [b[n]];
    }
  }

  lemma {:induction false} SplitWithoutBar(b: string)
    requires '|' !in b
    ensures Split(b) == [b]
  {
    if b != "" {
      var n := |b| - 1;
      SplitWithoutBar(b[..n]);
      assert b == b[..n] + [b[n]];
    }
  }

  /** Fields without bars come back as they were joined. */
  lemma {:induction false} SplitOfJoin(fields: seq<string>)
    requires fields != [] && NoBars(fields)
    ensures Split(Join(fields)) == fields
  {
    var n := |fields| - 1;
    if n == 0 {
      SplitWithoutBar(fields[0]);
    } else {
      var front := fields[..n];
      assert fields == front + [fields[n]];
      SplitOfJoin(front);
      SplitAfterBar(Join(front), fields[n]);
    }
  }

  lemma {:induction false} SplitGrows(p: string, i: nat)
    requires i <= |p|
    ensures |Split(p[..i])| <= |Split(p)|
    decreases |p| - i
  {
    if i < |p| {
      assert p[..i + 1][..i] == p[..i];
      SplitGrows(p, i + 1);
    } else {
      assert p[..i] == p;
    }
  }

  lemma SplitNext(p: string, i: nat, fields: seq<string>, start: nat)
    requires start <= i < |p| && fields + [p[start..i]] == Split(p[..i])
    ensures p[i] == '|' ==> Split(p[..i + 1]) == fields + [p[start..i]] + [p[i + 1..i + 1]]
    ensures p[i] != '|' ==> Split(p[..i + 1]) == fields + [p[start..i + 1]]
  {
    var q, before := p[..i + 1], fields + [p[start..i]];
    assert q[..i] == p[..i];
    assert before[..|before| - 1] == fields;
    assert p[start..i + 1] == p[start..i] + [p[i]] && p[i + 1..i + 1] == "";
  }

  /** The scan up to i: the fields ended so far and the one begun at start. */
  ghost predicate Scanned(p: string, i: nat, fields: seq<string>, start: nat) {
    if i <= |p| then start <= i && fields + [p[start..i]] == Split(p[..i]) else fields == Split(p)
  }

  /** Exactly eight fields, or none: the scan stops at the ninth. */
  method SplitFields(p: string) returns (r: Option<seq<string>>)
    ensures r == if |Split(p)| == FIELDS then Some(Split(p)) else None
  {
    var fields: seq<string> := [];
    var start, i := 0, 0;
    while i <= |p|
      invariant Scanned(p, i, fields, start)
      invariant i <= |p| + 1 && |fields| <= FIELDS
    {
      if i < |p| {
        SplitNext(p, i, fields, start);
      } else {
        assert p[..i] == p;
      }
      if i == |p| || p[i] == '|' {
        SplitGrows(p, i);
        if |fields| >= FIELDS {
          return None;
        }
        fields := fields + [p[start..i]];
        start := i + 1;
      }
      i := i + 1;
    }
    return if |fields| == FIELDS then Some(fields) else None;
  }

  // ---- The capability -----------------------------------------------------------------------------------------------

  datatype Cap = Cap(agent: string, session: string, room: int, epoch: nat, generation: nat, iat: int, exp: int,
    nonce: string)

  function IdField(s: string): Option<string> {
    if 0 < |s| < UUID_LEN then Some(s) else None
  }

  /** A whole field as a 64-bit integer, by the C library's reading of it. */
  function IntField(toInt: string -> Option<int>, s: string): Option<int> {
    if 0 < |s| < 32 then toInt(s) else None
  }

  /** Zero is legal here: no authority epoch. */
  function HexField(s: string): Option<nat> {
    if |s| == 16 && VisAuth.AllHex(s) then Some(VisAuth.HexValue(s)) else None
  }

  function CapOf(f: seq<string>, toInt: string -> Option<int>): Option<Cap>
    requires |f| == FIELDS
  {
    var agent, session, nonce := IdField(f[0]), IdField(f[1]), IdField(f[7]);
    var room, gen, iat, exp := IntField(toInt, f[2]), IntField(toInt, f[4]), IntField(toInt, f[5]),
      IntField(toInt, f[6]);
    var epoch := HexField(f[3]);
    if agent.None? || session.None? || room.None? || epoch.None? || gen.None? || iat.None? || exp.None?
      || nonce.None? then None
    else if room.value <= 0 || gen.value < 0 || gen.value > 0xFFFF_FFFF || iat.value <= 0 || exp.value <= 0
      || exp.value < iat.value then None
    else Some(Cap(agent.value, session.value, room.value, epoch.value, gen.value, iat.value, exp.value, nonce.value))
  }

  datatype Parsed = Malformed | BadSignature | Accepted(cap: Cap)

  /** The index of the last dot, or -1. */
  function LastDot(text: string): (i: int)
    ensures -1 <= i < |text| && (i >= 0 ==> text[i] == '.')
    ensures forall k :: i < k < |text| ==> text[k] != '.'
  {
    if text == "" then -1 else if text[|text| - 1] == '.' then |text| - 1 else LastDot(text[..|text| - 1])
  }

  function Chars(bytes: seq<Byte>): (s: string)
    ensures |s| == |bytes| && forall i :: 0 <= i < |s| ==> s[i] == bytes[i] as char
  {
    seq(|bytes|, i requires 0 <= i < |bytes| => bytes[i] as char)
  }

  /** The text as prefix, payload and signature. */
  function PayloadText(text: string): string
    requires LastDot(text) > |PREFIX|
  {
    text[|PREFIX|..LastDot(text)]
  }

  function MacText(text: string): string {
    text[LastDot(text) + 1..]
  }

  predicate Framed(text: string) {
    0 < |text| <= MAX_LEN && PREFIX <= text && LastDot(text) > |PREFIX|
  }

  /** What a text says, for a signature function of the text before the last dot. */
  ghost function Parse(text: string, mac: string -> seq<Byte>, toInt: string -> Option<int>): Parsed {
    if !Framed(text) then Malformed
    else ParseParts(mac(text[..LastDot(text)]), Decoded(MacText(text)), Decoded(PayloadText(text)), toInt)
  }

  /** The signature is judged before the payload is looked at. */
  function ParseParts(want: seq<Byte>, given: Option<seq<Byte>>, payload: Option<seq<Byte>>,
                      toInt: string -> Option<int>): Parsed {
    if given.None? || |given.value| != MAC_LEN then Malformed
    else if given.value != want then BadSignature
    else PayloadParsed(payload, toInt)
  }

  function PayloadParsed(payload: Option<seq<Byte>>, toInt: string -> Option<int>): Parsed {
    if payload.None? || |payload.value| > PAYLOAD_MAX - 1 || 0 in payload.value then Malformed
    else
      var fields := Split(Chars(payload.value));
      if |fields| != FIELDS then Malformed
      else
        var cap := CapOf(fields, toInt);
        if cap.None? then Malformed else Accepted(cap.value)
  }

  method ParseText(text: string, mac: string -> seq<Byte>, toInt: string -> Option<int>) returns (r: Parsed)
    ensures r == Parse(text, mac, toInt)
  {
    if |text| == 0 || |text| > MAX_LEN || !(PREFIX <= text) {
      return Malformed;
    }
    var lastDot := LastDot(text);
    if lastDot <= |PREFIX| {
      return Malformed;
    }
    var macGiven := new Byte[MAC_LEN](_ => 0);
    var ok, n := Decode(MacText(text), macGiven);
    if !ok || n != MAC_LEN {
      return Malformed;
    }
    assert macGiven[..n] == macGiven[..];
    if macGiven[..] != mac(text[..lastDot]) {
      return BadSignature;
    }
    r := ParsePayload(PayloadText(text), toInt);
  }

  method ParsePayload(text: string, toInt: string -> Option<int>) returns (r: Parsed)
    ensures r == PayloadParsed(Decoded(text), toInt)
  {
    var payload := new Byte[PAYLOAD_MAX - 1](_ => 0);
    var ok, n := Decode(text, payload);
    if !ok {
      return Malformed;
    }
    var bytes := payload[..n];
    if 0 in bytes {
      return Malformed;
    }
    var fields := SplitFields(Chars(bytes));
    if fields.None? {
      return Malformed;
    }
    var cap := CapOf(fields.value, toInt);
    return if cap.None? then Malformed else Accepted(cap.value);
  }

  /** A signed payload has one accepted text: neither half can be respelled. */
  lemma OneTextPerPayload(a: string, b: string, mac: string -> seq<Byte>, toInt: string -> Option<int>)
    requires Parse(a, mac, toInt).Accepted? && Parse(b, mac, toInt).Accepted?
    requires Decoded(PayloadText(a)) == Decoded(PayloadText(b))
    ensures a == b
  {
    DecodeIsInjective(PayloadText(a), PayloadText(b));
    Reassembled(a);
    Reassembled(b);
    assert a[..LastDot(a)] == b[..LastDot(b)];
    DecodeIsInjective(MacText(a), MacText(b));
  }

  lemma Reassembled(text: string)
    requires Framed(text)
    ensures text[..LastDot(text)] == PREFIX + PayloadText(text)
    ensures text == PREFIX + PayloadText(text) + "." + MacText(text)
  {
  }

  /** Every payload an issuer writes parses back to what it wrote: eight fields, encoded, framed and signed. */
  lemma SignedTextParses(fields: seq<string>, payload: seq<Byte>, mac: string -> seq<Byte>,
                         toInt: string -> Option<int>)
    requires |fields| == FIELDS && NoBars(fields) && Chars(payload) == Join(fields) && 0 !in payload
    requires |payload| <= PAYLOAD_MAX - 1 && |mac(PREFIX + Encode(payload))| == MAC_LEN && CapOf(fields, toInt).Some?
    requires |PREFIX + Encode(payload)| + 1 + |Encode(mac(PREFIX + Encode(payload)))| <= MAX_LEN
    ensures var signing := PREFIX + Encode(payload);
            Parse(signing + "." + Encode(mac(signing)), mac, toInt) == Accepted(CapOf(fields, toInt).value)
  {
    var signing := PREFIX + Encode(payload);
    SplitOfJoin(fields);
    PayloadHasFields(fields, payload);
    DecodeOfEncode(payload);
    DecodeOfEncode(mac(signing));
    NoDotInEncoding(mac(signing));
    FramedText(Encode(payload), Encode(mac(signing)));
  }

  lemma PayloadHasFields(fields: seq<string>, payload: seq<Byte>)
    requires |fields| > 1 && Chars(payload) == Join(fields)
    ensures payload != []
  {
    assert |Join(fields)| > 0;
  }

  lemma FramedText(payload: string, tail: string)
    requires payload != "" && '.' !in tail && |PREFIX + payload| + 1 + |tail| <= MAX_LEN
    ensures var text := PREFIX + payload + "." + tail;
            Framed(text) && PayloadText(text) == payload && MacText(text) == tail
              && text[..LastDot(text)] == PREFIX + payload
  {
    var signing := PREFIX + payload;
    var text := signing + "." + tail;
    assert text[|signing|] == '.' && text[|signing| + 1..] == tail;
    forall k | |signing| < k < |text| ensures text[k] != '.' {
      assert text[k] == tail[k - |signing| - 1];
    }
    assert LastDot(text) == |signing|;
    assert text[..|signing|] == signing;
  }

  lemma NoDotInEncoding(bytes: seq<Byte>)
    ensures '.' !in Encode(bytes)
  {
    forall i | 0 <= i < |Encode(bytes)| ensures Encode(bytes)[i] != '.' {
      assert Legal(Encode(bytes)[i]);
    }
  }

  // ---- What an accepted text says -----------------------------------------------------------------------------------

  /** The eight fields, in the design's order, are those of this capability, and it is within its bounds. */
  ghost predicate FieldsSay(f: seq<string>, c: Cap, toInt: string -> Option<int>) {
    && |f| == 8 && (forall i :: 0 <= i < 8 ==> 0 < |f[i]| < UUID_LEN)
    && f[0] == c.agent && f[1] == c.session && f[7] == c.nonce
    && |f[2]| < 32 && toInt(f[2]) == Some(c.room) && 0 < c.room
    && |f[3]| == 16 && VisAuth.AllHex(f[3]) && VisAuth.HexValue(f[3]) == c.epoch
    && |f[4]| < 32 && toInt(f[4]) == Some(c.generation as int) && c.generation < 0x1_0000_0000
    && |f[5]| < 32 && toInt(f[5]) == Some(c.iat) && |f[6]| < 32 && toInt(f[6]) == Some(c.exp)
    && 0 < c.iat <= c.exp
  }

  lemma FieldsExactly(f: seq<string>, c: Cap, toInt: string -> Option<int>)
    requires |f| == FIELDS
    ensures CapOf(f, toInt) == Some(c) <==> FieldsSay(f, c, toInt)
  {
  }

  /** The text is the prefix, this payload and this signature; the signature is that of what precedes it, and the
      payload holds the capability's fields between bars. */
  ghost predicate Spells(text: string, body: string, tail: string, f: seq<string>, c: Cap, mac: string -> seq<Byte>,
                         toInt: string -> Option<int>) {
    && text == "v1." + body + "." + tail && body != "" && '.' !in tail && |text| <= 1024
    && Decoded(tail) == Some(mac("v1." + body)) && |mac("v1." + body)| == 32
    && Decoded(body).Some? && |Decoded(body).value| <= 511 && 0 !in Decoded(body).value
    && FieldsSay(f, c, toInt) && NoBars(f) && Chars(Decoded(body).value) == Join(f)
  }

  lemma AcceptedSpells(text: string, c: Cap, mac: string -> seq<Byte>, toInt: string -> Option<int>)
    requires Parse(text, mac, toInt) == Accepted(c)
    ensures Spells(text, PayloadText(text), MacText(text), Split(Chars(Decoded(PayloadText(text)).value)), c, mac,
                   toInt)
  {
    Reassembled(text);
    NoDotInTail(text);
    var p := Chars(Decoded(PayloadText(text)).value);
    JoinOfSplit(p);
    FieldsExactly(Split(p), c, toInt);
  }

  lemma NoDotInTail(text: string)
    ensures '.' !in MacText(text)
  {
    forall k | 0 <= k < |MacText(text)| ensures MacText(text)[k] != '.' {
      assert MacText(text)[k] == text[LastDot(text) + 1 + k];
    }
  }

  lemma SpelledIsAccepted(text: string, body: string, tail: string, f: seq<string>, c: Cap, mac: string -> seq<Byte>,
                          toInt: string -> Option<int>)
    requires Spells(text, body, tail, f, c, mac, toInt)
    ensures Parse(text, mac, toInt) == Accepted(c)
  {
    FramedText(body, tail);
    SplitOfJoin(f);
    FieldsExactly(f, c, toInt);
  }

  /** A text is accepted for a capability if and only if it spells it. */
  lemma AcceptedExactly(text: string, c: Cap, mac: string -> seq<Byte>, toInt: string -> Option<int>)
    ensures Parse(text, mac, toInt) == Accepted(c) <==>
              exists body: string, tail: string, f: seq<string> :: Spells(text, body, tail, f, c, mac, toInt)
  {
    if Parse(text, mac, toInt) == Accepted(c) {
      AcceptedSpells(text, c, mac, toInt);
    }
    forall body: string, tail: string, f: seq<string> | Spells(text, body, tail, f, c, mac, toInt)
      ensures Parse(text, mac, toInt) == Accepted(c)
    {
      SpelledIsAccepted(text, body, tail, f, c, mac, toInt);
    }
  }

  // ---- Minting and parsing ------------------------------------------------------------------------------------------

  const MAX_I64 := 0x7FFF_FFFF_FFFF_FFFF

  /** Single-byte characters, none of them NUL. */
  ghost predicate SingleBytes(s: string) {
    forall i :: 0 <= i < |s| ==> 0 < s[i] as int < 256
  }

  /** A printer and the reader agree on every number a capability may carry. */
  ghost predicate Prints(show: int -> string, toInt: string -> Option<int>) {
    forall n :: 0 <= n <= MAX_I64 ==>
      0 < |show(n)| < 32 && SingleBytes(show(n)) && '|' !in show(n) && toInt(show(n)) == Some(n)
  }

  ghost predicate GoodId(s: string) {
    0 < |s| < UUID_LEN && SingleBytes(s) && '|' !in s
  }

  /** A capability an issuer may write. */
  ghost predicate Mintable(c: Cap) {
    && GoodId(c.agent) && GoodId(c.session) && GoodId(c.nonce)
    && 0 < c.room <= MAX_I64 && c.epoch < VisAuth.Pow16(16) && c.generation <= 0xFFFF_FFFF
      && 0 < c.iat <= c.exp <= MAX_I64
  }

  /** The payload's fields in the order the design gives them. */
  function FieldsOf(c: Cap, show: int -> string): seq<string> {
    [c.agent, c.session, show(c.room), VisAuth.FormatEpoch(c.epoch), show(c.generation), show(c.iat), show(c.exp),
      c.nonce]
  }

  function BytesOf(s: string): (b: seq<Byte>)
    requires SingleBytes(s)
    ensures Chars(b) == s && 0 !in b
  {
    seq(|s|, i requires 0 <= i < |s| => (s[i] as int) as Byte)
  }

  /** The signed text of some fields. */
  function Minted(fields: seq<string>, mac: string -> seq<Byte>): string
    requires fields != [] && SingleBytes(Join(fields))
  {
    var signing := PREFIX + Encode(BytesOf(Join(fields)));
    signing + "." + Encode(mac(signing))
  }

  /** A capability's text, as its issuer mints it. */
  ghost function Mint(c: Cap, show: int -> string, mac: string -> seq<Byte>, toInt: string -> Option<int>): string
    requires Mintable(c) && Prints(show, toInt)
  {
    FieldsAreGood(c, show, toInt);
    JoinFits(FieldsOf(c, show));
    Minted(FieldsOf(c, show), mac)
  }

  lemma FieldsAreGood(c: Cap, show: int -> string, toInt: string -> Option<int>)
    requires Mintable(c) && Prints(show, toInt)
    ensures forall i :: 0 <= i < FIELDS ==> GoodId(FieldsOf(c, show)[i])
    ensures CapOf(FieldsOf(c, show), toInt) == Some(c)
  {
    var e := VisAuth.FormatEpoch(c.epoch);
    VisAuth.HexTextValue(c.epoch, 16);
    HexIsGood(e);
    assert GoodId(show(c.room)) && GoodId(show(c.generation)) && GoodId(show(c.iat)) && GoodId(show(c.exp));
    assert IntField(toInt, show(c.room)) == Some(c.room) && IntField(toInt, show(c.generation)) == Some(c.generation);
    assert IntField(toInt, show(c.iat)) == Some(c.iat) && IntField(toInt, show(c.exp)) == Some(c.exp);
    assert HexField(e) == Some(c.epoch);
    CapOfGood(c.agent, c.session, show(c.room), e, show(c.generation), show(c.iat), show(c.exp), c.nonce, toInt, c);
  }

  lemma CapOfGood(agent: string, session: string, room: string, epoch: string, gen: string, iat: string, exp: string,
                  nonce: string,
                  toInt: string -> Option<int>, c: Cap)
    requires IdField(agent) == Some(c.agent) && IdField(session) == Some(c.session) && IdField(nonce) == Some(c.nonce)
    requires IntField(toInt, room) == Some(c.room) && IntField(toInt, gen) == Some(c.generation)
    requires IntField(toInt, iat) == Some(c.iat) && IntField(toInt, exp) == Some(c.exp)
        && HexField(epoch) == Some(c.epoch)
    requires 0 < c.room && c.generation <= 0xFFFF_FFFF && 0 < c.iat <= c.exp
    ensures CapOf([agent, session, room, epoch, gen, iat, exp, nonce], toInt) == Some(c)
  {
  }

  lemma HexIsGood(e: string)
    requires |e| == 16 && VisAuth.AllHex(e)
    ensures GoodId(e)
  {
  }

  lemma {:induction false} JoinFits(fields: seq<string>)
    requires fields != [] && forall i :: 0 <= i < |fields| ==> GoodId(fields[i])
    ensures SingleBytes(Join(fields)) && |Join(fields)| < UUID_LEN * |fields|
  {
    var n := |fields| - 1;
    assert GoodId(fields[n]);
    if n > 0 {
      JoinFits(fields[..n]);
    }
  }

  lemma {:induction false} EncodingLength(bytes: seq<Byte>)
    ensures |Encode(bytes)| <= 2 * |bytes|
  {
    if |bytes| >= 3 {
      EncodingLength(bytes[3..]);
    }
  }

  /** Whatever an issuer mints parses back to the very capability it wrote. */
  lemma MintedCapParses(c: Cap, show: int -> string, mac: string -> seq<Byte>, toInt: string -> Option<int>)
    requires Mintable(c) && Prints(show, toInt) && forall s :: |mac(s)| == MAC_LEN
    ensures Parse(Mint(c, show, mac, toInt), mac, toInt) == Accepted(c)
  {
    var fields := FieldsOf(c, show);
    FieldsAreGood(c, show, toInt);
    JoinFits(fields);
    var payload := BytesOf(Join(fields));
    EncodingLength(payload);
    EncodingLength(mac(PREFIX + Encode(payload)));
    assert NoBars(fields) by { assert forall i :: 0 <= i < FIELDS ==> GoodId(fields[i]); }
    SignedTextParses(fields, payload, mac, toInt);
  }

  // ---- The check ----------------------------------------------------------------------------------------------------

  datatype Verdict =
    | Ok | Missing | WrongAgent | WrongSession | WrongRoom | Expired
    | BadNonce | Replayed | StoreFull | StaleGeneration

  const SKEW_S := 120

  function Check(c: Cap, display: Option<string>, session: Option<string>, room: int, now: int): Verdict {
    if display != Some(c.agent) then WrongAgent
    else if session != Some(c.session) then WrongSession
    else if c.room != room then WrongRoom
    else if now > c.exp + SKEW_S || now < c.iat - SKEW_S then Expired
    else Ok
  }

  /** Only a non-zero epoch below the adopted one proves that the issuing authority is gone. */
  function Generation(c: Cap, authEpoch: nat): Verdict {
    if c.epoch != 0 && c.epoch < authEpoch then StaleGeneration else Ok
  }
}
