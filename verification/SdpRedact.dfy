/** Redaction of ICE credentials and DTLS fingerprints from an SDP: one pass used both to measure and to write. */
module SdpRedact {
  import opened Common

  const UFRAG := "a=ice-ufrag:"
  const PWD := "a=ice-pwd:"
  const FINGERPRINT := "a=fingerprint:"
  const REDACTED := "<redacted>"

  predicate IsBreak(c: char) {
    c == '\r' || c == '\n'
  }

  ghost predicate NoBreaks(s: string) {
    forall i :: 0 <= i < |s| ==> !IsBreak(s[i])
  }

  ghost predicate AllBreaks(s: string) {
    forall i :: 0 <= i < |s| ==> IsBreak(s[i])
  }

  /** The first break from i on, or the end. */
  function LineEnd(s: string, i: nat): (e: nat)
    requires i <= |s|
    ensures i <= e <= |s|
    decreases |s| - i
  {
    if i == |s| || IsBreak(s[i]) then i else LineEnd(s, i + 1)
  }

  /** The first character from i on that is no break, or the end. */
  function BreakEnd(s: string, i: nat): (b: nat)
    requires i <= |s|
    ensures i <= b <= |s|
    decreases |s| - i
  {
    if i == |s| || !IsBreak(s[i]) then i else BreakEnd(s, i + 1)
  }

  ghost predicate IsLineEnd(s: string, i: nat, e: nat) {
    i <= e <= |s| && (e < |s| ==> IsBreak(s[e])) && forall k :: i <= k < e ==> !IsBreak(s[k])
  }

  ghost predicate IsBreakEnd(s: string, i: nat, b: nat) {
    i <= b <= |s| && (b < |s| ==> !IsBreak(s[b])) && forall k :: i <= k < b ==> IsBreak(s[k])
  }

  lemma {:induction false} LineEndIs(s: string, i: nat, e: nat)
    requires i <= |s|
    ensures IsLineEnd(s, i, e) <==> LineEnd(s, i) == e
    decreases |s| - i
  {
    if i < |s| && !IsBreak(s[i]) {
      LineEndIs(s, i + 1, e);
    }
  }

  lemma {:induction false} BreakEndIs(s: string, i: nat, b: nat)
    requires i <= |s|
    ensures IsBreakEnd(s, i, b) <==> BreakEnd(s, i) == b
    decreases |s| - i
  {
    if i < |s| && IsBreak(s[i]) {
      BreakEndIs(s, i + 1, b);
    }
  }

  function SpaceFrom(line: string, i: nat): (q: nat)
    requires i <= |line|
    ensures i <= q <= |line| && (q < |line| ==> line[q] == ' ')
    ensures forall k :: i <= k < q ==> line[k] != ' '
    decreases |line| - i
  {
    if i == |line| || line[i] == ' ' then i else SpaceFrom(line, i + 1)
  }

  /** How much of a line is kept in front of a secret; 0 for a line without one. A fingerprint keeps its hash name. */
  function Keep(line: string): (k: nat)
    ensures k <= |line|
  {
    if UFRAG <= line then |UFRAG|
    else if PWD <= line then |PWD|
    else if FINGERPRINT <= line then
      var q := SpaceFrom(line, |FINGERPRINT|);
      if q < |line| then q + 1 else |FINGERPRINT|
    else 0
  }

  function RedactLine(line: string): string {
    if Keep(line) > 0 then line[..Keep(line)] + REDACTED else line
  }

  /** A text as its lines, each with the breaks after it. */
  datatype Piece = Piece(line: string, breaks: string)

  function FirstPiece(s: string): (p: Piece)
    ensures s != "" ==> |p.line| + |p.breaks| > 0
    ensures |p.line| + |p.breaks| <= |s|
  {
    var e := LineEnd(s, 0);
    var b := BreakEnd(s, e);
    Piece(s[..e], s[e..b])
  }

  function Pieces(s: string): seq<Piece>
    decreases |s|
  {
    if s == "" then []
    else
      var p := FirstPiece(s);
      [p] + Pieces(s[|p.line| + |p.breaks|..])
  }

  function Whole(ps: seq<Piece>): string {
    if ps == [] then "" else ps[0].line + ps[0].breaks + Whole(ps[1..])
  }

  /** Each line replaced and every break kept. */
  function MapAll(ps: seq<Piece>, f: string -> string): seq<Piece> {
    if ps == [] then [] else [Piece(f(ps[0].line), ps[0].breaks)] + MapAll(ps[1..], f)
  }

  function Redact(s: string): string {
    Whole(MapAll(Pieces(s), RedactLine))
  }

  // ---- The pass -----------------------------------------------------------------------------------------------------

  /** The kept length of the line that starts at p. */
  method KeepAt(sdp: string, p: nat) returns (keep: nat)
    requires p < |sdp|
    ensures keep == Keep(sdp[p..LineEnd(sdp, p)])
  {
    ghost var line := sdp[p..LineEnd(sdp, p)];
    LineEndIs(sdp, p, LineEnd(sdp, p));
    PrefixOfLine(sdp, p, UFRAG);
    PrefixOfLine(sdp, p, PWD);
    PrefixOfLine(sdp, p, FINGERPRINT);
    var prefixes := [UFRAG, PWD, FINGERPRINT];
    for i := 0 to 3
      invariant forall j :: 0 <= j < i ==> !(prefixes[j] <= line)
    {
      var prefix := prefixes[i];
      if prefix <= sdp[p..] {
        keep := |prefix|;
        if i == 2 {
          var q := p + |prefix|;
          while q < |sdp| && sdp[q] != ' ' && !IsBreak(sdp[q])
            invariant p + |prefix| <= q <= p + |line|
            invariant SpaceFrom(line, |prefix|) == SpaceFrom(line, q - p)
          {
            assert line[q - p] == sdp[q];
            q := q + 1;
          }
          if q < |sdp| && sdp[q] == ' ' {
            keep := q - p + 1;
          }
        }
        return;
      }
    }
    assert !(prefixes[0] <= line) && !(prefixes[1] <= line) && !(prefixes[2] <= line);
    keep := 0;
  }

  /** No prefix holds a break, so it is one of the line as it is of the rest of the text. */
  lemma PrefixOfLine(sdp: string, p: nat, prefix: string)
    requires p <= |sdp| && (prefix == UFRAG || prefix == PWD || prefix == FINGERPRINT)
    ensures prefix <= sdp[p..] <==> prefix <= sdp[p..LineEnd(sdp, p)]
  {
    var e := LineEnd(sdp, p);
    LineEndIs(sdp, p, e);
    assert NoBreaks(prefix);
    if prefix <= sdp[p..] {
      forall k | p <= k < p + |prefix| ensures !IsBreak(sdp[k]) {
        assert sdp[k] == sdp[p..][k - p] == prefix[k - p];
      }
    }
  }

  /** The end of the line that starts at p. */
  method ScanLine(sdp: string, p: nat) returns (eol: nat)
    requires p < |sdp|
    ensures eol == LineEnd(sdp, p)
  {
    eol := p;
    while eol < |sdp| && !IsBreak(sdp[eol])
      invariant p <= eol <= |sdp| && forall i :: p <= i < eol ==> !IsBreak(sdp[i])
    {
      eol := eol + 1;
    }
    LineEndIs(sdp, p, eol);
  }

  /** The end of the breaks that start at eol. */
  method ScanBreaks(sdp: string, eol: nat) returns (brk: nat)
    requires eol <= |sdp|
    ensures brk == BreakEnd(sdp, eol)
  {
    brk := eol;
    while brk < |sdp| && IsBreak(sdp[brk])
      invariant eol <= brk <= |sdp| && forall i :: eol <= i < brk ==> IsBreak(sdp[i])
    {
      brk := brk + 1;
    }
    BreakEndIs(sdp, eol, brk);
  }

  lemma {:induction false} LineEndShift(sdp: string, p: nat, i: nat)
    requires p <= i <= |sdp|
    ensures LineEnd(sdp[p..], i - p) == LineEnd(sdp, i) - p
    decreases |sdp| - i
  {
    if i < |sdp| && !IsBreak(sdp[i]) {
      LineEndShift(sdp, p, i + 1);
    }
  }

  lemma {:induction false} BreakEndShift(sdp: string, p: nat, i: nat)
    requires p <= i <= |sdp|
    ensures BreakEnd(sdp[p..], i - p) == BreakEnd(sdp, i) - p
    decreases |sdp| - i
  {
    if i < |sdp| && IsBreak(sdp[i]) {
      BreakEndShift(sdp, p, i + 1);
    }
  }

  /** The first piece of a text, seen from inside a longer one. */
  lemma FirstPieceAt(sdp: string, p: nat, eol: nat, brk: nat)
    requires p < |sdp| && eol == LineEnd(sdp, p) && brk == BreakEnd(sdp, eol)
    ensures FirstPiece(sdp[p..]) == Piece(sdp[p..eol], sdp[eol..brk])
  {
    LineEndShift(sdp, p, p);
    BreakEndShift(sdp, p, eol);
    var rest := sdp[p..];
    assert rest[..eol - p] == sdp[p..eol];
    assert rest[eol - p..brk - p] == sdp[eol..brk];
  }

  lemma PiecesOfFront(p: Piece, rest: string)
    requires p.line + p.breaks + rest != "" && FirstPiece(p.line + p.breaks + rest) == p
    ensures Pieces(p.line + p.breaks + rest) == [p] + Pieces(rest)
  {
    assert (p.line + p.breaks + rest)[|p.line| + |p.breaks|..] == rest;
  }

  /** The text from p on is one piece and the text from brk on. */
  lemma PieceAt(sdp: string, p: nat, eol: nat, brk: nat)
    requires p < |sdp| && eol == LineEnd(sdp, p) && brk == BreakEnd(sdp, eol)
    ensures p < brk && Pieces(sdp[p..]) == [Piece(sdp[p..eol], sdp[eol..brk])] + Pieces(sdp[brk..])
  {
    FirstPieceAt(sdp, p, eol, brk);
    FrontOf(sdp, p, eol, brk);
    PiecesOfFront(Piece(sdp[p..eol], sdp[eol..brk]), sdp[brk..]);
  }

  lemma FrontOf(sdp: string, p: nat, eol: nat, brk: nat)
    requires p < |sdp| && p <= eol <= brk <= |sdp| && FirstPiece(sdp[p..]) == Piece(sdp[p..eol], sdp[eol..brk])
    ensures p < brk && sdp[p..] == sdp[p..eol] + sdp[eol..brk] + sdp[brk..]
  {
    assert |FirstPiece(sdp[p..]).line| + |FirstPiece(sdp[p..]).breaks| > 0;
  }

  lemma WholeOfFront(p: Piece, ps: seq<Piece>, f: string -> string)
    ensures Whole(MapAll([p] + ps, f)) == f(p.line) + p.breaks + Whole(MapAll(ps, f))
  {
    assert ([p] + ps)[1..] == ps;
    var q := Piece(f(p.line), p.breaks);
    assert ([q] + MapAll(ps, f))[1..] == MapAll(ps, f);
  }

  /** What is written for the line from p to eol. */
  method LinePiece(sdp: string, p: nat, eol: nat) returns (piece: string)
    requires p < |sdp| && eol == LineEnd(sdp, p)
    ensures piece == RedactLine(sdp[p..eol])
  {
    var keep := KeepAt(sdp, p);
    piece := if keep > 0 then sdp[p..p + keep] + REDACTED else sdp[p..eol];
    assert sdp[p..p + keep] == sdp[p..eol][..keep];
  }

  /** Writes a line and its breaks, if there is a buffer, and counts them either way. */
  method WriteLine(out: array?<char>, at: nat, ghost done: string, piece: string, breaks: string) returns (n: nat)
    requires at == |done|
    requires out != null ==> at + |piece| + |breaks| <= out.Length && out[..at] == done
    modifies out
    ensures n == |done + piece + breaks|
    ensures out != null ==> out[..n] == done + piece + breaks
  {
    if out != null {
      CopyAt(out, at, piece);
      CopyAt(out, at + |piece|, breaks);
    }
    n := at + |piece| + |breaks|;
  }

  /** Without a buffer it only measures; with one it writes exactly what it measures. */
  method RedactInto(sdp: string, out: array?<char>) returns (n: nat)
    requires out != null ==> out.Length > |Redact(sdp)|
    modifies out
    ensures n == |Redact(sdp)|
    ensures out != null ==> out[..n] == Redact(sdp) && out[n] == '\0'
  {
    n := 0;
    var p := 0;
    ghost var done := "";
    assert sdp[0..] == sdp;
    while p < |sdp|
      invariant p <= |sdp| && n == |done| && done + Redact(sdp[p..]) == Redact(sdp)
      invariant out != null ==> out[..n] == done
    {
      var eol := ScanLine(sdp, p);
      var brk := ScanBreaks(sdp, eol);
      var piece := LinePiece(sdp, p, eol);
      RedactFrom(sdp, p, eol, brk, done, piece);
      n := WriteLine(out, n, done, piece, sdp[eol..brk]);
      done := done + piece + sdp[eol..brk];
      p := brk;
    }
    assert sdp[p..] == "" && done + "" == done;
    if out != null {
      out[n] := '\0';
    }
  }

  lemma RedactFrom(sdp: string, p: nat, eol: nat, brk: nat, done: string, piece: string)
    requires p < |sdp| && eol == LineEnd(sdp, p) && brk == BreakEnd(sdp, eol) && piece == RedactLine(sdp[p..eol])
    ensures p < brk && done + piece + sdp[eol..brk] + Redact(sdp[brk..]) == done + Redact(sdp[p..])
    ensures |done| + |piece| + (brk - eol) <= |done + Redact(sdp[p..])|
  {
    PieceAt(sdp, p, eol, brk);
    var first, ps := Piece(sdp[p..eol], sdp[eol..brk]), Pieces(sdp[brk..]);
    WholeOfFront(first, ps, RedactLine);
    Regroup(done, piece, sdp[eol..brk], Redact(sdp[brk..]));
  }

  lemma Regroup(a: string, b: string, c: string, d: string)
    ensures a + b + c + d == a + (b + c + d)
  {
  }

  /** The measured buffer always fits the copy. */
  method RedactedCopy(sdp: string) returns (text: string)
    ensures text == Redact(sdp)
  {
    var length := RedactInto(sdp, null);
    var out := new char[length + 1](_ => '\0');
    var n := RedactInto(sdp, out);
    text := out[..n];
  }

  // ---- Lines and breaks ---------------------------------------------------------------------------------------------

  lemma FirstPieceIsFront(s: string)
    ensures var p := FirstPiece(s); s == p.line + p.breaks + s[|p.line| + |p.breaks|..]
  {
  }

  lemma WholeOf(p: Piece, ps: seq<Piece>)
    ensures Whole([p] + ps) == p.line + p.breaks + Whole(ps)
  {
    assert ([p] + ps)[1..] == ps;
  }

  lemma {:induction false} WholeOfPieces(s: string)
    ensures Whole(Pieces(s)) == s
    decreases |s|
  {
    if s != "" {
      var p := FirstPiece(s);
      var rest := s[|p.line| + |p.breaks|..];
      WholeOfPieces(rest);
      FirstPieceIsFront(s);
      WholeOf(p, Pieces(rest));
    }
  }

  /** Pieces as a text can have them: lines without breaks, then breaks, with no empty piece, no line running into the
      next and no run of breaks cut in two. */
  ghost predicate Proper(ps: seq<Piece>) {
    forall k :: 0 <= k < |ps| ==> ProperAt(ps, k)
  }

  ghost predicate ProperAt(ps: seq<Piece>, k: nat)
    requires k < |ps|
  {
    && NoBreaks(ps[k].line) && AllBreaks(ps[k].breaks) && (ps[k].line != "" || ps[k].breaks != "")
    && (k + 1 < |ps| ==> ps[k].breaks != "" && ps[k + 1].line != "")
  }

  lemma ProperRest(ps: seq<Piece>)
    requires Proper(ps) && ps != []
    ensures Proper(ps[1..])
  {
    forall k | 0 <= k < |ps[1..]| ensures ProperAt(ps[1..], k) {
      assert ProperAt(ps, k + 1);
    }
  }

  /** A line, its breaks, and a rest that begins another line are read apart again. */
  lemma ReadApart(line: string, breaks: string, rest: string)
    requires NoBreaks(line) && AllBreaks(breaks) && (rest != "" ==> breaks != "" && !IsBreak(rest[0]))
    ensures FirstPiece(line + breaks + rest) == Piece(line, breaks)
  {
    var s := line + breaks + rest;
    LineEndIs(s, 0, |line|);
    BreakEndIs(s, |line|, |line| + |breaks|);
    assert s[..|line|] == line && s[|line|..|line| + |breaks|] == breaks;
  }

  lemma WholeBeginsLine(ps: seq<Piece>)
    requires Proper(ps) && ps != [] && ps[0].line != ""
    ensures Whole(ps) != "" && !IsBreak(Whole(ps)[0])
  {
    assert ProperAt(ps, 0);
  }

  /** Proper pieces are read back from the text they make. */
  lemma {:induction false} PiecesOfWhole(ps: seq<Piece>)
    requires Proper(ps)
    ensures Pieces(Whole(ps)) == ps
  {
    if ps != [] {
      var p, more := ps[0], ps[1..];
      ProperRest(ps);
      PiecesOfWhole(more);
      assert ProperAt(ps, 0);
      if more != [] {
        WholeBeginsLine(more);
      }
      ReadApart(p.line, p.breaks, Whole(more));
      PiecesOfFront(p, Whole(more));
      assert ps == [p] + more;
    }
  }

  lemma {:induction false} PiecesAreProper(s: string)
    ensures Proper(Pieces(s))
    ensures s != "" ==> (Pieces(s)[0].line == "" <==> IsBreak(s[0]))
    decreases |s|
  {
    if s != "" {
      var e := LineEnd(s, 0);
      var b := BreakEnd(s, e);
      LineEndIs(s, 0, e);
      BreakEndIs(s, e, b);
      PiecesAreProper(s[b..]);
      var ps, rest := Pieces(s), Pieces(s[b..]);
      assert ps == [Piece(s[..e], s[e..b])] + rest;
      forall k | 0 <= k < |ps| ensures ProperAt(ps, k) {
        if k > 0 {
          assert ProperAt(rest, k - 1);
        }
      }
    }
  }

  /** A replacement that neither splits a line nor empties it nor fills an empty one. */
  ghost predicate KeepsLines(f: string -> string) {
    forall line :: NoBreaks(line) ==> NoBreaks(f(line)) && (f(line) == "" <==> line == "")
  }

  lemma RedactLineKeepsLines()
    ensures KeepsLines(RedactLine)
  {
    assert NoBreaks(REDACTED);
  }

  lemma {:induction false} MapAllAt(ps: seq<Piece>, f: string -> string)
    ensures |MapAll(ps, f)| == |ps|
    ensures forall k :: 0 <= k < |ps| ==> MapAll(ps, f)[k] == Piece(f(ps[k].line), ps[k].breaks)
  {
    if ps != [] {
      MapAllAt(ps[1..], f);
    }
  }

  lemma MappedIsProper(ps: seq<Piece>, f: string -> string)
    requires Proper(ps) && KeepsLines(f)
    ensures Proper(MapAll(ps, f))
  {
    MapAllAt(ps, f);
    forall k | 0 <= k < |ps| ensures ProperAt(MapAll(ps, f), k) {
      assert ProperAt(ps, k);
      if k + 1 < |ps| {
        assert ProperAt(ps, k + 1);
      }
    }
  }

  /** Redaction works line by line: the redacted text reads back as the same number of lines, every break is unchanged,
      and line k is the redaction of line k. */
  lemma LinesOfRedacted(s: string)
    ensures var ps, qs := Pieces(s), Pieces(Redact(s));
            |qs| == |ps| && forall k :: 0 <= k < |ps| ==> qs[k] == Piece(RedactLine(ps[k].line), ps[k].breaks)
  {
    var ps := Pieces(s);
    RedactLineKeepsLines();
    PiecesAreProper(s);
    MappedIsProper(ps, RedactLine);
    PiecesOfWhole(MapAll(ps, RedactLine));
    MapAllAt(ps, RedactLine);
  }

  // ---- What redaction forgets ---------------------------------------------------------------------------------------

  lemma SpaceFromIs(line: string, i: nat, q: nat)
    requires i <= q <= |line| && (q < |line| ==> line[q] == ' ') && forall k :: i <= k < q ==> line[k] != ' '
    ensures SpaceFrom(line, i) == q
  {
  }

  lemma KeepOfFingerprint(line: string)
    requires FINGERPRINT <= line
    ensures Keep(line) >= |FINGERPRINT| && Keep(line[..Keep(line)] + REDACTED) == Keep(line)
  {
    var k := Keep(line);
    var r := line[..k] + REDACTED;
    assert line[2] == 'f' && r[2] == 'f' && FINGERPRINT <= r;
    var q := SpaceFrom(line, |FINGERPRINT|);
    if q < |line| {
      SpaceFromIs(r, |FINGERPRINT|, q);
    } else {
      assert r[|FINGERPRINT|..] == REDACTED;
      assert forall i :: |FINGERPRINT| <= i < |r| ==> r[i] == REDACTED[i - |FINGERPRINT|] != ' ';
      SpaceFromIs(r, |FINGERPRINT|, |r|);
    }
  }

  /** The redacted line keeps what the line kept. */
  lemma KeepOfRedacted(line: string)
    ensures Keep(RedactLine(line)) == Keep(line)
  {
    if UFRAG <= line {
      assert UFRAG <= RedactLine(line);
    } else if PWD <= line {
      assert line[6] == 'p' && PWD <= RedactLine(line) && RedactLine(line)[6] != UFRAG[6];
    } else if FINGERPRINT <= line {
      KeepOfFingerprint(line);
    }
  }

  /** Two lines alike but for a secret's value. */
  predicate SameButSecret(a: string, b: string) {
    Keep(a) == Keep(b) && if Keep(a) > 0 then a[..Keep(a)] == b[..Keep(b)] else a == b
  }

  lemma LineKernel(a: string, b: string)
    ensures RedactLine(a) == RedactLine(b) <==> SameButSecret(a, b)
  {
    KeepOfRedacted(a);
    KeepOfRedacted(b);
    var k := Keep(a);
    if RedactLine(a) == RedactLine(b) && k > 0 {
      assert RedactLine(a)[..k] == a[..k] && RedactLine(b)[..k] == b[..k];
    }
  }

  /** The same breaks, and lines alike but for the values of credentials and fingerprints. */
  ghost predicate Alike(ps: seq<Piece>, pt: seq<Piece>) {
    |ps| == |pt| && forall k :: 0 <= k < |ps| ==> ps[k].breaks == pt[k].breaks && SameButSecret(ps[k].line, pt[k].line)
  }

  lemma PieceKernel(p: Piece, q: Piece)
    ensures Piece(RedactLine(p.line), p.breaks) == Piece(RedactLine(q.line), q.breaks) <==>
        p.breaks == q.breaks && SameButSecret(p.line, q.line)
  {
    LineKernel(p.line, q.line);
  }

  /** The exact kernel: two texts redact alike exactly when they are alike but for secret values. */
  lemma RedactionKernel(s: string, t: string)
    ensures Redact(s) == Redact(t) <==> Alike(Pieces(s), Pieces(t))
  {
    var ps, pt, rs, rt := Pieces(s), Pieces(t), Pieces(Redact(s)), Pieces(Redact(t));
    LinesOfRedacted(s);
    LinesOfRedacted(t);
    WholeOfPieces(Redact(s));
    WholeOfPieces(Redact(t));
    forall k | 0 <= k < |ps| && k < |pt| ensures rs[k] == rt[k] <==>
      ps[k].breaks == pt[k].breaks && SameButSecret(ps[k].line, pt[k].line) {
      PieceKernel(ps[k], pt[k]);
    }
    if Alike(ps, pt) {
      assert rs == rt;
    }
  }

  /** Redacting again changes nothing. */
  lemma RedactIsIdempotent(s: string)
    ensures Redact(Redact(s)) == Redact(s)
  {
    var ps, rs, rrs := Pieces(s), Pieces(Redact(s)), Pieces(Redact(Redact(s)));
    LinesOfRedacted(s);
    LinesOfRedacted(Redact(s));
    forall k | 0 <= k < |ps| ensures rrs[k] == rs[k] {
      KeepOfRedacted(ps[k].line);
      RedactLineTwice(ps[k].line);
    }
    assert rrs == rs;
    WholeOfPieces(Redact(s));
    WholeOfPieces(Redact(Redact(s)));
  }

  lemma RedactLineTwice(line: string)
    ensures RedactLine(RedactLine(line)) == RedactLine(line)
  {
    KeepOfRedacted(line);
    var k := Keep(line);
    if k > 0 {
      assert RedactLine(line)[..k] == line[..k];
    }
  }

  /** A text with no credential or fingerprint line is copied unchanged. */
  lemma NothingToRedact(s: string)
    requires forall k :: 0 <= k < |Pieces(s)| ==> !Secret(Pieces(s)[k].line)
    ensures Redact(s) == s
  {
    LinesOfRedacted(s);
    WholeOfPieces(s);
    WholeOfPieces(Redact(s));
    assert Pieces(Redact(s)) == Pieces(s);
  }

  // ---- In plain text ------------------------------------------------------------------------------------------------

  /** A credential or fingerprint line. */
  predicate Secret(line: string) {
    "a=ice-ufrag:" <= line || "a=ice-pwd:" <= line || "a=fingerprint:" <= line
  }

  /** What is made of a line: a credential's value goes, of a fingerprint all but its hash name, and any other line
      stays. */
  ghost predicate Hidden(line: string, r: string) {
    && ("a=ice-ufrag:" <= line ==> r == "a=ice-ufrag:<redacted>")
    && ("a=ice-pwd:" <= line ==> r == "a=ice-pwd:<redacted>")
    && ("a=fingerprint:" <= line && ' ' !in line ==> r == "a=fingerprint:<redacted>")
    && (forall name: string, value: string :: line == "a=fingerprint:" + name + " " + value && ' ' !in name ==>
          r == "a=fingerprint:" + name + " <redacted>")
    && (!Secret(line) ==> r == line)
  }

  lemma PrefixesApart(line: string)
    ensures !("a=ice-ufrag:" <= line && "a=ice-pwd:" <= line)
    ensures !("a=ice-ufrag:" <= line && "a=fingerprint:" <= line) && !("a=ice-pwd:" <= line && "a=fingerprint:" <= line)
  {
    if "a=ice-ufrag:" <= line {
      assert line[6] == 'u';
    }
    if "a=ice-pwd:" <= line {
      assert line[6] == 'p' && line[2] == 'i';
    }
  }

  lemma NamedFingerprint(line: string, name: string, value: string)
    requires line == "a=fingerprint:" + name + " " + value && ' ' !in name
    ensures RedactLine(line) == "a=fingerprint:" + name + " <redacted>"
  {
    PrefixesApart(line);
    var q := |FINGERPRINT| + |name|;
    assert forall k :: |FINGERPRINT| <= k < q ==> line[k] == name[k - |FINGERPRINT|];
    SpaceFromIs(line, |FINGERPRINT|, q);
    assert line[..q + 1] == "a=fingerprint:" + name + " ";
  }

  lemma BareFingerprint(line: string)
    requires "a=fingerprint:" <= line && ' ' !in line
    ensures RedactLine(line) == "a=fingerprint:<redacted>"
  {
    PrefixesApart(line);
    SpaceFromIs(line, |FINGERPRINT|, |line|);
  }

  lemma LineIsHidden(line: string)
    ensures Hidden(line, RedactLine(line))
  {
    PrefixesApart(line);
    if "a=fingerprint:" <= line && ' ' !in line {
      BareFingerprint(line);
    }
    forall name: string, value: string | line == "a=fingerprint:" + name + " " + value && ' ' !in name
      ensures RedactLine(line) == "a=fingerprint:" + name + " <redacted>"
    {
      NamedFingerprint(line, name, value);
    }
  }

  /** The texts between breaks, CR or LF, are what is hidden or kept, one by one; every break stays where it was. */
  lemma TextIsHidden(s: string)
    ensures var ps, qs := Pieces(s), Pieces(Redact(s));
            && s == Whole(ps) && Redact(s) == Whole(qs) && |qs| == |ps|
            && forall k :: 0 <= k < |ps| ==>
                 && '\r' !in ps[k].line && '\n' !in ps[k].line
                 && (forall i :: 0 <= i < |ps[k].breaks| ==> ps[k].breaks[i] == '\r' || ps[k].breaks[i] == '\n')
                 && (k + 1 < |ps| ==> ps[k].breaks != "")
                 && qs[k].breaks == ps[k].breaks && Hidden(ps[k].line, qs[k].line)
  {
    WholeOfPieces(s);
    WholeOfPieces(Redact(s));
    LinesOfRedacted(s);
    PiecesAreProper(s);
    var ps := Pieces(s);
    forall k | 0 <= k < |ps|
      ensures Hidden(ps[k].line, RedactLine(ps[k].line)) && ProperAt(ps, k)
    {
      LineIsHidden(ps[k].line);
    }
  }
}
