/** Merging one batch entry into a session's own set, source by source, with the presence transitions it calls for. */
module Columns {
  import opened Common
  import opened VisBatch

  /** The transition buffer of one entry: twice the sources an entry may carry. */
  const MAX_TRANSITIONS := 2 * MAX_EXCL

  /** A row shown (a "j") or taken away (an "l") at the listener's viewer. */
  datatype Transition = Transition(who: string, join: bool)

  /** The rows a viewer shows after one more message. */
  function Show(view: set<string>, t: Transition): set<string> {
    if t.join then view + {t.who} else view - {t.who}
  }

  function ShowAll(view: set<string>, ts: seq<Transition>): set<string> {
    if ts == [] then view else Show(ShowAll(view, ts[..|ts| - 1]), ts[|ts| - 1])
  }

  /** Every transition is a row of `joins` shown or a row of `leaves` taken away, and none is missing. */
  ghost predicate Covers(ts: seq<Transition>, joins: set<string>, leaves: set<string>) {
    && (forall i :: 0 <= i < |ts| ==> if ts[i].join then ts[i].who in joins else ts[i].who in leaves)
    && (forall s :: s in joins ==> Transition(s, true) in ts)
    && (forall s :: s in leaves ==> Transition(s, false) in ts)
  }

  lemma {:induction false} ShowAllOnly(view: set<string>, ts: seq<Transition>, joins: set<string>, leaves: set<string>)
    requires forall i :: 0 <= i < |ts| ==> if ts[i].join then ts[i].who in joins else ts[i].who in leaves
    requires joins !! leaves
    ensures forall s :: s !in joins && s !in leaves ==> (s in ShowAll(view, ts) <==> s in view)
    ensures forall s :: Transition(s, true) in ts ==> s in ShowAll(view, ts)
    ensures forall s :: Transition(s, false) in ts ==> s !in ShowAll(view, ts)
  {
    if ts != [] {
      var front, last := ts[..|ts| - 1], ts[|ts| - 1];
      ShowAllOnly(view, front, joins, leaves);
      assert ts == front + [last];
      assert last in ts;
      forall s | Transition(s, true) in ts ensures s in ShowAll(view, ts) {
        if !(last.join && last.who == s) {
          assert Transition(s, true) in front;
          var i :| 0 <= i < |front| && front[i] == Transition(s, true);
          assert ts[i].who in joins;
        }
      }
      forall s | Transition(s, false) in ts ensures s !in ShowAll(view, ts) {
        if !(!last.join && last.who == s) {
          assert Transition(s, false) in front;
          var i :| 0 <= i < |front| && front[i] == Transition(s, false);
          assert ts[i].who in leaves;
        }
      }
    }
  }

  /** Replaying a covering list on any viewer shows the joins, takes away the leaves and touches no other row. */
  lemma CoversMeaning(view: set<string>, ts: seq<Transition>, joins: set<string>, leaves: set<string>)
    requires Covers(ts, joins, leaves) && joins !! leaves
    ensures ShowAll(view, ts) == view + joins - leaves
  {
    ShowAllOnly(view, ts, joins, leaves);
  }

  lemma CoversOneMore(ts: seq<Transition>, t: Transition, joins: set<string>, leaves: set<string>)
    requires Covers(ts, joins, leaves)
    ensures Covers(ts + [t], if t.join then joins + {t.who} else joins, if t.join then leaves else leaves + {t.who})
  {
    var more := ts + [t];
    assert forall x :: x in ts ==> x in more;
    assert more[|ts|] == t;
  }

  /** One transition recorded if the buffer has room. */
  method Note(ts: seq<Transition>, who: string, join: bool, present: set<string>) returns (r: seq<Transition>)
    requires |ts| <= MAX_TRANSITIONS
    ensures r == if |ts| < MAX_TRANSITIONS && who in present then ts + [Transition(who, join)] else ts
  {
    r := ts;
    if |ts| < MAX_TRANSITIONS && who in present {
      r := ts + [Transition(who, join)];
    }
  }

  method MergeAdd(excluded: set<string>, sources: seq<string>, present: set<string>)
    returns (after: set<string>, ts: seq<Transition>)
    requires |sources| <= MAX_EXCL
    ensures after == ApplyOp(Add, excluded, sources) && |ts| <= MAX_TRANSITIONS
    ensures Covers(ts, {}, (after - excluded) * present)
  {
    after, ts := excluded, [];
    for k := 0 to |sources|
      invariant |ts| <= k && after == excluded + SourceSet(sources[..k])
      invariant Covers(ts, {}, (after - excluded) * present)
    {
      assert sources[..k + 1] == sources[..k] + [sources[k]];
      if sources[k] !in after {
        CoversOneMore(ts, Transition(sources[k], false), {}, (after - excluded) * present);
        ghost var more := after + {sources[k]};
        assert (more - excluded) * present
            == (after - excluded) * present + if sources[k] in present then {sources[k]} else {};
        after := after + {sources[k]};
        ts := Note(ts, sources[k], false, present);
      }
    }
    assert sources[..|sources|] == sources;
  }

  method MergeRemove(excluded: set<string>, sources: seq<string>, present: set<string>)
    returns (after: set<string>, ts: seq<Transition>)
    requires |sources| <= MAX_EXCL
    ensures after == ApplyOp(Remove, excluded, sources) && |ts| <= MAX_TRANSITIONS
    ensures Covers(ts, (excluded - after) * present, {})
  {
    after, ts := excluded, [];
    for k := 0 to |sources|
      invariant |ts| <= k && after == excluded - SourceSet(sources[..k])
      invariant Covers(ts, (excluded - after) * present, {})
    {
      assert sources[..k + 1] == sources[..k] + [sources[k]];
      if sources[k] in after {
        CoversOneMore(ts, Transition(sources[k], true), (excluded - after) * present, {});
        ghost var fewer := after - {sources[k]};
        assert (excluded - fewer) * present
            == (excluded - after) * present + if sources[k] in present then {sources[k]} else {};
        after := after - {sources[k]};
        ts := Note(ts, sources[k], true, present);
      }
    }
    assert sources[..|sources|] == sources;
  }

  /** The rows a replace gives back: what the old set held, the new one does not, and somebody present carries. */
  method NoteRemoved(excluded: set<string>, after: set<string>, present: set<string>) returns (ts: seq<Transition>)
    requires |present| <= MAX_MIX
    ensures |ts| <= |present|
    ensures Covers(ts, (excluded - after) * present, {})
  {
    ts := [];
    var rest := excluded;
    ghost var noted := {};
    while rest != {}
      invariant rest <= excluded && noted <= present && |ts| == |noted|
      invariant forall x :: x in noted <==> x in excluded && x !in rest && x !in after && x in present
      invariant Covers(ts, noted, {})
      decreases rest
    {
      var s :| s in rest;
      rest := rest - {s};
      if s !in after && s in present {
        SubsetSize(noted + {s}, present);
        ts := Extend(ts, noted, s, present);
        noted := noted + {s};
      }
    }
    SubsetSize(noted, present);
    assert noted == (excluded - after) * present;
  }

  method Extend(ts: seq<Transition>, ghost noted: set<string>, s: string, present: set<string>)
    returns (r: seq<Transition>)
    requires |ts| < MAX_TRANSITIONS && s in present && Covers(ts, noted, {})
    ensures |r| == |ts| + 1 && Covers(r, noted + {s}, {})
  {
    r := Note(ts, s, true, present);
    CoversOneMore(ts, Transition(s, true), noted, {});
  }

  method MergeReplace(excluded: set<string>, sources: seq<string>, present: set<string>)
    returns (after: set<string>, ts: seq<Transition>)
    requires |sources| <= MAX_EXCL && |present| <= MAX_MIX
    ensures after == ApplyOp(Replace, excluded, sources) && |ts| <= MAX_TRANSITIONS
    ensures Covers(ts, (excluded - after) * present, (after - excluded) * present)
  {
    after := {};
    for k := 0 to |sources|
      invariant after == SourceSet(sources[..k])
    {
      assert sources[..k + 1] == sources[..k] + [sources[k]];
      after := after + {sources[k]};
    }
    assert sources[..|sources|] == sources;
    ts := NoteRemoved(excluded, after, present);
    for k := 0 to |sources|
      invariant |ts| <= |present| + k
      invariant Covers(ts, (excluded - after) * present, (SourceSet(sources[..k]) - excluded) * present)
    {
      assert sources[..k + 1] == sources[..k] + [sources[k]];
      if sources[k] !in excluded {
        ghost var joins, leaves := (excluded - after) * present, (SourceSet(sources[..k]) - excluded) * present;
        CoversOneMore(ts, Transition(sources[k], false), joins, leaves);
        assert (SourceSet(sources[..k + 1]) - excluded) * present
            == leaves + if sources[k] in present then {sources[k]} else {};
        ts := Note(ts, sources[k], false, present);
      }
    }
  }

  /** One exclusion entry merged into a session's set. With at most 128 sources and 110 participants the 256-entry
      buffer never overflows: exactly the present sources whose exclusion changed get their transition. */
  method MergeExclusions(op: Op, excluded: set<string>, sources: seq<string>, present: set<string>)
    returns (after: set<string>, ts: seq<Transition>)
    requires |sources| <= MAX_EXCL && |present| <= MAX_MIX
    ensures after == ApplyOp(op, excluded, sources)
    ensures |ts| <= MAX_TRANSITIONS
    ensures forall view :: ShowAll(view, ts) == view + (excluded - after) * present - (after - excluded) * present
  {
    match op {
      case Add => after, ts := MergeAdd(excluded, sources, present); assert (excluded - after) * present == {};
      case Remove => after, ts := MergeRemove(excluded, sources, present); assert (after - excluded) * present == {};
      case Replace => after, ts := MergeReplace(excluded, sources, present);
    }
    forall view ensures ShowAll(view, ts) == view + (excluded - after) * present - (after - excluded) * present {
      CoversMeaning(view, ts, (excluded - after) * present, (after - excluded) * present);
    }
  }

  // ---- The mute channel ---------------------------------------------------------------------------------------------

  /** How many rows a merge must grey or un-grey. */
  function Changes(before: set<string>, after: set<string>): nat {
    |after - before| + |before - after|
  }

  /** The notes so far: all of them while the buffer has room, and a full buffer from then on. A row greyed counts as a
      join. */
  ghost predicate Noted(ts: seq<Transition>, on: set<string>, off: set<string>) {
    && |ts| == (if |on| + |off| <= MAX_TRANSITIONS then |on| + |off| else MAX_TRANSITIONS)
    && (|on| + |off| <= MAX_TRANSITIONS ==> Covers(ts, on, off))
  }

  /** One note, if the buffer has room; nobody asks whether the source is present. */
  method NoteMute(ts: seq<Transition>, who: string, muted: bool, ghost on: set<string>, ghost off: set<string>)
    returns (r: seq<Transition>)
    requires Noted(ts, on, off) && (if muted then who !in on else who !in off)
    ensures if muted then Noted(r, on + {who}, off) else Noted(r, on, off + {who})
  {
    r := ts;
    if |ts| < MAX_TRANSITIONS {
      r := ts + [Transition(who, muted)];
      CoversOneMore(ts, Transition(who, muted), on, off);
    }
  }

  /** One moderation-mute entry merged into a session's set, with the rows to grey or un-grey. Replayed on the rows the
      old set greyed, the notes give the rows of the new set if and only if no more than 256 rows change; then they do
      so on any view. */
  method MergeMutes(op: Op, muted: set<string>, sources: seq<string>) returns (after: set<string>, ts: seq<Transition>)
    ensures after == ApplyOp(op, muted, sources) && |ts| <= 256
    ensures ShowAll(muted, ts) == after <==> Changes(muted, after) <= 256
    ensures Changes(muted, after) <= 256 ==>
              forall view :: ShowAll(view, ts) == view + (after - muted) - (muted - after)
  {
    match op {
      case Remove =>
        after, ts := UnsetMutes(muted, sources);
        assert after - muted == {};
      case Add =>
        after, ts := SetMutes(muted, sources, [], {});
        assert muted - after == {};
      case Replace =>
        ghost var off;
        after, ts, off := ClearMutes(muted, sources);
        after, ts := SetMutes(after, sources, ts, off);
        assert after == SourceSet(sources);
        assert off == muted - after && SourceSet(sources) - (set s | s in muted && s in sources) == after - muted;
    }
    NotedMeaning(muted, after, ts);
  }

  /** A replace first clears whatever the new list does not name, in the table's own order. */
  method ClearMutes(muted: set<string>, sources: seq<string>)
    returns (after: set<string>, ts: seq<Transition>, ghost off: set<string>)
    ensures after == (set s | s in muted && s in sources) && off == muted - after && Noted(ts, {}, off)
  {
    after, ts, off := muted, [], {};
    var rest := muted;
    while rest != {}
      invariant rest <= muted && off == (set s | s in muted - rest && s !in sources) && after == muted - off
      invariant Noted(ts, {}, off)
      decreases rest
    {
      var s :| s in rest;
      rest := rest - {s};
      if s !in sources {
        ts := NoteMute(ts, s, false, {}, off);
        after := after - {s};
        off := off + {s};
      }
    }
  }

  /** Then each named source is set, and noted if it was not. */
  method SetMutes(start: set<string>, sources: seq<string>, noted: seq<Transition>, ghost off: set<string>)
    returns (after: set<string>, ts: seq<Transition>)
    requires Noted(noted, {}, off)
    ensures after == start + SourceSet(sources) && Noted(ts, after - start, off)
  {
    after, ts := start, noted;
    ghost var on: set<string> := {};
    for m := 0 to |sources|
      invariant after == start + SourceSet(sources[..m]) && on == after - start && Noted(ts, on, off)
    {
      var s := sources[m];
      assert sources[..m + 1] == sources[..m] + [s];
      if s !in after {
        ts := NoteMute(ts, s, true, on, off);
        after, on := after + {s}, on + {s};
      }
    }
    assert sources[..|sources|] == sources;
  }

  /** A remove clears each named source, and notes it if it was set. */
  method UnsetMutes(start: set<string>, sources: seq<string>) returns (after: set<string>, ts: seq<Transition>)
    ensures after == start - SourceSet(sources) && Noted(ts, {}, start - after)
  {
    after, ts := start, [];
    ghost var off: set<string> := {};
    for m := 0 to |sources|
      invariant after == start - SourceSet(sources[..m]) && off == start - after && Noted(ts, {}, off)
    {
      var s := sources[m];
      assert sources[..m + 1] == sources[..m] + [s];
      if s in after {
        ts := NoteMute(ts, s, false, {}, off);
        after, off := after - {s}, off + {s};
      }
    }
    assert sources[..|sources|] == sources;
  }

  lemma NotedMeaning(before: set<string>, after: set<string>, ts: seq<Transition>)
    requires Noted(ts, after - before, before - after)
    ensures ShowAll(before, ts) == after <==> Changes(before, after) <= MAX_TRANSITIONS
    ensures Changes(before, after) <= MAX_TRANSITIONS ==>
              forall view :: ShowAll(view, ts) == view + (after - before) - (before - after)
  {
    if Changes(before, after) <= MAX_TRANSITIONS {
      forall view ensures ShowAll(view, ts) == view + (after - before) - (before - after) {
        CoversMeaning(view, ts, after - before, before - after);
      }
      assert before + (after - before) - (before - after) == after;
    } else if ShowAll(before, ts) == after {
      EachNoteChangesOne(before, ts);
      assert false;
    }
  }

  /** A list of notes changes at most as many rows as it has notes. */
  lemma {:induction false} EachNoteChangesOne(view: set<string>, ts: seq<Transition>)
    ensures Changes(view, ShowAll(view, ts)) <= |ts|
  {
    if ts != [] {
      var front, t := ts[..|ts| - 1], ts[|ts| - 1];
      EachNoteChangesOne(view, front);
      var middle, after := ShowAll(view, front), ShowAll(view, ts);
      assert after - view <= (middle - view) + if t.join then {t.who} else {};
      assert view - after <= (view - middle) + if t.join then {} else {t.who};
      SubsetSize(after - view, (middle - view) + if t.join then {t.who} else {});
      SubsetSize(view - after, (view - middle) + if t.join then {} else {t.who});
    }
  }

  // ---- A replace that outgrows the notes ----------------------------------------------------------------------------

  /** The sources of one full entry, a name of two letters each. */
  function Entries(block: nat): (r: seq<string>)
    requires block < 3
    ensures |r| == MAX_EXCL && forall i :: 0 <= i < MAX_EXCL ==> r[i] == [block as char, i as char]
  {
    seq(MAX_EXCL, i requires 0 <= i < MAX_EXCL => [block as char, i as char])
  }

  lemma {:induction false} SetOfDistinct(sources: seq<string>)
    requires forall i, j :: 0 <= i < j < |sources| ==> sources[i] != sources[j]
    ensures |SourceSet(sources)| == |sources|
  {
    if sources != [] {
      var front, last := sources[..|sources| - 1], sources[|sources| - 1];
      SetOfDistinct(front);
      assert sources == front + [last] && SourceSet(sources) == SourceSet(front) + {last} && last !in front;
    }
  }

  lemma EntriesAreDistinct(block: nat)
    requires block < 3
    ensures |SourceSet(Entries(block))| == MAX_EXCL
    ensures forall s :: s in SourceSet(Entries(block)) ==> |s| == 2 && s[0] == block as char
  {
    forall i, j | 0 <= i < j < MAX_EXCL ensures Entries(block)[i] != Entries(block)[j] {
      assert Entries(block)[i][1] == i as char && Entries(block)[j][1] == j as char;
    }
    SetOfDistinct(Entries(block));
  }

  function MutedByThree(): set<string> {
    ApplyOp(Add, ApplyOp(Add, ApplyOp(Add, {}, Entries(0)), Entries(1)), Entries(2))
  }

  lemma ThreeEntries()
    ensures |MutedByThree()| == 3 * MAX_EXCL
  {
    EntriesAreDistinct(0);
    EntriesAreDistinct(1);
    EntriesAreDistinct(2);
    var a, b, c := SourceSet(Entries(0)), SourceSet(Entries(1)), SourceSet(Entries(2));
    assert a !! b && (a + b) !! c && MutedByThree() == a + b + c;
  }

  /** Three entries within the parser's limit mute 384 sources; after an empty replace no list of notes the buffer can
      hold un-greys them all. */
  lemma MutesOutgrowNotes(ts: seq<Transition>)
    requires |ts| <= 256
    ensures var muted, after := MutedByThree(), ApplyOp(Replace, MutedByThree(), []);
            after == {} && Changes(muted, after) == 384 && ShowAll(muted, ts) != after
  {
    ThreeEntries();
    var muted := MutedByThree();
    assert ApplyOp(Replace, muted, []) == {} && muted - {} == muted;
    EachNoteChangesOne(muted, ts);
  }
}
