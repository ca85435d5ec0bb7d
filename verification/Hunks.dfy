/**
 The hunk algebra over two buffers' lines. The edit script and its grouping come from a
 library: here they are any script that turns the old lines into the new, and any grouping
 of it that drops only equal stretches.
 */
module Hunks {
  import opened Prelude
  import opened Lines
  import opened Text

  datatype Op =
    | Equal(oldIndex: nat, newIndex: nat, len: nat)
    | Deleted(oldIndex: nat, oldLen: nat, newIndex: nat)
    | Inserted(oldIndex: nat, newIndex: nat, newLen: nat)
    | Replaced(oldIndex: nat, oldLen: nat, newIndex: nat, newLen: nat)

  function OldLen(op: Op): nat {
    match op
    case Equal(_, _, len) => len
    case Deleted(_, oldLen, _) => oldLen
    case Inserted(_, _, _) => 0
    case Replaced(_, oldLen, _, _) => oldLen
  }

  function NewLen(op: Op): nat {
    match op
    case Equal(_, _, len) => len
    case Deleted(_, _, _) => 0
    case Inserted(_, _, newLen) => newLen
    case Replaced(_, _, _, newLen) => newLen
  }

  predicate OpOk(op: Op, old0: seq<Bytes>, new0: seq<Bytes>) {
    && op.oldIndex + OldLen(op) <= |old0|
    && op.newIndex + NewLen(op) <= |new0|
    && (op.Equal? ==> old0[op.oldIndex..op.oldIndex + op.len] == new0[op.newIndex..op.newIndex + op.len])
  }

  /** Operations end to end, from old line `o` and new line `n`. */
  predicate Chain(ops: seq<Op>, old0: seq<Bytes>, new0: seq<Bytes>, o: nat, n: nat) {
    ops == [] ||
    (&& ops[0].oldIndex == o && ops[0].newIndex == n && OpOk(ops[0], old0, new0)
     && Chain(ops[1..], old0, new0, o + OldLen(ops[0]), n + NewLen(ops[0])))
  }

  function OldSpan(ops: seq<Op>): nat {
    if ops == [] then 0 else OldLen(ops[0]) + OldSpan(ops[1..])
  }

  function NewSpan(ops: seq<Op>): nat {
    if ops == [] then 0 else NewLen(ops[0]) + NewSpan(ops[1..])
  }

  /** An edit script from the old lines to the new. */
  predicate IsScript(ops: seq<Op>, old0: seq<Bytes>, new0: seq<Bytes>) {
    Chain(ops, old0, new0, 0, 0) && OldSpan(ops) == |old0| && NewSpan(ops) == |new0|
  }

  /** Groups in order, nothing but equal lines before, between and after them. */
  predicate Groups(gs: seq<seq<Op>>, old0: seq<Bytes>, new0: seq<Bytes>, o: nat, n: nat) {
    && o <= |old0| && n <= |new0|
    && if gs == [] then old0[o..] == new0[n..]
       else
         && gs[0] != []
         && var o1, n1 := gs[0][0].oldIndex, gs[0][0].newIndex;
         && o <= o1 <= |old0| && n <= n1 <= |new0| && old0[o..o1] == new0[n..n1]
         && Chain(gs[0], old0, new0, o1, n1)
         && Groups(gs[1..], old0, new0, o1 + OldSpan(gs[0]), n1 + NewSpan(gs[0]))
  }

  function Changes(ops: seq<Op>): seq<Op> {
    if ops == [] then []
    else if ops[0].Equal? then Changes(ops[1..])
    else [ops[0]] + Changes(ops[1..])
  }

  function Flat(gs: seq<seq<Op>>): seq<Op> {
    if gs == [] then [] else gs[0] + Flat(gs[1..])
  }

  /** A grouping of `ops` that drops only equal stretches. */
  predicate IsGrouping(gs: seq<seq<Op>>, ops: seq<Op>, old0: seq<Bytes>, new0: seq<Bytes>) {
    Groups(gs, old0, new0, 0, 0) && Changes(Flat(gs)) == Changes(ops)
  }

  // ---------------------------------------------------------------------------------------
  // Hunks
  // ---------------------------------------------------------------------------------------

  datatype Hunk = Hunk(index: nat, oldStart: nat, oldEnd: nat, newStart: nat, newEnd: nat, lines: seq<Line>)

  function Tagged(tag: Tag, lines: seq<Bytes>): seq<Line> {
    seq(|lines|, i requires 0 <= i < |lines| => (tag, lines[i]))
  }

  /** One operation's body lines, from the stretches it spans: context, or deletes before inserts. */
  function OpBody(op: Op, gone: seq<Bytes>, came: seq<Bytes>): seq<Line> {
    match op
    case Equal(_, _, _) => Tagged(Context, gone)
    case Deleted(_, _, _) => Tagged(Delete, gone)
    case Inserted(_, _, _) => Tagged(Insert, came)
    case Replaced(_, _, _, _) => Tagged(Delete, gone) + Tagged(Insert, came)
  }

  function OpLines(op: Op, old0: seq<Bytes>, new0: seq<Bytes>): seq<Line>
    requires OpOk(op, old0, new0)
  {
    OpBody(op, old0[op.oldIndex..op.oldIndex + OldLen(op)], new0[op.newIndex..op.newIndex + NewLen(op)])
  }

  function GroupLines(g: seq<Op>, old0: seq<Bytes>, new0: seq<Bytes>, o: nat, n: nat): seq<Line>
    requires Chain(g, old0, new0, o, n)
  {
    if g == [] then []
    else OpLines(g[0], old0, new0) + GroupLines(g[1..], old0, new0, o + OldLen(g[0]), n + NewLen(g[0]))
  }

  /** One group's hunk: from its first operation's starts to its last one's ends. */
  function HunkOf(g: seq<Op>, index: nat, old0: seq<Bytes>, new0: seq<Bytes>): Hunk
    requires g != [] && Chain(g, old0, new0, g[0].oldIndex, g[0].newIndex)
  {
    var first, last := g[0], g[|g|-1];
    Hunk(index, first.oldIndex, last.oldIndex + OldLen(last), first.newIndex, last.newIndex + NewLen(last),
         GroupLines(g, old0, new0, first.oldIndex, first.newIndex))
  }

  function HunksOf(gs: seq<seq<Op>>, index: nat, old0: seq<Bytes>, new0: seq<Bytes>, o: nat, n: nat): seq<Hunk>
    requires Groups(gs, old0, new0, o, n)
  {
    if gs == [] then []
    else
      var g := gs[0];
      [HunkOf(g, index, old0, new0)]
      + HunksOf(gs[1..], index + 1, old0, new0, g[0].oldIndex + OldSpan(g), g[0].newIndex + NewSpan(g))
  }

  predicate AllEqual(ops: seq<Op>) {
    forall i :: 0 <= i < |ops| ==> ops[i].Equal?
  }

  /** `diff`: no hunks for an all-equal script, else one for each group. */
  function Diff(old0: Bytes, new0: Bytes, ops: seq<Op>, gs: seq<seq<Op>>): seq<Hunk>
    requires IsScript(ops, Split(old0), Split(new0)) && IsGrouping(gs, ops, Split(old0), Split(new0))
  {
    if AllEqual(ops) then [] else HunksOf(gs, 0, Split(old0), Split(new0), 0, 0)
  }

  /** The bytes of the lines that do not carry `drop`. */
  function Side(lines: seq<Line>, drop: Tag): seq<Bytes> {
    if lines == [] then []
    else if lines[0].0 == drop then Side(lines[1..], drop)
    else [lines[0].1] + Side(lines[1..], drop)
  }

  lemma SideHead(lines: seq<Line>, drop: Tag)
    requires lines != []
    ensures Side(lines, drop) == (if lines[0].0 == drop then [] else [lines[0].1]) + Side(lines[1..], drop)
  {
  }

  lemma {:induction false} SideAppend(a: seq<Line>, b: seq<Line>, drop: Tag)
    ensures Side(a + b, drop) == Side(a, drop) + Side(b, drop)
  {
    if a == [] {
      assert a + b == b;
    } else {
      SideAppend(a[1..], b, drop);
      SideHead(a, drop);
      SideHead(a + b, drop);
      assert (a + b)[0] == a[0] && (a + b)[1..] == a[1..] + b;
    }
  }

  lemma {:induction false} SideTagged(tag: Tag, lines: seq<Bytes>, drop: Tag)
    ensures Side(Tagged(tag, lines), drop) == if tag == drop then [] else lines
  {
    if lines != [] {
      SideTagged(tag, lines[1..], drop);
      assert Tagged(tag, lines)[1..] == Tagged(tag, lines[1..]);
    }
  }

  lemma OpSides(op: Op, old0: seq<Bytes>, new0: seq<Bytes>)
    requires OpOk(op, old0, new0)
    ensures Side(OpLines(op, old0, new0), Insert) == old0[op.oldIndex..op.oldIndex + OldLen(op)]
    ensures Side(OpLines(op, old0, new0), Delete) == new0[op.newIndex..op.newIndex + NewLen(op)]
  {
    hide Side, Tagged, OpBody;
    BodySides(op, old0[op.oldIndex..op.oldIndex + OldLen(op)], new0[op.newIndex..op.newIndex + NewLen(op)]);
  }

  lemma BodySides(op: Op, gone: seq<Bytes>, came: seq<Bytes>)
    requires |gone| == OldLen(op) && |came| == NewLen(op) && (op.Equal? ==> gone == came)
    ensures Side(OpBody(op, gone, came), Insert) == gone
    ensures Side(OpBody(op, gone, came), Delete) == came
  {
    hide Side, Tagged;
    SideTagged(Context, gone, Insert);
    SideTagged(Context, gone, Delete);
    SideTagged(Delete, gone, Insert);
    SideTagged(Delete, gone, Delete);
    SideTagged(Insert, came, Insert);
    SideTagged(Insert, came, Delete);
    SideReplaced(gone, came);
  }

  lemma SideReplaced(gone: seq<Bytes>, came: seq<Bytes>)
    ensures Side(Tagged(Delete, gone) + Tagged(Insert, came), Insert) == gone
    ensures Side(Tagged(Delete, gone) + Tagged(Insert, came), Delete) == came
  {
    hide Side, Tagged;
    SideAppend(Tagged(Delete, gone), Tagged(Insert, came), Insert);
    SideAppend(Tagged(Delete, gone), Tagged(Insert, came), Delete);
    SideTagged(Delete, gone, Insert);
    SideTagged(Delete, gone, Delete);
    SideTagged(Insert, came, Insert);
    SideTagged(Insert, came, Delete);
  }

  lemma {:induction false} ChainEnds(g: seq<Op>, old0: seq<Bytes>, new0: seq<Bytes>, o: nat, n: nat)
    requires Chain(g, old0, new0, o, n) && o <= |old0| && n <= |new0|
    ensures o + OldSpan(g) <= |old0| && n + NewSpan(g) <= |new0|
    ensures g != [] ==> g[|g|-1].oldIndex + OldLen(g[|g|-1]) == o + OldSpan(g)
                        && g[|g|-1].newIndex + NewLen(g[|g|-1]) == n + NewSpan(g)
  {
    if g != [] {
      ChainEnds(g[1..], old0, new0, o + OldLen(g[0]), n + NewLen(g[0]));
    }
  }

  lemma SliceJoin<T>(s: seq<T>, a: nat, b: nat, c: nat)
    requires a <= b <= c <= |s|
    ensures s[a..b] + s[b..c] == s[a..c]
  {
  }

  lemma SideJoin(head: seq<Line>, tail: seq<Line>, drop: Tag, s: seq<Bytes>, a: nat, b: nat, c: nat)
    requires a <= b <= c <= |s| && Side(head, drop) == s[a..b] && Side(tail, drop) == s[b..c]
    ensures Side(head + tail, drop) == s[a..c]
  {
    SideAppend(head, tail, drop);
    SliceJoin(s, a, b, c);
  }

  lemma SideNone()
    ensures Side([], Insert) == [] && Side([], Delete) == []
  {
  }

  /** A group's body reads as the old stretch without its inserts... */
  lemma {:induction false} GroupOldSide(g: seq<Op>, old0: seq<Bytes>, new0: seq<Bytes>, o: nat, n: nat)
    requires Chain(g, old0, new0, o, n) && o + OldSpan(g) <= |old0|
    ensures Side(GroupLines(g, old0, new0, o, n), Insert) == old0[o..o + OldSpan(g)]
  {
    hide Side, OpLines;
    if g == [] {
      SideNone();
    } else {
      var o1, n1 := o + OldLen(g[0]), n + NewLen(g[0]);
      GroupOldSide(g[1..], old0, new0, o1, n1);
      OpSides(g[0], old0, new0);
      SideJoin(OpLines(g[0], old0, new0), GroupLines(g[1..], old0, new0, o1, n1), Insert,
               old0, o, o1, o + OldSpan(g));
    }
  }

  /** ...and as the new stretch without its deletes. */
  lemma {:induction false} GroupNewSide(g: seq<Op>, old0: seq<Bytes>, new0: seq<Bytes>, o: nat, n: nat)
    requires Chain(g, old0, new0, o, n) && n + NewSpan(g) <= |new0|
    ensures Side(GroupLines(g, old0, new0, o, n), Delete) == new0[n..n + NewSpan(g)]
  {
    hide Side, OpLines;
    if g == [] {
      SideNone();
    } else {
      var o1, n1 := o + OldLen(g[0]), n + NewLen(g[0]);
      GroupNewSide(g[1..], old0, new0, o1, n1);
      OpSides(g[0], old0, new0);
      SideJoin(OpLines(g[0], old0, new0), GroupLines(g[1..], old0, new0, o1, n1), Delete,
               new0, n, n1, n + NewSpan(g));
    }
  }

  // ---------------------------------------------------------------------------------------
  // Splicing
  // ---------------------------------------------------------------------------------------

  /** The hunks picked by index, whatever order or repetition the picks come in. */
  function Chosen(hunks: seq<Hunk>, selected: seq<nat>): seq<Hunk> {
    if hunks == [] then []
    else if hunks[0].index in selected then [hunks[0]] + Chosen(hunks[1..], selected)
    else Chosen(hunks[1..], selected)
  }

  /** A stable sort by where the hunk starts in the baseline. */
  function SortByStart(hunks: seq<Hunk>): seq<Hunk> {
    if hunks == [] then [] else InsertByStart(hunks[0], SortByStart(hunks[1..]))
  }

  function InsertByStart(h: Hunk, sorted: seq<Hunk>): seq<Hunk> {
    if sorted == [] || h.oldStart <= sorted[0].oldStart then [h] + sorted
    else [sorted[0]] + InsertByStart(h, sorted[1..])
  }

  /** What `apply_hunks` writes from `cursor` on: line numbers are the baseline's throughout. */
  function Spliced(lines: seq<Bytes>, chosen: seq<Hunk>, cursor: nat): seq<Bytes>
    requires cursor <= |lines|
    requires Fit(chosen, |lines|)
  {
    if chosen == [] then lines[cursor..]
    else
      var h := chosen[0];
      var start := Max(h.oldStart, cursor);
      lines[cursor..start] + Side(h.lines, Delete) + Spliced(lines, chosen[1..], Max(h.oldEnd, start))
  }

  /** Non-overlapping hunks in order, none before `o`. */
  predicate Ordered(chosen: seq<Hunk>, o: nat, end: nat) {
    if chosen == [] then o <= end
    else
      && o <= chosen[0].oldStart <= chosen[0].oldEnd <= end
      && Ordered(chosen[1..], chosen[0].oldEnd, end)
  }

  lemma {:induction false} OrderedInside(chosen: seq<Hunk>, o: nat, end: nat)
    requires Ordered(chosen, o, end)
    ensures o <= end
    ensures forall i :: 0 <= i < |chosen| ==> o <= chosen[i].oldStart <= chosen[i].oldEnd <= end
  {
    if chosen != [] {
      OrderedInside(chosen[1..], chosen[0].oldEnd, end);
      assert forall i :: 0 < i < |chosen| ==> chosen[i] == chosen[1..][i-1];
    }
  }

  lemma {:induction false} OrderedIsSorted(chosen: seq<Hunk>, o: nat, end: nat)
    requires Ordered(chosen, o, end)
    ensures SortByStart(chosen) == chosen
  {
    if chosen != [] {
      OrderedIsSorted(chosen[1..], chosen[0].oldEnd, end);
      OrderedInside(chosen[1..], chosen[0].oldEnd, end);
    }
  }

  function Once(lines: seq<Bytes>, h: Hunk): seq<Bytes>
    requires h.oldStart <= h.oldEnd <= |lines|
  {
    lines[..h.oldStart] + Side(h.lines, Delete) + lines[h.oldEnd..]
  }

  /** The plain way: one splice at a time, from the last hunk backwards. */
  function Backwards(lines: seq<Bytes>, chosen: seq<Hunk>): seq<Bytes>
    requires Ordered(chosen, 0, |lines|)
    decreases |chosen|
  {
    if chosen == [] then lines
    else
      var rest, h := chosen[..|chosen|-1], chosen[|chosen|-1];
      OrderedInside(chosen, 0, |lines|);
      OrderedPrefix(chosen, 0, |lines|);
      OrderedWider(rest, 0, h.oldStart, |Once(lines, h)|);
      Backwards(Once(lines, h), rest)
  }

  lemma {:induction false} OrderedPrefix(chosen: seq<Hunk>, o: nat, end: nat)
    requires Ordered(chosen, o, end) && chosen != []
    ensures Ordered(chosen[..|chosen|-1], o, chosen[|chosen|-1].oldStart)
  {
    if |chosen| > 1 {
      OrderedPrefix(chosen[1..], chosen[0].oldEnd, end);
      assert chosen[1..][..|chosen|-2] == chosen[..|chosen|-1][1..];
    }
  }

  lemma {:induction false} OrderedWider(chosen: seq<Hunk>, o: nat, end: nat, wider: nat)
    requires Ordered(chosen, o, end) && end <= wider
    ensures Ordered(chosen, o, wider)
  {
    if chosen != [] {
      OrderedWider(chosen[1..], chosen[0].oldEnd, end, wider);
    }
  }

  lemma LastOnly(lines: seq<Bytes>, h: Hunk, o: nat)
    requires o <= h.oldStart <= h.oldEnd <= |lines|
    ensures Spliced(lines, [h], o) == Spliced(Once(lines, h), [], o)
  {
    assert [h][1..] == [];
    assert Once(lines, h)[o..] == lines[o..h.oldStart] + Side(h.lines, Delete) + lines[h.oldEnd..];
  }

  lemma OnceBefore(lines: seq<Bytes>, h: Hunk, o: nat, e: nat)
    requires o <= e <= h.oldStart <= h.oldEnd <= |lines|
    ensures e <= |Once(lines, h)| && Once(lines, h)[o..e] == lines[o..e]
  {
  }

  lemma OrderedFits(rest: seq<Hunk>, h: Hunk, o: nat, lines: seq<Bytes>)
    requires Ordered(rest + [h], o, |lines|)
    ensures o <= h.oldStart <= h.oldEnd <= |lines|
    ensures Ordered(rest, o, h.oldStart) && Fit(rest, |Once(lines, h)|) && Fit(rest + [h], |lines|)
  {
    var all := rest + [h];
    OrderedInside(all, o, |lines|);
    OrderedPrefix(all, o, |lines|);
    assert all[|rest|] == h && all[..|all|-1] == rest;
    OrderedInside(rest, o, h.oldStart);
  }

  /** Splicing the last hunk first leaves the one pass over the rest unchanged. */
  lemma {:induction false} LastFirst(lines: seq<Bytes>, rest: seq<Hunk>, h: Hunk, o: nat)
    requires Ordered(rest + [h], o, |lines|)
    ensures o <= h.oldStart <= h.oldEnd <= |lines|
    ensures Fit(rest, |Once(lines, h)|) && Fit(rest + [h], |lines|)
    ensures Spliced(lines, rest + [h], o) == Spliced(Once(lines, h), rest, o)
  {
    hide Once, Side;
    OrderedFits(rest, h, o, lines);
    if rest == [] {
      assert rest + [h] == [h];
      LastOnly(lines, h, o);
    } else {
      var f := rest[0];
      assert (rest + [h])[0] == f && (rest + [h])[1..] == rest[1..] + [h];
      LastFirst(lines, rest[1..], h, f.oldEnd);
      OrderedInside(rest, o, h.oldStart);
      OnceBefore(lines, h, o, f.oldStart);
    }
  }

  /** The one pass equals splicing one hunk at a time from the last backwards. */
  lemma {:induction false} OnePassIsBackwards(lines: seq<Bytes>, chosen: seq<Hunk>)
    requires Ordered(chosen, 0, |lines|)
    ensures Fit(chosen, |lines|)
    ensures Spliced(lines, chosen, 0) == Backwards(lines, chosen)
    decreases |chosen|
  {
    OrderedInside(chosen, 0, |lines|);
    if chosen != [] {
      var rest, h := chosen[..|chosen|-1], chosen[|chosen|-1];
      assert chosen == rest + [h];
      LastFirst(lines, rest, h, 0);
      OrderedFits(rest, h, 0, lines);
      var once := Once(lines, h);
      OrderedWider(rest, 0, h.oldStart, |once|);
      OnePassIsBackwards(once, rest);
    }
  }

  predicate Fit(chosen: seq<Hunk>, end: nat) {
    forall i :: 0 <= i < |chosen| ==> chosen[i].oldStart <= end && chosen[i].oldEnd <= end
  }

  /** What `apply_hunks` answers. */
  function Applied(baseline: Bytes, hunks: seq<Hunk>, selected: seq<nat>): Bytes
    requires Fit(Chosen(hunks, selected), |Split(baseline)|)
  {
    ChosenInside(hunks, selected, |Split(baseline)|);
    Concat(Spliced(Split(baseline), SortByStart(Chosen(hunks, selected)), 0))
  }

  /** `apply_hunks`: exactly the selected hunks, in one pass. */
  method ApplyHunks(baseline: Bytes, hunks: seq<Hunk>, selected: seq<nat>) returns (out: Bytes)
    requires Fit(Chosen(hunks, selected), |Split(baseline)|)
    ensures out == Applied(baseline, hunks, selected)
  {
    var lines := SplitLines(baseline);
    var chosen := SortByStart(Chosen(hunks, selected));
    ChosenInside(hunks, selected, |lines|);
    out := [];
    var cursor: nat := 0;
    ghost var whole := Concat(Spliced(lines, chosen, 0));
    ghost var left := chosen;
    for k := 0 to |chosen|
      invariant cursor <= |lines| && left == chosen[k..] && Fit(left, |lines|)
      invariant whole == out + Concat(Spliced(lines, left, cursor))
    {
      SplicedStep(lines, left, cursor, out);
      var h := chosen[k];
      var start: nat := Max(h.oldStart, cursor);
      out := out + Concat(lines[cursor..start]) + Concat(Side(h.lines, Delete));
      cursor := Max(h.oldEnd, start);
      left := left[1..];
    }
    out := out + Concat(lines[cursor..]);
  }

  /** What one turn of the loop has written, and what is left to write. */
  lemma SplicedStep(lines: seq<Bytes>, chosen: seq<Hunk>, cursor: nat, out: Bytes)
    requires chosen != [] && cursor <= |lines| && Fit(chosen, |lines|)
    ensures Fit(chosen[1..], |lines|)
    ensures var start := Max(chosen[0].oldStart, cursor);
            out + Concat(Spliced(lines, chosen, cursor))
            == (out + Concat(lines[cursor..start]) + Concat(Side(chosen[0].lines, Delete)))
               + Concat(Spliced(lines, chosen[1..], Max(chosen[0].oldEnd, start)))
  {
    var h := chosen[0];
    var start: nat := Max(h.oldStart, cursor);
    var head, kept := lines[cursor..start], Side(h.lines, Delete);
    var rest := Spliced(lines, chosen[1..], Max(h.oldEnd, start));
    ConcatAppend(head + kept, rest);
    ConcatAppend(head, kept);
    Reassociate(out, Concat(head), Concat(kept), Concat(rest));
  }

  lemma Reassociate(a: Bytes, b: Bytes, c: Bytes, d: Bytes)
    ensures a + ((b + c) + d) == (a + b + c) + d
  {
  }

  lemma {:induction false} InsertKeeps(h: Hunk, sorted: seq<Hunk>)
    ensures multiset(InsertByStart(h, sorted)) == multiset{h} + multiset(sorted)
  {
    if sorted != [] && !(h.oldStart <= sorted[0].oldStart) {
      InsertKeeps(h, sorted[1..]);
      assert sorted == [sorted[0]] + sorted[1..];
    }
  }

  lemma {:induction false} SortKeeps(hunks: seq<Hunk>)
    ensures multiset(SortByStart(hunks)) == multiset(hunks)
  {
    if hunks != [] {
      SortKeeps(hunks[1..]);
      InsertKeeps(hunks[0], SortByStart(hunks[1..]));
      assert hunks == [hunks[0]] + hunks[1..];
    }
  }

  lemma ChosenInside(hunks: seq<Hunk>, selected: seq<nat>, end: nat)
    requires Fit(Chosen(hunks, selected), end)
    ensures Fit(SortByStart(Chosen(hunks, selected)), end)
  {
    var picked := Chosen(hunks, selected);
    var chosen := SortByStart(picked);
    SortKeeps(picked);
    forall i | 0 <= i < |chosen|
      ensures chosen[i].oldStart <= end && chosen[i].oldEnd <= end
    {
      assert chosen[i] in multiset(chosen);
      assert chosen[i] in picked;
    }
  }
}
