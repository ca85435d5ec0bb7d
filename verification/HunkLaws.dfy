/** What the hunks of a diff promise: whatever is selected, the splice is the mixed text. */
module HunkLaws {
  import opened Prelude
  import opened Lines
  import opened Text
  import opened Hunks

  /** The groups whose hunks `diff` gives: none when the script only keeps. */
  function Shown(ops: seq<Op>, gs: seq<seq<Op>>): seq<seq<Op>> {
    if AllEqual(ops) then [] else gs
  }

  // ---------------------------------------------------------------------------------------
  // A diff's hunks
  // ---------------------------------------------------------------------------------------

  /** A hunk's ranges are as long as its lines on each side, and it starts where it says. */
  predicate RangesFit(h: Hunk) {
    && h.oldStart <= h.oldEnd && h.newStart <= h.newEnd
    && h.oldEnd - h.oldStart == |Side(h.lines, Insert)|
    && h.newEnd - h.newStart == |Side(h.lines, Delete)|
  }

  /** A hunk without its deletes is the stretch of the new text its new range names. */
  predicate ReadsNew(h: Hunk, new0: seq<Bytes>) {
    h.newStart <= h.newEnd <= |new0| && Side(h.lines, Delete) == new0[h.newStart..h.newEnd]
  }

  lemma HunkEnds(g: seq<Op>, index: nat, old0: seq<Bytes>, new0: seq<Bytes>)
    requires g != [] && Chain(g, old0, new0, g[0].oldIndex, g[0].newIndex)
    requires g[0].oldIndex <= |old0| && g[0].newIndex <= |new0|
    ensures var h := HunkOf(g, index, old0, new0);
      && h.index == index
      && h.oldStart == g[0].oldIndex && h.oldEnd == h.oldStart + OldSpan(g) <= |old0|
      && h.newStart == g[0].newIndex && h.newEnd == h.newStart + NewSpan(g) <= |new0|
      && h.lines == GroupLines(g, old0, new0, h.oldStart, h.newStart)
  {
    ChainEnds(g, old0, new0, g[0].oldIndex, g[0].newIndex);
    hide Chain, OldSpan, NewSpan, OldLen, NewLen, GroupLines;
  }

  lemma HunkFits(g: seq<Op>, index: nat, old0: seq<Bytes>, new0: seq<Bytes>)
    requires g != [] && Chain(g, old0, new0, g[0].oldIndex, g[0].newIndex)
    requires g[0].oldIndex <= |old0| && g[0].newIndex <= |new0|
    ensures var h := HunkOf(g, index, old0, new0);
      && RangesFit(h) && ReadsNew(h, new0) && h.index == index
      && h.oldStart == g[0].oldIndex && h.oldEnd == h.oldStart + OldSpan(g) <= |old0|
      && h.newStart == g[0].newIndex && h.newEnd == h.newStart + NewSpan(g) <= |new0|
  {
    hide Chain, Side, HunkOf, GroupLines, OldSpan, NewSpan, OldLen, NewLen;
    HunkEnds(g, index, old0, new0);
    GroupOldSide(g, old0, new0, g[0].oldIndex, g[0].newIndex);
    GroupNewSide(g, old0, new0, g[0].oldIndex, g[0].newIndex);
  }

  lemma {:induction false} HunksAreOrdered(gs: seq<seq<Op>>, index: nat, old0: seq<Bytes>, new0: seq<Bytes>,
    o: nat, n: nat)
    requires Groups(gs, old0, new0, o, n)
    ensures var hunks := HunksOf(gs, index, old0, new0, o, n);
            && |hunks| == |gs|
            && Ordered(hunks, o, |old0|)
            && (forall i :: 0 <= i < |hunks| ==> hunks[i].index == index + i)
            && (forall i :: 0 <= i < |hunks| ==> RangesFit(hunks[i]))
            && (forall i :: 0 <= i < |hunks| ==> ReadsNew(hunks[i], new0))
  {
    if gs != [] {
      HunkFits(gs[0], index, old0, new0);
      hide HunkOf, RangesFit, ReadsNew, Chain, OldSpan, NewSpan;
      HunksAreOrdered(gs[1..], index + 1, old0, new0,
                      gs[0][0].oldIndex + OldSpan(gs[0]), gs[0][0].newIndex + NewSpan(gs[0]));
    }
  }

  /**
   The old text with exactly the picked hunks' old ranges replaced by their new ranges of the
   new text. It looks at no hunk's lines.
   */
  function Mixed(hunks: seq<Hunk>, old0: seq<Bytes>, new0: seq<Bytes>, o: nat, picked: set<nat>): seq<Bytes>
    requires Ordered(hunks, o, |old0|)
    requires forall i :: 0 <= i < |hunks| ==> hunks[i].newStart <= hunks[i].newEnd <= |new0|
  {
    if hunks == [] then old0[o..]
    else
      var h := hunks[0];
      OrderedInside(hunks, o, |old0|);
      old0[o..h.oldStart]
      + (if h.index in picked then new0[h.newStart..h.newEnd] else old0[h.oldStart..h.oldEnd])
      + Mixed(hunks[1..], old0, new0, h.oldEnd, picked)
  }

  lemma {:induction false} MixedNone(hunks: seq<Hunk>, old0: seq<Bytes>, new0: seq<Bytes>, o: nat, picked: set<nat>)
    requires Ordered(hunks, o, |old0|)
    requires forall i :: 0 <= i < |hunks| ==> hunks[i].newStart <= hunks[i].newEnd <= |new0|
    requires forall i :: 0 <= i < |hunks| ==> hunks[i].index !in picked
    ensures o <= |old0| && Mixed(hunks, old0, new0, o, picked) == old0[o..]
  {
    OrderedInside(hunks, o, |old0|);
    if hunks != [] {
      var h := hunks[0];
      MixedNone(hunks[1..], old0, new0, h.oldEnd, picked);
      Three(old0, o, h.oldStart, h.oldEnd);
    }
  }

  /** Before, between and after the hunks the two texts agree. */
  predicate GapsAgree(hunks: seq<Hunk>, old0: seq<Bytes>, new0: seq<Bytes>, o: nat, n: nat)
    requires Ordered(hunks, o, |old0|)
  {
    OrderedInside(hunks, o, |old0|);
    && n <= |new0|
    && if hunks == [] then old0[o..] == new0[n..]
       else
         var h := hunks[0];
         && n <= h.newStart <= h.newEnd <= |new0|
         && old0[o..h.oldStart] == new0[n..h.newStart]
         && GapsAgree(hunks[1..], old0, new0, h.oldEnd, h.newEnd)
  }

  lemma {:induction false} DiffGapsAgree(gs: seq<seq<Op>>, index: nat, old0: seq<Bytes>, new0: seq<Bytes>,
    o: nat, n: nat)
    requires Groups(gs, old0, new0, o, n)
    ensures Ordered(HunksOf(gs, index, old0, new0, o, n), o, |old0|)
    ensures GapsAgree(HunksOf(gs, index, old0, new0, o, n), old0, new0, o, n)
  {
    HunksAreOrdered(gs, index, old0, new0, o, n);
    if gs != [] {
      var o1, n1 := gs[0][0].oldIndex, gs[0][0].newIndex;
      HunkFits(gs[0], index, old0, new0);
      hide HunkOf, RangesFit, ReadsNew, Chain, OldSpan, NewSpan, GapsAgree, Ordered;
      var h := HunkOf(gs[0], index, old0, new0);
      var rest := HunksOf(gs[1..], index + 1, old0, new0, h.oldEnd, h.newEnd);
      HunksAreOrdered(gs[1..], index + 1, old0, new0, h.oldEnd, h.newEnd);
      DiffGapsAgree(gs[1..], index + 1, old0, new0, h.oldEnd, h.newEnd);
      GapsCons(h, rest, old0, new0, o, n);
    } else {
      hide Ordered;
    }
  }

  lemma GapsCons(h: Hunk, rest: seq<Hunk>, old0: seq<Bytes>, new0: seq<Bytes>, o: nat, n: nat)
    requires Ordered(rest, h.oldEnd, |old0|) && GapsAgree(rest, old0, new0, h.oldEnd, h.newEnd)
    requires o <= h.oldStart <= h.oldEnd <= |old0| && n <= h.newStart <= h.newEnd <= |new0|
    requires old0[o..h.oldStart] == new0[n..h.newStart]
    ensures Ordered([h] + rest, o, |old0|) && GapsAgree([h] + rest, old0, new0, o, n)
  {
    assert ([h] + rest)[1..] == rest;
  }

  lemma Three(s: seq<Bytes>, a: nat, b: nat, c: nat)
    requires a <= b <= c <= |s|
    ensures s[a..b] + s[b..c] + s[c..] == s[a..]
  {
  }

  lemma {:induction false} MixedAll(hunks: seq<Hunk>, old0: seq<Bytes>, new0: seq<Bytes>, o: nat, n: nat,
    picked: set<nat>)
    requires Ordered(hunks, o, |old0|) && GapsAgree(hunks, old0, new0, o, n)
    requires forall i :: 0 <= i < |hunks| ==> hunks[i].newStart <= hunks[i].newEnd <= |new0|
    requires forall i :: 0 <= i < |hunks| ==> hunks[i].index in picked
    ensures n <= |new0| && Mixed(hunks, old0, new0, o, picked) == new0[n..]
  {
    if hunks != [] {
      var h := hunks[0];
      MixedAll(hunks[1..], old0, new0, h.oldEnd, h.newEnd, picked);
      Three(new0, n, h.newStart, h.newEnd);
    }
  }

  lemma {:induction false} ChosenIsOrdered(hunks: seq<Hunk>, selected: seq<nat>, o: nat, end: nat)
    requires Ordered(hunks, o, end)
    ensures Ordered(Chosen(hunks, selected), o, end)
  {
    if hunks != [] {
      ChosenIsOrdered(hunks[1..], selected, hunks[0].oldEnd, end);
      if hunks[0].index !in selected {
        OrderedEarlier(Chosen(hunks[1..], selected), o, hunks[0].oldEnd, end);
      }
    }
  }

  lemma OrderedEarlier(hunks: seq<Hunk>, o: nat, later: nat, end: nat)
    requires Ordered(hunks, later, end) && o <= later
    ensures Ordered(hunks, o, end)
  {
    OrderedInside(hunks, later, end);
  }

  /** Starting the pass earlier only copies more of the baseline first. */
  lemma SplicedEarlier(lines: seq<Bytes>, chosen: seq<Hunk>, a: nat, b: nat)
    requires a <= b <= |lines| && Ordered(chosen, b, |lines|)
    ensures Fit(chosen, |lines|)
    ensures Spliced(lines, chosen, a) == lines[a..b] + Spliced(lines, chosen, b)
  {
    OrderedInside(chosen, b, |lines|);
    if chosen == [] {
      SliceJoin(lines, a, b, |lines|);
    } else {
      var h := chosen[0];
      SplicedHead(lines, h, chosen[1..], a);
      SplicedHead(lines, h, chosen[1..], b);
      assert [h] + chosen[1..] == chosen;
      Join4(lines, a, b, h.oldStart, Side(h.lines, Delete), Spliced(lines, chosen[1..], h.oldEnd));
    }
  }

  lemma Join4(lines: seq<Bytes>, a: nat, b: nat, c: nat, x: seq<Bytes>, y: seq<Bytes>)
    requires a <= b <= c <= |lines|
    ensures lines[a..c] + x + y == lines[a..b] + (lines[b..c] + x + y)
  {
    SliceJoin(lines, a, b, c);
  }

  lemma SplicedHead(lines: seq<Bytes>, h: Hunk, rest: seq<Hunk>, o: nat)
    requires o <= h.oldStart <= h.oldEnd <= |lines| && Fit(rest, |lines|)
    ensures Fit([h] + rest, |lines|)
    ensures Spliced(lines, [h] + rest, o)
            == lines[o..h.oldStart] + Side(h.lines, Delete) + Spliced(lines, rest, h.oldEnd)
  {
    assert ([h] + rest)[1..] == rest;
  }

  lemma SkippedHead(lines: seq<Bytes>, rest: seq<Hunk>, o: nat, o1: nat, o2: nat)
    requires o <= o1 <= o2 <= |lines| && Ordered(rest, o2, |lines|)
    ensures Fit(rest, |lines|)
    ensures Spliced(lines, rest, o) == lines[o..o1] + lines[o1..o2] + Spliced(lines, rest, o2)
  {
    SplicedEarlier(lines, rest, o, o2);
    SliceJoin(lines, o, o1, o2);
  }

  /** One hunk in front of the rest, chosen or not. */
  lemma OneMoreHunk(lines: seq<Bytes>, fresh0: seq<Bytes>, h: Hunk, rest: seq<Hunk>, selected: seq<nat>, o: nat)
    requires o <= h.oldStart && Ordered([h] + rest, o, |lines|) && Side(h.lines, Delete) == fresh0
    ensures Fit(Chosen([h] + rest, selected), |lines|) && Fit(Chosen(rest, selected), |lines|)
    ensures Spliced(lines, Chosen([h] + rest, selected), o)
            == lines[o..h.oldStart]
               + (if h.index in selected then fresh0 else lines[h.oldStart..h.oldEnd])
               + Spliced(lines, Chosen(rest, selected), h.oldEnd)
  {
    assert ([h] + rest)[1..] == rest;
    ChosenHead(h, rest, selected);
    ChosenIsOrdered(rest, selected, h.oldEnd, |lines|);
    OrderedInside(Chosen(rest, selected), h.oldEnd, |lines|);
    if h.index in selected {
      SplicedHead(lines, h, Chosen(rest, selected), o);
    } else {
      assert [] + Chosen(rest, selected) == Chosen(rest, selected);
      SkippedHead(lines, Chosen(rest, selected), o, h.oldStart, h.oldEnd);
    }
  }

  /** The one pass over the chosen hunks writes the mixed text. */
  lemma {:induction false} SplicedIsMixed(hunks: seq<Hunk>, old0: seq<Bytes>, new0: seq<Bytes>, o: nat,
                                          selected: seq<nat>, picked: set<nat>)
    requires Ordered(hunks, o, |old0|)
    requires forall i :: 0 <= i < |hunks| ==> ReadsNew(hunks[i], new0)
    requires forall i :: i in picked <==> i in selected
    ensures Fit(Chosen(hunks, selected), |old0|) && o <= |old0|
    ensures forall i :: 0 <= i < |hunks| ==> hunks[i].newStart <= hunks[i].newEnd <= |new0|
    ensures Spliced(old0, Chosen(hunks, selected), o) == Mixed(hunks, old0, new0, o, picked)
  {
    OrderedInside(hunks, o, |old0|);
    assert forall i :: 0 <= i < |hunks| ==> ReadsNew(hunks[i], new0);
    if hunks != [] {
      var h := hunks[0];
      assert hunks == [h] + hunks[1..];
      assert ReadsNew(h, new0);
      SplicedIsMixed(hunks[1..], old0, new0, h.oldEnd, selected, picked);
      OneMoreHunk(old0, new0[h.newStart..h.newEnd], h, hunks[1..], selected, o);
    }
  }

  lemma ChosenHead(h: Hunk, rest: seq<Hunk>, selected: seq<nat>)
    ensures Chosen([h] + rest, selected)
            == (if h.index in selected then [h] else []) + Chosen(rest, selected)
  {
    assert ([h] + rest)[1..] == rest;
  }

  /** A grouping there always is: the whole script as one group drops nothing. */
  lemma WholeScriptIsGrouping(ops: seq<Op>, old0: seq<Bytes>, new0: seq<Bytes>)
    requires IsScript(ops, old0, new0) && ops != []
    ensures IsGrouping([ops], ops, old0, new0)
  {
    assert [ops][1..] == [];
    assert ops + [] == ops;
    assert old0[|old0|..] == new0[|new0|..];
  }

  // ---------------------------------------------------------------------------------------
  // Main results
  // ---------------------------------------------------------------------------------------

  /** A script that only keeps turns a text into itself. */
  lemma {:induction false} KeepsMeansSame(ops: seq<Op>, old0: seq<Bytes>, new0: seq<Bytes>, o: nat, n: nat)
    requires Chain(ops, old0, new0, o, n) && AllEqual(ops)
    requires o + OldSpan(ops) == |old0| && n + NewSpan(ops) == |new0|
    ensures old0[o..] == new0[n..]
  {
    if ops != [] {
      KeepsMeansSame(ops[1..], old0, new0, o + ops[0].len, n + ops[0].len);
      assert old0[o..] == old0[o..o + ops[0].len] + old0[o + ops[0].len..];
      assert new0[n..] == new0[n..n + ops[0].len] + new0[n + ops[0].len..];
    }
  }

  lemma ShownIsGrouping(ops: seq<Op>, gs: seq<seq<Op>>, old0: seq<Bytes>, new0: seq<Bytes>)
    requires IsScript(ops, old0, new0) && IsGrouping(gs, ops, old0, new0)
    ensures IsGrouping(Shown(ops, gs), ops, old0, new0)
  {
    if AllEqual(ops) {
      KeepsMeansSame(ops, old0, new0, 0, 0);
      NoChanges(ops);
    }
  }

  lemma {:induction false} NoChanges(ops: seq<Op>)
    requires AllEqual(ops)
    ensures Changes(ops) == []
  {
    if ops != [] {
      NoChanges(ops[1..]);
    }
  }

  lemma DiffHunks(old0: Bytes, new0: Bytes, ops: seq<Op>, gs: seq<seq<Op>>)
    requires IsScript(ops, Split(old0), Split(new0)) && IsGrouping(gs, ops, Split(old0), Split(new0))
    ensures IsGrouping(Shown(ops, gs), ops, Split(old0), Split(new0))
    ensures var hunks := Diff(old0, new0, ops, gs);
            && hunks == HunksOf(Shown(ops, gs), 0, Split(old0), Split(new0), 0, 0)
            && Ordered(hunks, 0, |Split(old0)|)
            && Fit(hunks, |Split(old0)|)
            && (forall i :: 0 <= i < |hunks| ==> hunks[i].index == i)
            && (forall i :: 0 <= i < |hunks| ==> RangesFit(hunks[i]))
            && (forall i :: 0 <= i < |hunks| ==> ReadsNew(hunks[i], Split(new0)))
  {
    ShownIsGrouping(ops, gs, Split(old0), Split(new0));
    HunksAreOrdered(Shown(ops, gs), 0, Split(old0), Split(new0), 0, 0);
    OrderedInside(Diff(old0, new0, ops, gs), 0, |Split(old0)|);
  }

  /** Any selection gives the old text with exactly the selected stretches made new. */
  lemma AppliedIsMixed(old0: Bytes, new0: Bytes, ops: seq<Op>, gs: seq<seq<Op>>, selected: seq<nat>, picked: set<nat>)
    requires IsScript(ops, Split(old0), Split(new0)) && IsGrouping(gs, ops, Split(old0), Split(new0))
    requires forall i :: i in picked <==> i in selected
    ensures var hunks := Diff(old0, new0, ops, gs);
            && Fit(Chosen(hunks, selected), |Split(old0)|)
            && Ordered(hunks, 0, |Split(old0)|)
            && (forall i :: 0 <= i < |hunks| ==> hunks[i].newStart <= hunks[i].newEnd <= |Split(new0)|)
            && Applied(old0, hunks, selected) == Concat(Mixed(hunks, Split(old0), Split(new0), 0, picked))
  {
    var hunks := Diff(old0, new0, ops, gs);
    DiffHunks(old0, new0, ops, gs);
    assert forall i :: 0 <= i < |hunks| ==> ReadsNew(hunks[i], Split(new0));
    ChosenIsOrdered(hunks, selected, 0, |Split(old0)|);
    OrderedIsSorted(Chosen(hunks, selected), 0, |Split(old0)|);
    SplicedIsMixed(hunks, Split(old0), Split(new0), 0, selected, picked);
  }

  /** Every hunk selected, in any order and however often: the new bytes. */
  lemma ApplyAll(old0: Bytes, new0: Bytes, ops: seq<Op>, gs: seq<seq<Op>>, selected: seq<nat>)
    requires IsScript(ops, Split(old0), Split(new0)) && IsGrouping(gs, ops, Split(old0), Split(new0))
    requires forall i :: 0 <= i < |Diff(old0, new0, ops, gs)| ==> i in selected
    ensures Fit(Chosen(Diff(old0, new0, ops, gs), selected), |Split(old0)|)
    ensures Applied(old0, Diff(old0, new0, ops, gs), selected) == new0
  {
    var picked := set i | i in selected;
    AppliedIsMixed(old0, new0, ops, gs, selected, picked);
    DiffHunks(old0, new0, ops, gs);
    DiffGapsAgree(Shown(ops, gs), 0, Split(old0), Split(new0), 0, 0);
    MixedAll(Diff(old0, new0, ops, gs), Split(old0), Split(new0), 0, 0, picked);
  }

  /** No hunk selected: the old bytes. */
  lemma ApplyNone(old0: Bytes, new0: Bytes, ops: seq<Op>, gs: seq<seq<Op>>, selected: seq<nat>)
    requires IsScript(ops, Split(old0), Split(new0)) && IsGrouping(gs, ops, Split(old0), Split(new0))
    requires forall i :: 0 <= i < |Diff(old0, new0, ops, gs)| ==> i !in selected
    ensures Fit(Chosen(Diff(old0, new0, ops, gs), selected), |Split(old0)|)
    ensures Applied(old0, Diff(old0, new0, ops, gs), selected) == old0
  {
    var picked := set i | i in selected;
    AppliedIsMixed(old0, new0, ops, gs, selected, picked);
    DiffHunks(old0, new0, ops, gs);
    MixedNone(Diff(old0, new0, ops, gs), Split(old0), Split(new0), 0, picked);
  }

  /** Any selection equals splicing the chosen hunks one at a time, from the last backwards. */
  lemma ApplyIsBackwards(old0: Bytes, new0: Bytes, ops: seq<Op>, gs: seq<seq<Op>>, selected: seq<nat>)
    requires IsScript(ops, Split(old0), Split(new0)) && IsGrouping(gs, ops, Split(old0), Split(new0))
    ensures var hunks := Diff(old0, new0, ops, gs);
            && Fit(Chosen(hunks, selected), |Split(old0)|)
            && Ordered(Chosen(hunks, selected), 0, |Split(old0)|)
            && Applied(old0, hunks, selected) == Concat(Backwards(Split(old0), Chosen(hunks, selected)))
  {
    var hunks := Diff(old0, new0, ops, gs);
    DiffHunks(old0, new0, ops, gs);
    ChosenIsOrdered(hunks, selected, 0, |Split(old0)|);
    OrderedIsSorted(Chosen(hunks, selected), 0, |Split(old0)|);
    OnePassIsBackwards(Split(old0), Chosen(hunks, selected));
  }

  // ---------------------------------------------------------------------------------------
  // Counts
  // ---------------------------------------------------------------------------------------

  function Added(ops: seq<Op>): nat {
    if ops == [] then 0 else (if ops[0].Equal? then 0 else NewLen(ops[0])) + Added(ops[1..])
  }

  function Removed(ops: seq<Op>): nat {
    if ops == [] then 0 else (if ops[0].Equal? then 0 else OldLen(ops[0])) + Removed(ops[1..])
  }

  /** How many of a hunk's lines carry `tag` (`Hunk::counts` takes inserts and deletes). */
  function CountTag(lines: seq<Line>, tag: Tag): nat {
    if lines == [] then 0 else (if lines[0].0 == tag then 1 else 0) + CountTag(lines[1..], tag)
  }

  function CountAll(hunks: seq<Hunk>, tag: Tag): nat {
    if hunks == [] then 0 else CountTag(hunks[0].lines, tag) + CountAll(hunks[1..], tag)
  }

  /** `counts`, off the script alone. */
  method Counts(ops: seq<Op>) returns (added: nat, deleted: nat)
    ensures added == Added(ops) && deleted == Removed(ops)
  {
    added, deleted := 0, 0;
    for i := 0 to |ops|
      invariant added + Added(ops[i..]) == Added(ops) && deleted + Removed(ops[i..]) == Removed(ops)
    {
      match ops[i] {
        case Equal(_, _, _) =>
        case Deleted(_, oldLen, _) => deleted := deleted + oldLen;
        case Inserted(_, _, newLen) => added := added + newLen;
        case Replaced(_, oldLen, _, newLen) =>
          deleted := deleted + oldLen;
          added := added + newLen;
      }
    }
  }

  lemma {:induction false} ChangesCount(ops: seq<Op>)
    ensures Added(Changes(ops)) == Added(ops) && Removed(Changes(ops)) == Removed(ops)
  {
    if ops != [] {
      ChangesCount(ops[1..]);
    }
  }

  lemma {:induction false} CountsAppend(a: seq<Op>, b: seq<Op>)
    ensures Added(a + b) == Added(a) + Added(b) && Removed(a + b) == Removed(a) + Removed(b)
  {
    if a == [] {
      assert a + b == b;
    } else {
      CountsAppend(a[1..], b);
      assert (a + b)[1..] == a[1..] + b;
    }
  }

  lemma {:induction false} CountTagAppend(a: seq<Line>, b: seq<Line>, tag: Tag)
    ensures CountTag(a + b, tag) == CountTag(a, tag) + CountTag(b, tag)
  {
    if a == [] {
      assert a + b == b;
    } else {
      CountTagAppend(a[1..], b, tag);
      assert (a + b)[1..] == a[1..] + b;
    }
  }

  lemma {:induction false} CountTagTagged(tag: Tag, lines: seq<Bytes>, counted: Tag)
    ensures CountTag(Tagged(tag, lines), counted) == if tag == counted then |lines| else 0
  {
    if lines != [] {
      CountTagTagged(tag, lines[1..], counted);
      assert Tagged(tag, lines)[1..] == Tagged(tag, lines[1..]);
    }
  }

  lemma OpCounts(op: Op, old0: seq<Bytes>, new0: seq<Bytes>)
    requires OpOk(op, old0, new0)
    ensures CountTag(OpLines(op, old0, new0), Insert) == (if op.Equal? then 0 else NewLen(op))
    ensures CountTag(OpLines(op, old0, new0), Delete) == (if op.Equal? then 0 else OldLen(op))
  {
    hide CountTag, Tagged, OpBody;
    BodyCounts(op, old0[op.oldIndex..op.oldIndex + OldLen(op)], new0[op.newIndex..op.newIndex + NewLen(op)]);
  }

  lemma BodyCounts(op: Op, gone: seq<Bytes>, came: seq<Bytes>)
    requires |gone| == OldLen(op) && |came| == NewLen(op)
    ensures CountTag(OpBody(op, gone, came), Insert) == (if op.Equal? then 0 else |came|)
    ensures CountTag(OpBody(op, gone, came), Delete) == (if op.Equal? then 0 else |gone|)
  {
    hide CountTag, Tagged;
    CountTagTagged(Context, gone, Insert);
    CountTagTagged(Context, gone, Delete);
    CountTagTagged(Delete, gone, Insert);
    CountTagTagged(Delete, gone, Delete);
    CountTagTagged(Insert, came, Insert);
    CountTagTagged(Insert, came, Delete);
    CountTagReplaced(gone, came);
  }

  lemma CountTagReplaced(gone: seq<Bytes>, came: seq<Bytes>)
    ensures CountTag(Tagged(Delete, gone) + Tagged(Insert, came), Insert) == |came|
    ensures CountTag(Tagged(Delete, gone) + Tagged(Insert, came), Delete) == |gone|
  {
    hide CountTag, Tagged;
    CountTagAppend(Tagged(Delete, gone), Tagged(Insert, came), Insert);
    CountTagAppend(Tagged(Delete, gone), Tagged(Insert, came), Delete);
    CountTagTagged(Delete, gone, Insert);
    CountTagTagged(Delete, gone, Delete);
    CountTagTagged(Insert, came, Insert);
    CountTagTagged(Insert, came, Delete);
  }

  lemma CountTagNone()
    ensures CountTag([], Insert) == 0 && CountTag([], Delete) == 0
  {
  }

  lemma {:induction false} GroupCounts(g: seq<Op>, old0: seq<Bytes>, new0: seq<Bytes>, o: nat, n: nat)
    requires Chain(g, old0, new0, o, n)
    ensures CountTag(GroupLines(g, old0, new0, o, n), Insert) == Added(g)
    ensures CountTag(GroupLines(g, old0, new0, o, n), Delete) == Removed(g)
  {
    hide OpLines, CountTag;
    if g == [] {
      CountTagNone();
    } else {
      var o1, n1 := o + OldLen(g[0]), n + NewLen(g[0]);
      GroupCounts(g[1..], old0, new0, o1, n1);
      OpCounts(g[0], old0, new0);
      var head, tail := OpLines(g[0], old0, new0), GroupLines(g[1..], old0, new0, o1, n1);
      CountTagAppend(head, tail, Insert);
      CountTagAppend(head, tail, Delete);
    }
  }

  lemma {:induction false} HunksCount(gs: seq<seq<Op>>, index: nat, old0: seq<Bytes>, new0: seq<Bytes>, o: nat, n: nat)
    requires Groups(gs, old0, new0, o, n)
    ensures CountAll(HunksOf(gs, index, old0, new0, o, n), Insert) == Added(Flat(gs))
    ensures CountAll(HunksOf(gs, index, old0, new0, o, n), Delete) == Removed(Flat(gs))
  {
    if gs != [] {
      var o1, n1 := gs[0][0].oldIndex, gs[0][0].newIndex;
      GroupCounts(gs[0], old0, new0, o1, n1);
      CountsAppend(gs[0], Flat(gs[1..]));
      HunksCount(gs[1..], index + 1, old0, new0, o1 + OldSpan(gs[0]), n1 + NewSpan(gs[0]));
    }
  }

  /** The hunks' inserts and deletes add up to the whole diff's counts. */
  lemma HunkCountsAddUp(old0: Bytes, new0: Bytes, ops: seq<Op>, gs: seq<seq<Op>>)
    requires IsScript(ops, Split(old0), Split(new0)) && IsGrouping(gs, ops, Split(old0), Split(new0))
    ensures CountAll(Diff(old0, new0, ops, gs), Insert) == Added(ops)
    ensures CountAll(Diff(old0, new0, ops, gs), Delete) == Removed(ops)
  {
    var shown := Shown(ops, gs);
    ShownIsGrouping(ops, gs, Split(old0), Split(new0));
    HunksCount(shown, 0, Split(old0), Split(new0), 0, 0);
    ChangesCount(Flat(shown));
    ChangesCount(ops);
  }

  // ---------------------------------------------------------------------------------------
  // The line cap
  // ---------------------------------------------------------------------------------------

  /** All the body lines, hunk after hunk. */
  function Body(hunks: seq<Hunk>): seq<Line> {
    if hunks == [] then [] else hunks[0].lines + Body(hunks[1..])
  }

  lemma {:induction false} BodyPush(hunks: seq<Hunk>, h: Hunk)
    ensures Body(hunks + [h]) == Body(hunks) + h.lines
  {
    if hunks == [] {
      assert [h][1..] == [] && hunks + [h] == [h];
    } else {
      BodyPush(hunks[1..], h);
      assert (hunks + [h])[1..] == hunks[1..] + [h];
    }
  }

  lemma {:induction false} BodyPrefix(hunks: seq<Hunk>, k: nat)
    requires k <= |hunks|
    ensures Body(hunks[..k]) <= Body(hunks)
  {
    if k > 0 {
      BodyPrefix(hunks[1..], k - 1);
      assert hunks[..k][1..] == hunks[1..][..k-1];
    }
  }

  /** The first `room` lines of a hunk, its ranges narrowed to them. */
  function Part(h: Hunk, room: nat): Hunk
    requires room <= |h.lines|
  {
    var lines := h.lines[..room];
    h.(lines := lines,
    oldEnd := h.oldStart + |Side(lines, Insert)|,
    newEnd := h.newStart + |Side(lines, Delete)|)
  }

  /** Some of a hunk's lines, not all, under ranges as long as they are. */
  predicate IsPart(part: Hunk, h: Hunk) {
    0 < |part.lines| < |h.lines| && RangesFit(part)
  }

  lemma PartIsPart(h: Hunk, room: nat)
    requires 0 < room < |h.lines|
    ensures IsPart(Part(h, room), h) && SamePlace(Part(h, room), h) && |Part(h, room).lines| == room
  {
  }

  lemma WholeIsCutShort(hunks: seq<Hunk>)
    ensures CutShort(hunks, hunks) && CutShort([], hunks)
  {
  }

  lemma CutShortIsPrefix(kept: seq<Hunk>, hunks: seq<Hunk>)
    requires CutShort(kept, hunks)
    ensures Body(kept) <= Body(hunks) && |kept| <= |hunks|
  {
  }

  method Total(hunks: seq<Hunk>) returns (total: nat)
    ensures total == |Body(hunks)|
  {
    total := 0;
    for i := 0 to |hunks|
      invariant total + |Body(hunks[i..])| == |Body(hunks)|
    {
      total := total + |hunks[i].lines|;
    }
  }

  /**
   `truncate`: exactly the first `cap` body lines are shown, the rest are counted as
   omitted, the hunks shown are the first ones with only the last cut short, and a hunk
   cut short has ranges as long as the lines on screen.
   */
  method Truncate(hunks: seq<Hunk>, cap: nat) returns (kept: seq<Hunk>, omitted: nat)
    ensures Body(kept) == Body(hunks)[..Min(cap, |Body(hunks)|)]
    ensures |Body(kept)| + omitted == |Body(hunks)|
    ensures CutShort(kept, hunks)
    ensures forall i :: 0 <= i < |kept| ==> kept[i] == hunks[i] || IsPart(kept[i], hunks[i])
    // Nothing is touched within the cap, and past it no hunk is shown that shows nothing.
    ensures |Body(hunks)| <= cap ==> kept == hunks
    ensures |Body(hunks)| > cap && kept != [] ==> |Body(kept[..|kept|-1])| < cap
  {
    hide RangesFit, Part, CutShort, IsPart;
    var total := Total(hunks);
    WholeIsCutShort(hunks);
    if total <= cap {
      return hunks, 0;
    }
    kept := [];
    var used := 0;
    for k := 0 to |hunks|
      invariant used == |Body(kept)| <= cap
      invariant if used < cap then kept == hunks[..k] else CutShort(kept, hunks)
      invariant Body(kept) <= Body(hunks) && |kept| <= |hunks|
      invariant forall i :: 0 <= i < |kept| ==> kept[i] == hunks[i] || IsPart(kept[i], hunks[i])
      invariant kept != [] ==> |Body(kept[..|kept|-1])| < cap
    {
      if used == cap {
        break;
      }
      var h := hunks[k];
      var room := cap - used;
      var next := if |h.lines| <= room then h else Part(h, room);
      BodyPush(kept, next);
      if |h.lines| > room {
        PartIsPart(h, room);
      }
      ShowOneMore(hunks, k, next);
      CutShortIsPrefix(kept + [next], hunks);
      assert (kept + [next])[..|kept|] == kept;
      kept := kept + [next];
      used := used + |next.lines|;
    }
    assert hunks[..|hunks|] == hunks;
    return kept, total - used;
  }

  const EXPAND_LINE_CAP: nat := 2000

  /** `expand`: a diff under the cap, no range claiming a line that is not on screen. */
  method Expand(old0: Bytes, new0: Bytes, ops: seq<Op>, gs: seq<seq<Op>>) returns (kept: seq<Hunk>, omitted: nat)
    requires IsScript(ops, Split(old0), Split(new0)) && IsGrouping(gs, ops, Split(old0), Split(new0))
    ensures var hunks := Diff(old0, new0, ops, gs);
      && Body(kept) == Body(hunks)[..Min(EXPAND_LINE_CAP, |Body(hunks)|)]
      && |Body(kept)| + omitted == |Body(hunks)|
    ensures forall i :: 0 <= i < |kept| ==> RangesFit(kept[i])
  {
    DiffHunks(old0, new0, ops, gs);
    hide Diff, RangesFit, IsScript, IsGrouping;
    kept, omitted := Truncate(Diff(old0, new0, ops, gs), EXPAND_LINE_CAP);
  }

  /** The first hunks, only the last one cut short. */
  ghost predicate CutShort(kept: seq<Hunk>, hunks: seq<Hunk>) {
    && Body(kept) <= Body(hunks)
    && |kept| <= |hunks|
    && (forall i :: 0 <= i < |kept| ==> SamePlace(kept[i], hunks[i]))
    && (forall i :: 0 <= i < |kept| - 1 ==> kept[i] == hunks[i])
  }

  predicate SamePlace(kept: Hunk, h: Hunk) {
    && kept.index == h.index && kept.oldStart == h.oldStart && kept.newStart == h.newStart
    && kept.lines <= h.lines
  }

  lemma ShowOneMore(hunks: seq<Hunk>, k: nat, next: Hunk)
    requires k < |hunks| && SamePlace(next, hunks[k])
    ensures CutShort(hunks[..k] + [next], hunks)
    ensures next == hunks[k] ==> hunks[..k] + [next] == hunks[..k+1]
  {
    BodyPush(hunks[..k], next);
    BodyPush(hunks[..k], hunks[k]);
    assert hunks[..k] + [hunks[k]] == hunks[..k+1];
    BodyPrefix(hunks, k + 1);
  }
}
