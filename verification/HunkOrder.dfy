/**
 The order things come in: a hunk's deletes before the inserts that replace them, hunks by where
 they start, and baseline lines that overlapping hunks cover at most once.
 */
module HunkOrder {
  import opened Prelude
  import opened Lines
  import opened Text
  import opened Hunks
  import opened HunkLaws

  // ---------------------------------------------------------------------------------------
  // Deletes before inserts
  // ---------------------------------------------------------------------------------------

  /** No inserted line directly before a deleted one. */
  predicate Unified(lines: seq<Line>) {
    forall i, j :: 0 <= i && j == i + 1 < |lines| ==> !(lines[i].0.Insert? && lines[j].0.Delete?)
  }

  /** Kept stretches that keep something, and one between any two changes. */
  predicate Apart(ops: seq<Op>) {
    && KeepsSomething(ops)
    && forall i, j :: 0 <= i && j == i + 1 < |ops| ==> ops[i].Equal? || ops[j].Equal?
  }

  predicate KeepsSomething(ops: seq<Op>) {
    forall i :: 0 <= i < |ops| && ops[i].Equal? ==> ops[i].len > 0
  }

  lemma OpIsUnified(op: Op, gone: seq<Bytes>, came: seq<Bytes>)
    ensures Unified(OpBody(op, gone, came))
  {
  }

  lemma UnifiedJoin(head: seq<Line>, tail: seq<Line>)
    requires Unified(head) && Unified(tail)
    requires head != [] && tail != [] ==> !(head[|head|-1].0.Insert? && tail[0].0.Delete?)
    ensures Unified(head + tail)
  {
    var all := head + tail;
    forall i, j | 0 <= i && j == i + 1 < |all|
      ensures !(all[i].0.Insert? && all[j].0.Delete?)
    {
      assert j < |head| ==> all[i] == head[i] && all[j] == head[j];
      assert i >= |head| ==> all[i] == tail[i - |head|] && all[j] == tail[j - |head|];
    }
  }

  lemma KeptLines(op: Op, old0: seq<Bytes>, new0: seq<Bytes>)
    requires OpOk(op, old0, new0) && op.Equal? && op.len > 0
    ensures OpLines(op, old0, new0) != []
    ensures forall line :: line in OpLines(op, old0, new0) ==> line.0.Context?
  {
    assert OpLines(op, old0, new0)[0].0 == Context;
  }

  lemma {:induction false} GroupIsUnified(g: seq<Op>, old0: seq<Bytes>, new0: seq<Bytes>, o: nat, n: nat)
    requires Chain(g, old0, new0, o, n) && Apart(g)
    ensures Unified(GroupLines(g, old0, new0, o, n))
    ensures g != [] && g[0].Equal? ==>
      var lines := GroupLines(g, old0, new0, o, n); lines != [] && lines[0].0.Context?
  {
    hide OpBody, Tagged, Unified;
    if g == [] {
      NothingIsUnified();
    } else {
      var o1, n1 := o + OldLen(g[0]), n + NewLen(g[0]);
      var head, tail := OpLines(g[0], old0, new0), GroupLines(g[1..], old0, new0, o1, n1);
      TailApart(g);
      GroupIsUnified(g[1..], old0, new0, o1, n1);
      OpIsUnified(g[0], old0[o..o1], new0[n..n1]);
      if g[0].Equal? {
        KeptLines(g[0], old0, new0);
      } else if |g| > 1 {
        assert g[1].Equal? && g[1..][0] == g[1];
      }
      UnifiedJoin(head, tail);
    }
  }

  lemma NothingIsUnified()
    ensures Unified([])
  {
  }

  lemma TailApart(g: seq<Op>)
    requires g != [] && Apart(g)
    ensures Apart(g[1..])
  {
    forall i, j | 0 <= i && j == i + 1 < |g[1..]|
      ensures g[1..][i].Equal? || g[1..][j].Equal?
    {
      assert g[1..][i] == g[i + 1] && g[1..][j] == g[j + 1];
    }
  }

  /** Each change ends before the next one starts. */
  predicate Gapped(cs: seq<Op>) {
    forall i, j :: 0 <= i && j == i + 1 < |cs| ==> cs[i].oldIndex + OldLen(cs[i]) < cs[j].oldIndex
  }

  lemma {:induction false} ApartIsGapped(ops: seq<Op>, old0: seq<Bytes>, new0: seq<Bytes>, o: nat, n: nat)
    requires Chain(ops, old0, new0, o, n) && Apart(ops)
    ensures Gapped(Changes(ops))
    ensures Changes(ops) != [] ==>
      Changes(ops)[0].oldIndex >= o && (ops[0].Equal? ==> Changes(ops)[0].oldIndex > o)
  {
    if ops != [] {
      TailApart(ops);
      var o1 := o + OldLen(ops[0]);
      ApartIsGapped(ops[1..], old0, new0, o1, n + NewLen(ops[0]));
      if !ops[0].Equal? && |ops| > 1 {
        assert ops[1].Equal? && ops[1..][0] == ops[1];
      }
    }
  }

  lemma {:induction false} ChangesAppend(a: seq<Op>, b: seq<Op>)
    ensures Changes(a + b) == Changes(a) + Changes(b)
  {
    hide Changes;
    if a == [] {
      ChangesNone();
      assert a + b == b;
    } else {
      ChangesAppend(a[1..], b);
      ChangesHead(a);
      ChangesHead(a + b);
      assert (a + b)[0] == a[0] && (a + b)[1..] == a[1..] + b;
    }
  }

  lemma ChangesNone()
    ensures Changes([]) == []
  {
  }

  lemma ChangesHead(ops: seq<Op>)
    requires ops != []
    ensures Changes(ops) == (if ops[0].Equal? then [] else [ops[0]]) + Changes(ops[1..])
  {
  }

  /** One group's changes lie together among all of them. */
  lemma {:induction false} GroupChanges(gs: seq<seq<Op>>, m: nat) returns (before: seq<Op>, after: seq<Op>)
    requires m < |gs|
    ensures Changes(Flat(gs)) == before + Changes(gs[m]) + after
  {
    hide Changes;
    ChangesAppend(gs[0], Flat(gs[1..]));
    if m == 0 {
      before, after := [], Changes(Flat(gs[1..]));
      assert [] + Changes(gs[0]) == Changes(gs[0]);
    } else {
      var between;
      between, after := GroupChanges(gs[1..], m - 1);
      before := Changes(gs[0]) + between;
      assert gs[1..][m - 1] == gs[m];
      FourJoin(Changes(gs[0]), between, Changes(gs[m]), after);
    }
  }

  lemma FourJoin(a: seq<Op>, b: seq<Op>, c: seq<Op>, d: seq<Op>)
    ensures a + (b + c + d) == (a + b) + c + d
  {
  }

  lemma GappedPart(before: seq<Op>, cs: seq<Op>, after: seq<Op>)
    requires Gapped(before + cs + after)
    ensures Gapped(cs)
  {
    var all := before + cs + after;
    forall i, j | 0 <= i && j == i + 1 < |cs|
      ensures cs[i].oldIndex + OldLen(cs[i]) < cs[j].oldIndex
    {
      assert all[|before| + i] == cs[i] && all[|before| + j] == cs[j];
    }
  }

  /** Two changes side by side in a chain touch, and stand side by side among the changes. */
  lemma TouchingIsNotGapped(g: seq<Op>, old0: seq<Bytes>, new0: seq<Bytes>, o: nat, n: nat)
    requires Chain(g, old0, new0, o, n) && |g| > 1 && !g[0].Equal? && !g[1].Equal?
    ensures !Gapped(Changes(g))
  {
    var rest := g[1..];
    assert rest[0] == g[1] && rest[0].oldIndex == o + OldLen(g[0]);
    ChangesHead(g);
    ChangesHead(rest);
    assert Changes(g)[0] == g[0] && Changes(g)[1] == g[1];
  }

  lemma {:induction false} NoneSideBySide(g: seq<Op>, old0: seq<Bytes>, new0: seq<Bytes>, o: nat, n: nat)
    requires Chain(g, old0, new0, o, n) && Gapped(Changes(g)) && KeepsSomething(g)
    ensures Apart(g)
  {
    if g != [] {
      var rest := g[1..];
      assert forall i :: 0 <= i < |rest| ==> rest[i] == g[i + 1];
      if g[0].Equal? {
        assert Changes(g) == Changes(rest);
      } else {
        assert Changes(g) == [g[0]] + Changes(rest);
        assert [g[0]] + Changes(rest) + [] == Changes(g);
        GappedPart([g[0]], Changes(rest), []);
        if rest != [] && !rest[0].Equal? {
          TouchingIsNotGapped(g, old0, new0, o, n);
        }
      }
      NoneSideBySide(rest, old0, new0, o + OldLen(g[0]), n + NewLen(g[0]));
      forall i, j | 0 <= i && j == i + 1 < |g|
        ensures g[i].Equal? || g[j].Equal?
      {
        assert i > 0 ==> g[i] == rest[i - 1] && g[j] == rest[j - 1];
        assert i == 0 ==> g[j] == rest[0];
      }
    }
  }

  lemma {:induction false} GroupedIsUnified(gs: seq<seq<Op>>, index: nat, old0: seq<Bytes>, new0: seq<Bytes>,
                                            o: nat, n: nat)
    requires Groups(gs, old0, new0, o, n)
    requires forall m :: 0 <= m < |gs| ==> KeepsSomething(gs[m]) && Gapped(Changes(gs[m]))
    ensures forall i :: 0 <= i < |HunksOf(gs, index, old0, new0, o, n)| ==>
                          Unified(HunksOf(gs, index, old0, new0, o, n)[i].lines)
  {
    hide Unified, Gapped, KeepsSomething, GroupLines;
    if gs != [] {
      var g := gs[0];
      NoneSideBySide(g, old0, new0, g[0].oldIndex, g[0].newIndex);
      GroupIsUnified(g, old0, new0, g[0].oldIndex, g[0].newIndex);
      assert forall m :: 0 <= m < |gs[1..]| ==> gs[1..][m] == gs[m + 1];
      GroupedIsUnified(gs[1..], index + 1, old0, new0, g[0].oldIndex + OldSpan(g), g[0].newIndex + NewSpan(g));
    }
  }

  /**
   In a diff whose script keeps a line between any two changes, no hunk has an inserted line
   directly before a deleted one: what replaces a stretch comes after it.
   */
  lemma DiffIsUnified(old0: Bytes, new0: Bytes, ops: seq<Op>, gs: seq<seq<Op>>)
    requires IsScript(ops, Split(old0), Split(new0)) && IsGrouping(gs, ops, Split(old0), Split(new0))
    requires Apart(ops) && forall m :: 0 <= m < |gs| ==> KeepsSomething(gs[m])
    ensures forall i :: 0 <= i < |Diff(old0, new0, ops, gs)| ==> Unified(Diff(old0, new0, ops, gs)[i].lines)
  {
    if !AllEqual(ops) {
      ApartIsGapped(ops, Split(old0), Split(new0), 0, 0);
      hide Unified, Gapped, KeepsSomething, Apart, Groups, Chain;
      forall m | 0 <= m < |gs|
        ensures Gapped(Changes(gs[m]))
      {
        var before, after := GroupChanges(gs, m);
        GappedPart(before, Changes(gs[m]), after);
      }
      GroupedIsUnified(gs, 0, Split(old0), Split(new0), 0, 0);
    }
  }

  // ---------------------------------------------------------------------------------------
  // Hunks by where they start
  // ---------------------------------------------------------------------------------------

  predicate SortedByStart(hunks: seq<Hunk>) {
    forall i, j :: 0 <= i < j < |hunks| ==> hunks[i].oldStart <= hunks[j].oldStart
  }

  /** The hunks that start at line `v`, in the order they come. */
  function StartingAt(hunks: seq<Hunk>, v: nat): seq<Hunk> {
    if hunks == [] then []
    else (if hunks[0].oldStart == v then [hunks[0]] else []) + StartingAt(hunks[1..], v)
  }

  lemma {:induction false} InsertSorts(h: Hunk, sorted: seq<Hunk>, v: nat)
    requires SortedByStart(sorted)
    ensures SortedByStart(InsertByStart(h, sorted))
    ensures forall x :: x in InsertByStart(h, sorted) <==> x == h || x in sorted
    ensures StartingAt(InsertByStart(h, sorted), v) == StartingAt([h] + sorted, v)
  {
    assert ([h] + sorted)[1..] == sorted;
    if sorted != [] && sorted[0].oldStart < h.oldStart {
      InsertSorts(h, sorted[1..], v);
      var rest := InsertByStart(h, sorted[1..]);
      assert sorted == [sorted[0]] + sorted[1..];
      assert ([h] + sorted[1..])[1..] == sorted[1..] && ([sorted[0]] + rest)[1..] == rest;
      forall j | 0 <= j < |rest|
        ensures sorted[0].oldStart <= rest[j].oldStart
      {
        assert rest[j] in rest;
      }
    }
  }

  /** The sort leaves the hunks ascending by start, the same ones, and ties as they were. */
  lemma {:induction false} SortIsStable(hunks: seq<Hunk>)
    ensures SortedByStart(SortByStart(hunks)) && multiset(SortByStart(hunks)) == multiset(hunks)
    ensures forall v :: StartingAt(SortByStart(hunks), v) == StartingAt(hunks, v)
  {
    SortKeeps(hunks);
    if hunks != [] {
      SortIsStable(hunks[1..]);
      var sorted := SortByStart(hunks[1..]);
      InsertSorts(hunks[0], sorted, 0);
      forall v: nat
        ensures StartingAt(SortByStart(hunks), v) == StartingAt(hunks, v)
      {
        InsertSorts(hunks[0], sorted, v);
        assert ([hunks[0]] + sorted)[1..] == sorted;
      }
    }
  }

  // ---------------------------------------------------------------------------------------
  // Overlapping hunks
  // ---------------------------------------------------------------------------------------

  predicate Covered(done: seq<Hunk>, i: int) {
    exists k :: 0 <= k < |done| && done[k].oldStart <= i < done[k].oldEnd
  }

  /** The baseline lines from `a` to `b` that none of `done` covers. */
  ghost function Uncovered(lines: seq<Bytes>, a: nat, b: nat, done: seq<Hunk>): seq<Bytes>
    requires b <= |lines|
    decreases b - a
  {
    if a >= b then [] else (if Covered(done, a) then [] else [lines[a]]) + Uncovered(lines, a + 1, b, done)
  }

  /** Up to each hunk's start, the lines no earlier hunk covers; then the hunk's new lines. */
  ghost function Woven(lines: seq<Bytes>, done: seq<Hunk>, todo: seq<Hunk>, at: nat): seq<Bytes>
    requires Fit(todo, |lines|)
    decreases |todo|
  {
    if todo == [] then Uncovered(lines, at, |lines|, done)
    else
      Uncovered(lines, at, todo[0].oldStart, done) + Side(todo[0].lines, Delete)
      + Woven(lines, done + [todo[0]], todo[1..], todo[0].oldStart)
  }

  /** From `at` on, what `done` covers is what lies before `cursor`. */
  ghost predicate CoveredBefore(done: seq<Hunk>, at: nat, cursor: nat) {
    at <= cursor && forall i :: at <= i ==> (Covered(done, i) <==> i < cursor)
  }

  lemma {:induction false} UncoveredIsSlice(lines: seq<Bytes>, a: nat, b: nat, done: seq<Hunk>, cursor: nat)
    requires b <= |lines| && cursor <= |lines|
    requires forall i :: a <= i ==> (Covered(done, i) <==> i < cursor)
    ensures Uncovered(lines, a, b, done) == if Max(a, cursor) < b then lines[Max(a, cursor)..b] else []
    decreases b - a
  {
    hide Covered;
    if a < b {
      assert Covered(done, a) <==> a < cursor;
      UncoveredIsSlice(lines, a + 1, b, done, cursor);
    }
  }

  lemma CoversMore(done: seq<Hunk>, h: Hunk, at: nat, cursor: nat)
    requires CoveredBefore(done, at, cursor) && at <= h.oldStart
    ensures CoveredBefore(done + [h], h.oldStart, Max(h.oldEnd, Max(h.oldStart, cursor)))
  {
    var more := done + [h];
    forall i | h.oldStart <= i
      ensures Covered(more, i) <==> i < Max(h.oldEnd, Max(h.oldStart, cursor))
    {
      assert more[|done|] == h;
      assert Covered(done, i) <==> i < cursor;
      if k :| 0 <= k < |done| && done[k].oldStart <= i < done[k].oldEnd {
        assert more[k] == done[k];
      }
      if k :| 0 <= k < |more| && more[k].oldStart <= i < more[k].oldEnd {
        assert k < |done| ==> done[k] == more[k];
      }
    }
  }

  lemma RestSorted(todo: seq<Hunk>)
    requires SortedByStart(todo) && todo != []
    ensures SortedByStart(todo[1..]) && (|todo| > 1 ==> todo[0].oldStart <= todo[1].oldStart)
  {
    assert forall i :: 0 <= i < |todo[1..]| ==> todo[1..][i] == todo[i + 1];
  }

  lemma {:induction false} SplicedIsWoven(lines: seq<Bytes>, done: seq<Hunk>, todo: seq<Hunk>, at: nat, cursor: nat)
    requires Fit(todo, |lines|) && SortedByStart(todo) && cursor <= |lines|
    requires CoveredBefore(done, at, cursor) && (todo != [] ==> at <= todo[0].oldStart)
    ensures Spliced(lines, todo, cursor) == Woven(lines, done, todo, at)
    decreases |todo|
  {
    hide Covered, Side, Uncovered, SortedByStart;
    if todo == [] {
      UncoveredIsSlice(lines, at, |lines|, done, cursor);
    } else {
      var h := todo[0];
      UncoveredIsSlice(lines, at, h.oldStart, done, cursor);
      CoversMore(done, h, at, cursor);
      RestSorted(todo);
      SplicedIsWoven(lines, done + [h], todo[1..], h.oldStart, Max(h.oldEnd, Max(h.oldStart, cursor)));
    }
  }

  /**
   Hunks of any origin, overlapping or not: the pass writes each chosen hunk's new lines where it
   starts, and a baseline line exactly when no chosen hunk that starts before it covers it.
   */
  lemma AppliedIsWoven(baseline: Bytes, hunks: seq<Hunk>, selected: seq<nat>)
    requires Fit(Chosen(hunks, selected), |Split(baseline)|)
    ensures Fit(SortByStart(Chosen(hunks, selected)), |Split(baseline)|)
    ensures Applied(baseline, hunks, selected)
         == Concat(Woven(Split(baseline), [], SortByStart(Chosen(hunks, selected)), 0))
  {
    ChosenInside(hunks, selected, |Split(baseline)|);
    SortIsStable(Chosen(hunks, selected));
    SplicedIsWoven(Split(baseline), [], SortByStart(Chosen(hunks, selected)), 0, 0);
  }
}
