/**
 A hunk's lines as one byte buffer and one `(tag, end)` entry a line (`hunks::Lines`),
 against the plain sequence of tagged lines it stands for.
 */
module Lines {
  import opened Prelude

  datatype Tag = Context | Delete | Insert

  type Line = (Tag, Bytes)

  /** Offsets are 32 bits wide; a push past that panics. */
  const LIMIT: nat := 0x1_0000_0000

  /** The two vectors. */
  datatype Buffer = Buffer(bytes: Bytes, ends: seq<(Tag, nat)>)

  function Start(b: Buffer, i: nat): nat
    requires i <= |b.ends|
  {
    if i == 0 then 0 else b.ends[i-1].1
  }

  predicate Valid(b: Buffer) {
    && |b.bytes| < LIMIT
    && Start(b, |b.ends|) == |b.bytes|
    && (forall i :: 0 <= i < |b.ends| ==> Start(b, i) <= b.ends[i].1)
    && (forall i :: 0 <= i < |b.ends| ==> b.ends[i].1 <= |b.bytes|)
  }

  function LineAt(b: Buffer, i: nat): Line
    requires Valid(b) && i < |b.ends|
  {
    (b.ends[i].0, b.bytes[Start(b, i)..b.ends[i].1])
  }

  /** The sequence of lines a buffer stands for. */
  function View(b: Buffer): seq<Line>
    requires Valid(b)
  {
    seq(|b.ends|, i requires 0 <= i < |b.ends| => LineAt(b, i))
  }

  function Joined(lines: seq<Line>): Bytes {
    if lines == [] then [] else Joined(lines[..|lines|-1]) + lines[|lines|-1].1
  }

  function Cut(b: Buffer, n: nat): Buffer
    requires Valid(b) && n <= |b.ends|
  {
    Buffer(b.bytes[..Start(b, n)], b.ends[..n])
  }

  lemma CutIsPrefix(b: Buffer, n: nat)
    requires Valid(b) && n <= |b.ends|
    ensures Valid(Cut(b, n)) && View(Cut(b, n)) == View(b)[..n]
  {
    CutIsValid(b, n);
    hide Valid, Start, LineAt;
    var c := Cut(b, n);
    forall i | 0 <= i < n
      ensures LineAt(c, i) == LineAt(b, i)
    {
      CutKeepsLine(b, n, i);
    }
    assert |View(c)| == n && forall i :: 0 <= i < n ==> View(c)[i] == View(b)[..n][i];
  }

  lemma CutIsValid(b: Buffer, n: nat)
    requires Valid(b) && n <= |b.ends|
    ensures Valid(Cut(b, n)) && |Cut(b, n).ends| == n
  {
    var c := Cut(b, n);
    EndsAscend(b, n);
    forall i | 0 <= i < n
      ensures Start(c, i) == Start(b, i) && c.ends[i].1 <= |c.bytes|
    {
    }
  }

  lemma CutKeepsLine(b: Buffer, n: nat, i: nat)
    requires Valid(b) && i < n <= |b.ends| && Valid(Cut(b, n))
    ensures LineAt(Cut(b, n), i) == LineAt(b, i)
  {
    EndsAscend(b, n);
    SliceOfPrefix(b.bytes, Start(b, n), Start(b, i), b.ends[i].1);
  }

  lemma SliceOfPrefix(s: Bytes, m: nat, i: nat, j: nat)
    requires i <= j <= m <= |s|
    ensures s[..m][i..j] == s[i..j]
  {
  }

  lemma {:induction false} EndsAscend(b: Buffer, n: nat)
    requires Valid(b) && n <= |b.ends|
    ensures forall i :: 0 <= i < n ==> b.ends[i].1 <= Start(b, n)
  {
    if n > 0 {
      EndsAscend(b, n - 1);
      assert Start(b, n - 1) <= b.ends[n-1].1;
    }
  }

  lemma LastLine(b: Buffer)
    requires Valid(b) && |b.ends| > 0
    ensures var n := |b.ends| - 1;
      |View(b)| == n + 1 && b.bytes == Cut(b, n).bytes + View(b)[n].1
  {
    var n := |b.ends| - 1;
    assert View(b)[n] == LineAt(b, n);
    assert b.bytes[Start(b, n)..b.ends[n].1] == b.bytes[Start(b, n)..];
  }

  /** The bytes are the lines' bytes, one after another. */
  lemma {:induction false} BytesAreJoined(b: Buffer)
    requires Valid(b)
    ensures Joined(View(b)) == b.bytes
    decreases |b.ends|
  {
    hide View, LineAt, Valid, Start;
    if |b.ends| == 0 {
      NoLines(b);
    } else {
      var n := |b.ends| - 1;
      CutIsPrefix(b, n);
      CutIsValid(b, n);
      BytesAreJoined(Cut(b, n));
      LastLine(b);
    }
  }

  lemma NoLines(b: Buffer)
    requires Valid(b) && |b.ends| == 0
    ensures View(b) == [] && b.bytes == []
  {
  }

  lemma {:induction false} SameLinesSameStarts(a: Buffer, b: Buffer, i: nat)
    requires Valid(a) && Valid(b) && View(a) == View(b) && i <= |a.ends| == |b.ends|
    ensures Start(a, i) == Start(b, i)
  {
    if i > 0 {
      SameLinesSameStarts(a, b, i - 1);
      assert |View(a)[i-1].1| == Start(a, i) - Start(a, i - 1);
      assert |View(b)[i-1].1| == Start(b, i) - Start(b, i - 1);
    }
  }

  /** Two buffers are equal field by field exactly when they stand for the same lines. */
  lemma EqualExactlyWhenSameLines(a: Buffer, b: Buffer)
    requires Valid(a) && Valid(b)
    ensures a == b <==> View(a) == View(b)
  {
    if View(a) == View(b) {
      BytesAreJoined(a);
      BytesAreJoined(b);
      assert |a.ends| == |View(a)| == |View(b)| == |b.ends|;
      forall i | 0 <= i < |a.ends|
        ensures a.ends[i] == b.ends[i]
      {
        SameLinesSameStarts(a, b, i + 1);
        assert View(a)[i].0 == View(b)[i].0;
      }
    }
  }

  /** One more line at the end. */
  lemma PushIsAppend(b: Buffer, tag: Tag, line: Bytes)
    requires Valid(b) && |b.bytes| + |line| < LIMIT
    ensures var c := Buffer(b.bytes + line, b.ends + [(tag, |b.bytes| + |line|)]);
            Valid(c) && View(c) == View(b) + [(tag, line)]
  {
    var c := Buffer(b.bytes + line, b.ends + [(tag, |b.bytes| + |line|)]);
    PushIsValid(b, tag, line);
    forall i | 0 <= i < |b.ends|
      ensures LineAt(c, i) == LineAt(b, i)
    {
      PushKeepsLine(b, tag, line, i);
    }
    PushedLine(b, tag, line);
    hide Valid, Start, LineAt;
  }

  lemma PushIsValid(b: Buffer, tag: Tag, line: Bytes)
    requires Valid(b) && |b.bytes| + |line| < LIMIT
    ensures Valid(Buffer(b.bytes + line, b.ends + [(tag, |b.bytes| + |line|)]))
  {
    var c := Buffer(b.bytes + line, b.ends + [(tag, |b.bytes| + |line|)]);
    assert forall i :: 0 <= i <= |b.ends| ==> Start(c, i) == Start(b, i);
  }

  lemma PushKeepsLine(b: Buffer, tag: Tag, line: Bytes, i: nat)
    requires Valid(b) && i < |b.ends|
    requires Valid(Buffer(b.bytes + line, b.ends + [(tag, |b.bytes| + |line|)]))
    ensures LineAt(Buffer(b.bytes + line, b.ends + [(tag, |b.bytes| + |line|)]), i) == LineAt(b, i)
  {
    var c := Buffer(b.bytes + line, b.ends + [(tag, |b.bytes| + |line|)]);
    assert Start(c, i) == Start(b, i);
    assert c.bytes[Start(b, i)..b.ends[i].1] == b.bytes[Start(b, i)..b.ends[i].1];
  }

  lemma PushedLine(b: Buffer, tag: Tag, line: Bytes)
    requires Valid(b) && Valid(Buffer(b.bytes + line, b.ends + [(tag, |b.bytes| + |line|)]))
    ensures LineAt(Buffer(b.bytes + line, b.ends + [(tag, |b.bytes| + |line|)]), |b.ends|) == (tag, line)
  {
    var c := Buffer(b.bytes + line, b.ends + [(tag, |b.bytes| + |line|)]);
    assert Start(c, |b.ends|) == Start(b, |b.ends|);
    assert c.bytes[|b.bytes|..|b.bytes| + |line|] == line;
  }

  class Lines {
    var bytes: Bytes
    var ends: seq<(Tag, nat)>

    function Fields(): Buffer
      reads this
    {
      Buffer(bytes, ends)
    }

    predicate Ok()
      reads this
    {
      Valid(Fields())
    }

    constructor ()
      ensures Ok() && View(Fields()) == []
    {
      bytes, ends := [], [];
    }

    method Push(tag: Tag, line: Bytes)
      requires Ok() && |bytes| + |line| < LIMIT
      modifies this
      ensures Ok() && View(Fields()) == old(View(Fields())) + [(tag, line)]
      ensures |bytes| == old(|bytes|) + |line|
    {
      PushIsAppend(Fields(), tag, line);
      bytes := bytes + line;
      ends := ends + [(tag, |bytes|)];
    }

    method Get(i: nat) returns (line: Option<Line>)
      requires Ok()
      ensures line == if i < |View(Fields())| then Some(View(Fields())[i]) else None
    {
      if i >= |ends| {
        return None;
      }
      var (tag, end) := ends[i];
      var start := if i == 0 then 0 else ends[i-1].1;
      assert start == Start(Fields(), i);
      return Some((tag, bytes[start..end]));
    }

    /** What is left is a prefix of the sequence. */
    method Truncate(n: nat)
      requires Ok()
      modifies this
      ensures Ok() && View(Fields()) == old(View(Fields()))[..Min(n, old(|View(Fields())|))]
      ensures |bytes| <= old(|bytes|)
    {
      if n >= |ends| {
        return;
      }
      CutIsPrefix(Fields(), n);
      var end := if n == 0 then 0 else ends[n-1].1;
      ends := ends[..n];
      bytes := bytes[..end];
    }
  }

  /** `Lines::iter`: a range of the lines, taken from either end. */
  class LinesIter {
    const lines: Buffer
    var lo: nat
    var hi: nat

    predicate Ok()
      reads this
    {
      Valid(lines) && lo <= hi <= |lines.ends|
    }

    function Remaining(): seq<Line>
      reads this
      requires Ok()
    {
      View(lines)[lo..hi]
    }

    constructor (lines: Buffer)
      requires Valid(lines)
      ensures Ok() && Remaining() == View(lines) && this.lines == lines
    {
      this.lines := lines;
      lo, hi := 0, |lines.ends|;
    }

    method Next() returns (line: Option<Line>)
      requires Ok()
      modifies this
      ensures Ok()
      ensures if |old(Remaining())| == 0 then line.None? && Remaining() == []
              else line == Some(old(Remaining())[0]) && Remaining() == old(Remaining())[1..]
    {
      if lo == hi {
        return None;
      }
      line := Some(LineAt(lines, lo));
      lo := lo + 1;
    }

    method NextBack() returns (line: Option<Line>)
      requires Ok()
      modifies this
      ensures Ok()
      ensures if |old(Remaining())| == 0 then line.None? && Remaining() == []
              else line == Some(old(Remaining())[|old(Remaining())|-1])
                   && Remaining() == old(Remaining())[..|old(Remaining())|-1]
    {
      if lo == hi {
        return None;
      }
      hi := hi - 1;
      line := Some(LineAt(lines, hi));
    }

    /** Any mix of steps from the two ends: what came off them closes around what is left. */
    method Drain(fromBack: seq<bool>) returns (front: seq<Line>, back: seq<Line>)
      requires Ok()
      modifies this
      ensures Ok() && front + Remaining() + back == old(Remaining())
      ensures |front| + |back| == Min(|fromBack|, |old(Remaining())|)
    {
      front, back := [], [];
      ghost var all := Remaining();
      for k := 0 to |fromBack|
        invariant Ok() && front + Remaining() + back == all
        invariant |front| + |back| == Min(k, |all|)
      {
        front, back := DrainOne(fromBack[k], front, back);
      }
    }

    method DrainOne(fromBack: bool, front: seq<Line>, back: seq<Line>) returns (f: seq<Line>, b: seq<Line>)
      requires Ok()
      modifies this
      ensures Ok() && f + Remaining() + b == front + old(Remaining()) + back
      ensures |f| + |b| == |front| + |back| + Min(1, |old(Remaining())|)
    {
      f, b := front, back;
      ghost var before := Remaining();
      var line;
      if fromBack {
        line := NextBack();
        if line.Some? {
          b := [line.value] + back;
          OffTheBack(front, Remaining(), line.value, back, before);
        }
      } else {
        line := Next();
        if line.Some? {
          f := front + [line.value];
          OffTheFront(front, line.value, Remaining(), back, before);
        }
      }
    }
  }

  lemma OffTheBack(front: seq<Line>, left: seq<Line>, x: Line, back: seq<Line>, before: seq<Line>)
    requires |before| > 0 && x == before[|before|-1] && left == before[..|before|-1]
    ensures front + left + ([x] + back) == front + before + back
  {
    assert before == left + [x];
  }

  lemma OffTheFront(front: seq<Line>, x: Line, left: seq<Line>, back: seq<Line>, before: seq<Line>)
    requires |before| > 0 && x == before[0] && left == before[1..]
    ensures (front + [x]) + left + back == front + before + back
  {
    assert before == [x] + left;
  }

  /** Operations on a hunk's lines, for whole runs of them. */
  datatype Change = Pushed(tag: Tag, line: Bytes) | Truncated(n: nat)

  /** The plain sequence under the same operations. */
  function Replay(lines: seq<Line>, run: seq<Change>): seq<Line> {
    if run == [] then lines
    else
      var c := run[|run|-1];
      var before := Replay(lines, run[..|run|-1]);
      match c
      case Pushed(tag, line) => before + [(tag, line)]
      case Truncated(n) => before[..Min(n, |before|)]
  }

  function PushedBytes(run: seq<Change>): nat {
    if run == [] then 0
    else PushedBytes(run[..|run|-1]) + if run[|run|-1].Pushed? then |run[|run|-1].line| else 0
  }

  lemma {:induction false} PushedBytesGrow(run: seq<Change>, k: nat)
    requires k <= |run|
    ensures PushedBytes(run[..k]) <= PushedBytes(run)
    decreases |run|
  {
    if k < |run| {
      PushedBytesGrow(run[..|run|-1], k);
      assert run[..|run|-1][..k] == run[..k];
    } else {
      assert run[..k] == run;
    }
  }

  /** Any run of pushes and truncations leaves the buffer standing for the replayed sequence. */
  method Build(run: seq<Change>) returns (lines: Lines)
    requires PushedBytes(run) < LIMIT
    ensures fresh(lines) && lines.Ok() && View(lines.Fields()) == Replay([], run)
  {
    lines := new Lines();
    for k := 0 to |run|
      invariant fresh(lines) && lines.Ok() && |lines.bytes| <= PushedBytes(run[..k])
      invariant View(lines.Fields()) == Replay([], run[..k])
    {
      assert run[..k+1][..k] == run[..k];
      PushedBytesGrow(run, k + 1);
      match run[k] {
        case Pushed(tag, line) => lines.Push(tag, line);
        case Truncated(n) => lines.Truncate(n);
      }
    }
    assert run[..|run|] == run;
  }
}
