/** Byte buffers as lines that keep their `\n` (`split_lines`). */
module Text {
  import opened Prelude

  const NL: Byte := 10

  function Concat(lines: seq<Bytes>): Bytes {
    if lines == [] then [] else lines[0] + Concat(lines[1..])
  }

  lemma ConcatHead(lines: seq<Bytes>)
    requires lines != []
    ensures Concat(lines) == lines[0] + Concat(lines[1..])
  {
  }

  lemma {:induction false} ConcatAppend(a: seq<Bytes>, b: seq<Bytes>)
    ensures Concat(a + b) == Concat(a) + Concat(b)
  {
    if a == [] {
      assert a + b == b;
    } else {
      ConcatAppend(a[1..], b);
      ConcatHead(a);
      ConcatHead(a + b);
      assert (a + b)[0] == a[0] && (a + b)[1..] == a[1..] + b;
      hide Concat;
      assert a[0] + (Concat(a[1..]) + Concat(b)) == (a[0] + Concat(a[1..])) + Concat(b);
    }
  }

  lemma ConcatOne(line: Bytes)
    ensures Concat([line]) == line
  {
    assert [line][1..] == [];
  }

  /** No line feed but perhaps the last byte. */
  predicate IsLine(line: Bytes) {
    |line| > 0 && forall i :: 0 <= i < |line| - 1 ==> line[i] != NL
  }

  predicate Terminated(line: Bytes) {
    |line| > 0 && line[|line|-1] == NL
  }

  /** Non-empty lines, each ending at its only line feed; the last may lack one. */
  predicate AreLines(lines: seq<Bytes>) {
    && (forall i :: 0 <= i < |lines| ==> IsLine(lines[i]))
    && (forall i :: 0 <= i < |lines| - 1 ==> Terminated(lines[i]))
  }

  /** There is one way to cut a buffer into lines. */
  lemma {:induction false} LinesAreUnique(a: seq<Bytes>, b: seq<Bytes>)
    requires AreLines(a) && AreLines(b) && Concat(a) == Concat(b)
    ensures a == b
  {
    if a != [] && b != [] {
      var text := Concat(a);
      assert forall i :: 0 <= i < |a[0]| ==> text[i] == a[0][i];
      assert forall i :: 0 <= i < |b[0]| ==> text[i] == b[0][i];
      if |a[0]| < |b[0]| {
        FirstIsWhole(a, b);
      } else if |b[0]| < |a[0]| {
        FirstIsWhole(b, a);
      }
      assert a[0] == b[0];
      assert Concat(a[1..]) == text[|a[0]|..] == Concat(b[1..]);
      LinesAreUnique(a[1..], b[1..]);
      assert a == [a[0]] + a[1..] && b == [b[0]] + b[1..];
    }
  }

  lemma FirstIsWhole(a: seq<Bytes>, b: seq<Bytes>)
    requires AreLines(a) && AreLines(b) && Concat(a) == Concat(b) && a != [] && b != []
    ensures |a[0]| >= |b[0]|
  {
    var text := Concat(a);
    assert forall i :: 0 <= i < |a[0]| ==> text[i] == a[0][i];
    assert forall i :: 0 <= i < |b[0]| ==> text[i] == b[0][i];
  }

  /** One past the first line feed, or the end. */
  function FirstEnd(bytes: Bytes): (e: nat)
    requires bytes != []
    ensures 0 < e <= |bytes| && IsLine(bytes[..e])
    ensures e < |bytes| ==> Terminated(bytes[..e])
  {
    if bytes[0] == NL || |bytes| == 1 then 1
    else
      var e := 1 + FirstEnd(bytes[1..]);
      assert bytes[..e][1..] == bytes[1..][..e-1];
      assert forall i :: 0 < i < e - 1 ==> bytes[i] == bytes[1..][..e-1][i-1];
      e
  }

  /** The lines of a buffer. */
  function Split(bytes: Bytes): (lines: seq<Bytes>)
    ensures AreLines(lines) && Concat(lines) == bytes
  {
    if bytes == [] then []
    else
      var e := FirstEnd(bytes);
      var rest := Split(bytes[e..]);
      assert e == |bytes| ==> rest == [];
      assert ([bytes[..e]] + rest)[1..] == rest;
      [bytes[..e]] + rest
  }

  /** The scan that finds them. */
  method SplitLines(bytes: Bytes) returns (lines: seq<Bytes>)
    ensures lines == Split(bytes)
  {
    lines := [];
    var start := 0;
    for i := 0 to |bytes|
      invariant 0 <= start <= i
      invariant forall k :: start <= k < i ==> bytes[k] != NL
      invariant AreLines(lines) && (forall k :: 0 <= k < |lines| ==> Terminated(lines[k]))
      invariant Concat(lines) == bytes[..start]
    {
      if bytes[i] == NL {
        ConcatAppend(lines, [bytes[start..i+1]]);
        ConcatOne(bytes[start..i+1]);
        lines := lines + [bytes[start..i+1]];
        start := i + 1;
      }
    }
    if start < |bytes| {
      ConcatAppend(lines, [bytes[start..]]);
      ConcatOne(bytes[start..]);
      lines := lines + [bytes[start..]];
    }
    LinesAreUnique(lines, Split(bytes));
  }
}
