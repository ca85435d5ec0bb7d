/** Byte buffers as pieces between separators, and as NUL-terminated records (`split_nul`). */
module Fields {
  import opened Prelude

  const NUL: Byte := 0
  const TAB: Byte := 9
  const NL: Byte := 10
  const SP: Byte := 32

  function Find(b: Bytes, sep: Byte): (i: nat)
    requires sep in b
    ensures i < |b| && b[i] == sep && forall k :: 0 <= k < i ==> b[k] != sep
  {
    if b[0] == sep then 0 else 1 + Find(b[1..], sep)
  }

  predicate Free(parts: seq<Bytes>, sep: Byte) {
    forall i :: 0 <= i < |parts| ==> sep !in parts[i]
  }

  /** `split`: the pieces between separators, never none. */
  function SplitOn(b: Bytes, sep: Byte): (parts: seq<Bytes>)
    ensures parts != [] && Free(parts, sep)
    decreases |b|
  {
    if sep !in b then [b]
    else
      var i := Find(b, sep);
      [b[..i]] + SplitOn(b[i + 1..], sep)
  }

  function Join(parts: seq<Bytes>, sep: Byte): Bytes
    requires parts != []
  {
    if |parts| == 1 then parts[0] else parts[0] + [sep] + Join(parts[1..], sep)
  }

  lemma {:induction false} JoinSplit(b: Bytes, sep: Byte)
    ensures Join(SplitOn(b, sep), sep) == b
    decreases |b|
  {
    if sep in b {
      var i := Find(b, sep);
      JoinSplit(b[i + 1..], sep);
      assert ([b[..i]] + SplitOn(b[i + 1..], sep))[1..] == SplitOn(b[i + 1..], sep);
      assert b == b[..i] + [sep] + b[i + 1..];
    }
  }

  /** The first separator of a head without one, the separator, and a rest. */
  lemma FirstOf(head: Bytes, sep: Byte, rest: Bytes)
    requires sep !in head
    ensures var b := head + [sep] + rest;
      sep in b && Find(b, sep) == |head| && b[..|head|] == head && b[|head| + 1..] == rest
  {
    var b := head + [sep] + rest;
    assert b[|head|] == sep;
    assert forall k :: 0 <= k < |head| ==> b[k] == head[k];
  }

  lemma SplitFirst(head: Bytes, sep: Byte, rest: Bytes)
    requires sep !in head
    ensures SplitOn(head + [sep] + rest, sep) == [head] + SplitOn(rest, sep)
  {
    FirstOf(head, sep, rest);
  }

  lemma {:induction false} SplitJoin(parts: seq<Bytes>, sep: Byte)
    requires parts != [] && Free(parts, sep)
    ensures SplitOn(Join(parts, sep), sep) == parts
  {
    if |parts| > 1 {
      hide SplitOn;
      SplitFirst(parts[0], sep, Join(parts[1..], sep));
      SplitJoin(parts[1..], sep);
      assert parts == [parts[0]] + parts[1..];
    } else {
      assert parts == [parts[0]];
    }
  }

  /** Splitting and joining are each other's inverse. */
  lemma SplitExactly(b: Bytes, sep: Byte, parts: seq<Bytes>)
    ensures SplitOn(b, sep) == parts <==> parts != [] && Free(parts, sep) && b == Join(parts, sep)
  {
    JoinSplit(b, sep);
    if parts != [] && Free(parts, sep) {
      SplitJoin(parts, sep);
    }
  }

  // ---------------------------------------------------------------------------------------
  // NUL-terminated records
  // ---------------------------------------------------------------------------------------

  /** The records of a buffer: an empty piece at the end is not one. */
  function SplitEnded(b: Bytes, sep: Byte): seq<Bytes> {
    var out := SplitOn(b, sep);
    if out[|out| - 1] == [] then out[..|out| - 1] else out
  }

  function SplitNul(b: Bytes): seq<Bytes> {
    SplitEnded(b, NUL)
  }

  /** Each record and a separator after it. */
  function Ended(recs: seq<Bytes>, sep: Byte): Bytes {
    if recs == [] then [] else recs[0] + [sep] + Ended(recs[1..], sep)
  }

  function Terminated(recs: seq<Bytes>): Bytes {
    Ended(recs, NUL)
  }

  lemma {:induction false} EndedIsJoined(recs: seq<Bytes>, sep: Byte)
    ensures Ended(recs, sep) == Join(recs + [[]], sep)
  {
    if recs != [] {
      EndedIsJoined(recs[1..], sep);
      assert (recs + [[]])[1..] == recs[1..] + [[]];
    }
  }

  /** What was ended splits back, empty records included. */
  lemma SplitEndedInverts(recs: seq<Bytes>, sep: Byte)
    requires Free(recs, sep)
    ensures SplitEnded(Ended(recs, sep), sep) == recs
    ensures SplitOn(Ended(recs, sep), sep) == recs + [[]]
  {
    EndedIsJoined(recs, sep);
    SplitJoin(recs + [[]], sep);
  }

  /** NUL-terminated records split back, whatever other bytes they hold. */
  lemma SplitNulInverts(recs: seq<Bytes>)
    requires Free(recs, NUL)
    ensures SplitNul(Terminated(recs)) == recs
  {
    SplitEndedInverts(recs, NUL);
  }

  lemma {:induction false} JoinLast(parts: seq<Bytes>, sep: Byte)
    requires parts != []
    ensures Join(parts + [[]], sep) == Join(parts, sep) + [sep]
  {
    if |parts| == 1 {
      assert (parts + [[]])[1..] == [[]];
    } else {
      JoinLast(parts[1..], sep);
      assert (parts + [[]])[1..] == parts[1..] + [[]];
    }
  }

  /** Any buffer is its records, terminated: only a last NUL may be missing. */
  lemma SplitNulCovers(b: Bytes)
    ensures Free(SplitNul(b), NUL)
    ensures Terminated(SplitNul(b)) == if b == [] || b[|b| - 1] == NUL then b else b + [NUL]
  {
    var out := SplitOn(b, NUL);
    JoinSplit(b, NUL);
    if out[|out| - 1] == [] {
      LastIsEmpty(out, NUL);
    } else {
      EndedIsJoined(out, NUL);
      JoinLast(out, NUL);
      LastPiece(out, NUL);
    }
  }

  lemma LastIsEmpty(out: seq<Bytes>, sep: Byte)
    requires out != [] && out[|out| - 1] == []
    ensures var b := Join(out, sep); Ended(out[..|out| - 1], sep) == b && (b == [] || b[|b| - 1] == sep)
  {
    var init := out[..|out| - 1];
    assert out == init + [[]];
    EndedIsJoined(init, sep);
    if init != [] {
      JoinLast(init, sep);
    }
  }

  lemma {:induction false} LastPiece(parts: seq<Bytes>, sep: Byte)
    requires parts != [] && Free(parts, sep) && parts[|parts| - 1] != []
    ensures var b := Join(parts, sep); b != [] && b[|b| - 1] != sep
  {
    if |parts| > 1 {
      LastPiece(parts[1..], sep);
    } else {
      var last := parts[0];
      assert last[|last| - 1] in last;
    }
  }
}
