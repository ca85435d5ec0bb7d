/** The log the upstream annotation reads (`parse_log`), and which paths survive it. */
module UpstreamLog {
  import opened Prelude
  import opened Fields
  import GitRecords

  const SOH: Byte := 1
  const STX: Byte := 2

  datatype LogEntry = LogEntry(commit: Bytes, author: Bytes, committer: Bytes, paths: seq<Bytes>)

  /** A NUL or a line feed ends a header and a path alike. */
  predicate Break(b: Byte) {
    b == NUL || b == NL
  }

  function HeaderEnd(chunk: Bytes): (e: nat)
    ensures e <= |chunk| && (forall i :: 0 <= i < e ==> !Break(chunk[i])) && (e < |chunk| ==> Break(chunk[e]))
  {
    if chunk == [] || Break(chunk[0]) then 0 else 1 + HeaderEnd(chunk[1..])
  }

  /** The non-empty pieces between breaks. */
  function Pieces(b: Bytes): seq<Bytes>
    decreases |b|
  {
    if b == [] then []
    else
      var e := HeaderEnd(b);
      (if e > 0 then [b[..e]] else []) + (if e < |b| then Pieces(b[e + 1..]) else [])
  }

  /**
   One chunk: commit, parents, author and committer between STX bytes, then the paths.
   `text` stands for reading a field as text and trimming it.
   */
  function EntryOf(chunk: Bytes, text: Bytes -> Bytes): Option<LogEntry> {
    var e := HeaderEnd(chunk);
    var fields := SplitOn(chunk[..e], STX);
    if |fields| < 4 || !GitRecords.IsOid(text(fields[0])) then None
    else Some(LogEntry(text(fields[0]), text(fields[2]), text(fields[3]), Pieces(chunk[e..])))
  }

  function EntriesOf(chunks: seq<Bytes>, text: Bytes -> Bytes): seq<LogEntry> {
    if chunks == [] then []
    else
      var e := if chunks[0] == [] then None else EntryOf(chunks[0], text);
      (if e.Some? then [e.value] else []) + EntriesOf(chunks[1..], text)
  }

  method ParseLog(bytes: Bytes, text: Bytes -> Bytes) returns (out: seq<LogEntry>)
    ensures out == EntriesOf(SplitOn(bytes, SOH), text)
  {
    var chunks := SplitOn(bytes, SOH);
    out := [];
    assert chunks[0..] == chunks;
    for i := 0 to |chunks|
      invariant EntriesOf(chunks, text) == out + EntriesOf(chunks[i..], text)
    {
      var chunk := chunks[i];
      ghost var rest := EntriesOf(chunks[i + 1..], text);
      assert chunks[i..][1..] == chunks[i + 1..];
      if chunk == [] {
        assert out + ([] + rest) == out + rest;
        continue;
      }
      var e := HeaderEnd(chunk);
      var fields := SplitOn(chunk[..e], STX);
      if |fields| < 4 {
        assert out + ([] + rest) == out + rest;
        continue;
      }
      var commit := text(fields[0]);
      if !GitRecords.IsOid(commit) {
        assert out + ([] + rest) == out + rest;
        continue;
      }
      var entry := LogEntry(commit, text(fields[2]), text(fields[3]), Pieces(chunk[e..]));
      assert out + ([entry] + rest) == (out + [entry]) + rest;
      out := out + [entry];
    }
    assert out + [] == out;
  }

  // ---------------------------------------------------------------------------------------
  // Which paths come through
  // ---------------------------------------------------------------------------------------

  /** A path the log can carry: not empty, with no SOH, NUL or line feed. */
  predicate Clean(path: Bytes) {
    path != [] && SOH !in path && NUL !in path && NL !in path
  }

  lemma HeadIsClean(b: Bytes)
    requires SOH !in b
    ensures HeaderEnd(b) > 0 ==> Clean(b[..HeaderEnd(b)])
  {
    var e := HeaderEnd(b);
    assert forall x :: x in b[..e] ==> x in b && !Break(x);
  }

  lemma {:induction false} PiecesAreClean(b: Bytes)
    requires SOH !in b
    ensures forall p :: p in Pieces(b) ==> Clean(p)
    decreases |b|
  {
    if b != [] {
      var e := HeaderEnd(b);
      HeadIsClean(b);
      hide Clean;
      if e < |b| {
        PiecesAreClean(b[e + 1..]);
      }
    }
  }

  lemma {:induction false} EntriesAreClean(chunks: seq<Bytes>, text: Bytes -> Bytes)
    requires Free(chunks, SOH)
    ensures forall e :: e in EntriesOf(chunks, text) ==>
      GitRecords.IsOid(e.commit) && forall p :: p in e.paths ==> Clean(p)
  {
    if chunks != [] {
      EntriesAreClean(chunks[1..], text);
      var chunk := chunks[0];
      var end := HeaderEnd(chunk);
      assert SOH !in chunk[end..];
      PiecesAreClean(chunk[end..]);
    }
  }

  /** Whatever git printed, no path the log gives has a line feed, a NUL or an SOH in it. */
  lemma PathsAreClean(bytes: Bytes, text: Bytes -> Bytes)
    ensures forall e :: e in EntriesOf(SplitOn(bytes, SOH), text) ==>
      GitRecords.IsOid(e.commit) && forall p :: p in e.paths ==> Clean(p)
  {
    EntriesAreClean(SplitOn(bytes, SOH), text);
  }

  // ---------------------------------------------------------------------------------------
  // Round trip
  // ---------------------------------------------------------------------------------------

  /** A commit as git prints it: its header, then each path it touched. */
  datatype Printed = Printed(commit: Bytes, parents: Bytes, author: Bytes, committer: Bytes, paths: seq<Bytes>)

  function HeaderOf(c: Printed): Bytes {
    Join([c.commit, c.parents, c.author, c.committer], STX)
  }

  function ChunkOf(c: Printed): Bytes {
    HeaderOf(c) + ([NUL, NL] + Terminated(c.paths))
  }

  function Chunks(cs: seq<Printed>): seq<Bytes> {
    seq(|cs|, i requires 0 <= i < |cs| => ChunkOf(cs[i]))
  }

  /** An SOH before each commit. */
  function PrintLog(cs: seq<Printed>): Bytes {
    Join([[]] + Chunks(cs), SOH)
  }

  function Read(c: Printed): LogEntry {
    LogEntry(c.commit, c.author, c.committer, c.paths)
  }

  /** Fields that are text already and hold none of the bytes the log is cut at. */
  predicate FineHeader(c: Printed, text: Bytes -> Bytes) {
    var fields := [c.commit, c.parents, c.author, c.committer];
    && GitRecords.IsOid(c.commit)
    && text(c.commit) == c.commit && text(c.author) == c.author && text(c.committer) == c.committer
    && Free(fields, SOH) && Free(fields, STX) && Free(fields, NUL) && Free(fields, NL)
  }

  /** A path's own bytes are cut only at its separators. */
  predicate NoMark(c: Printed) {
    Free(c.paths, SOH)
  }

  lemma HeaderEndIs(head: Bytes, rest: Bytes)
    requires NUL !in head && NL !in head && rest != [] && Break(rest[0])
    ensures HeaderEnd(head + rest) == |head|
    ensures (head + rest)[..|head|] == head && (head + rest)[|head|..] == rest
  {
    var b := head + rest;
    var e := HeaderEnd(b);
    assert forall i :: 0 <= i < |head| ==> b[i] == head[i] && b[i] in head;
    assert b[|head|] == rest[0];
  }

  lemma PiecesAfter(p: Bytes, x: Byte, rest: Bytes)
    requires Clean(p) && Break(x)
    ensures Pieces(p + ([x] + rest)) == [p] + Pieces(rest)
  {
    var b := p + ([x] + rest);
    HeaderEndIs(p, [x] + rest);
    assert b[|p| + 1..] == rest;
  }

  lemma {:induction false} PiecesOfPaths(paths: seq<Bytes>)
    requires forall p :: p in paths ==> Clean(p)
    ensures Pieces(Terminated(paths)) == paths
  {
    if paths != [] {
      PiecesAfter(paths[0], NUL, Terminated(paths[1..]));
      assert Terminated(paths) == paths[0] + ([NUL] + Terminated(paths[1..]));
      PiecesOfPaths(paths[1..]);
      assert paths == [paths[0]] + paths[1..];
    }
  }

  lemma PiecesSkipBreak(b: Byte, rest: Bytes)
    requires Break(b)
    ensures Pieces([b] + rest) == Pieces(rest)
  {
    assert ([b] + rest)[1..] == rest;
    assert [] + Pieces(rest) == Pieces(rest);
  }

  lemma ChunkReads(c: Printed, text: Bytes -> Bytes)
    requires FineHeader(c, text)
    ensures ChunkOf(c) != []
    ensures EntryOf(ChunkOf(c), text) == Some(Read(c).(paths := Pieces(Terminated(c.paths))))
  {
    var fields := [c.commit, c.parents, c.author, c.committer];
    var rest := [NUL, NL] + Terminated(c.paths);
    GitRecords.JoinFree(fields, STX, NUL);
    GitRecords.JoinFree(fields, STX, NL);
    HeaderEndIs(HeaderOf(c), rest);
    SplitJoin(fields, STX);
    PiecesSkipBoth(Terminated(c.paths));
    hide Join, SplitOn, Pieces, HeaderEnd, Free, Terminated, GitRecords.IsOid;
    assert ChunkOf(c)[..|HeaderOf(c)|] == HeaderOf(c);
  }

  lemma PiecesSkipBoth(rest: Bytes)
    ensures Pieces([NUL, NL] + rest) == Pieces(rest)
  {
    assert [NUL, NL] + rest == [NUL] + ([NL] + rest);
    PiecesSkipBreak(NUL, [NL] + rest);
    PiecesSkipBreak(NL, rest);
  }

  lemma ChunkIsMarkFree(c: Printed, text: Bytes -> Bytes)
    requires FineHeader(c, text) && NoMark(c)
    ensures SOH !in ChunkOf(c)
  {
    var fields := [c.commit, c.parents, c.author, c.committer];
    GitRecords.JoinFree(fields, STX, SOH);
    EndedIsJoined(c.paths, NUL);
    GitRecords.JoinFree(c.paths + [[]], NUL, SOH);
  }

  lemma SplitLog(cs: seq<Printed>, text: Bytes -> Bytes)
    requires forall i :: 0 <= i < |cs| ==> FineHeader(cs[i], text) && NoMark(cs[i])
    ensures SplitOn(PrintLog(cs), SOH) == [[]] + Chunks(cs)
  {
    forall i | 0 <= i < |cs|
      ensures SOH !in Chunks(cs)[i]
    {
      ChunkIsMarkFree(cs[i], text);
    }
    SplitJoin([[]] + Chunks(cs), SOH);
  }

  function ReadAll(cs: seq<Printed>): seq<LogEntry> {
    seq(|cs|, i requires 0 <= i < |cs| => Read(cs[i]))
  }

  lemma {:induction false} ChunksRead(cs: seq<Printed>, text: Bytes -> Bytes)
    requires forall i :: 0 <= i < |cs| ==> FineHeader(cs[i], text)
    requires forall i, p :: 0 <= i < |cs| && p in cs[i].paths ==> Clean(p)
    ensures EntriesOf(Chunks(cs), text) == ReadAll(cs)
  {
    hide FineHeader, EntryOf, ChunkOf, Pieces, Clean, Terminated;
    if cs != [] {
      ChunkReads(cs[0], text);
      PiecesOfPaths(cs[0].paths);
      ChunksRead(cs[1..], text);
      assert Chunks(cs)[1..] == Chunks(cs[1..]);
      assert ReadAll(cs) == [Read(cs[0])] + ReadAll(cs[1..]);
    }
  }

  /** The log comes back as printed exactly when every path in it is one the log can carry. */
  lemma LogRoundTripExactly(cs: seq<Printed>, text: Bytes -> Bytes)
    requires forall i :: 0 <= i < |cs| ==> FineHeader(cs[i], text)
    ensures EntriesOf(SplitOn(PrintLog(cs), SOH), text) == ReadAll(cs)
       <==> forall i, p :: 0 <= i < |cs| && p in cs[i].paths ==> Clean(p)
  {
    var entries := EntriesOf(SplitOn(PrintLog(cs), SOH), text);
    if forall i, p :: 0 <= i < |cs| && p in cs[i].paths ==> Clean(p) {
      CleanLogReads(cs, text);
    }
    if entries == ReadAll(cs) {
      PathsAreClean(PrintLog(cs), text);
      hide FineHeader, EntriesOf, PrintLog, Clean, SplitOn;
      forall i, p | 0 <= i < |cs| && p in cs[i].paths
        ensures Clean(p)
      {
        assert entries[i] == Read(cs[i]) && entries[i] in entries;
      }
    }
  }

  lemma CleanLogReads(cs: seq<Printed>, text: Bytes -> Bytes)
    requires forall i :: 0 <= i < |cs| ==> FineHeader(cs[i], text)
    requires forall i, p :: 0 <= i < |cs| && p in cs[i].paths ==> Clean(p)
    ensures EntriesOf(SplitOn(PrintLog(cs), SOH), text) == ReadAll(cs)
  {
    forall i | 0 <= i < |cs|
      ensures NoMark(cs[i])
    {
      forall k | 0 <= k < |cs[i].paths|
        ensures SOH !in cs[i].paths[k]
      {
        assert cs[i].paths[k] in cs[i].paths && Clean(cs[i].paths[k]);
      }
    }
    SplitLog(cs, text);
    hide FineHeader, EntryOf, Clean, NoMark, SplitOn, PrintLog, Chunks;
    ChunksRead(cs, text);
    assert ([[]] + Chunks(cs))[1..] == Chunks(cs);
    assert [] + EntriesOf(Chunks(cs), text) == EntriesOf(Chunks(cs), text);
  }

  lemma EntriesHead(chunks: seq<Bytes>, text: Bytes -> Bytes)
    requires chunks != []
    ensures EntriesOf(chunks, text) == EntriesOf([chunks[0]], text) + EntriesOf(chunks[1..], text)
  {
    hide EntryOf;
    assert [chunks[0]][1..] == [];
  }

  lemma NoEntries(text: Bytes -> Bytes)
    ensures EntriesOf([], text) == []
  {
  }

  lemma {:induction false} EntriesAppend(a: seq<Bytes>, b: seq<Bytes>, text: Bytes -> Bytes)
    ensures EntriesOf(a + b, text) == EntriesOf(a, text) + EntriesOf(b, text)
  {
    hide *;
    var y := EntriesOf(b, text);
    if a == [] {
      NoEntries(text);
      assert a + b == b && [] + y == y;
    } else {
      EntriesAppend(a[1..], b, text);
      EntriesHead(a, text);
      EntriesHead(a + b, text);
      assert (a + b)[0] == a[0] && (a + b)[1..] == a[1..] + b;
      var head, x := EntriesOf([a[0]], text), EntriesOf(a[1..], text);
      assert head + (x + y) == (head + x) + y;
    }
  }

  lemma NoEntry(bad: Bytes, text: Bytes -> Bytes)
    requires bad == [] || EntryOf(bad, text).None?
    ensures EntriesOf([bad], text) == []
  {
    assert [bad][1..] == [];
  }

  /** A chunk that is no entry costs its own commit and no other, before it or after it. */
  lemma BadChunkIsPassedOver(before: seq<Printed>, bad: Bytes, after: seq<Printed>, text: Bytes -> Bytes)
    requires forall i :: 0 <= i < |before| ==> CleanCommit(before[i], text)
    requires forall i :: 0 <= i < |after| ==> CleanCommit(after[i], text)
    requires SOH !in bad && (bad == [] || EntryOf(bad, text).None?)
    ensures EntriesOf(SplitOn(Join([[]] + (Chunks(before) + ([bad] + Chunks(after))), SOH), SOH), text)
         == ReadAll(before) + ReadAll(after)
  {
    ChunksAreFree(before, text);
    ChunksAreFree(after, text);
    CleanChunksRead(before, text);
    CleanChunksRead(after, text);
    hide *;
    FreeAround(Chunks(before), bad, Chunks(after));
    SplitJoin([[]] + (Chunks(before) + ([bad] + Chunks(after))), SOH);
    EntriesAround(Chunks(before), bad, Chunks(after), text);
  }

  lemma FreeAround(a: seq<Bytes>, bad: Bytes, b: seq<Bytes>)
    requires Free(a, SOH) && Free(b, SOH) && SOH !in bad
    ensures Free([[]] + (a + ([bad] + b)), SOH)
  {
  }

  lemma EntriesAround(a: seq<Bytes>, bad: Bytes, b: seq<Bytes>, text: Bytes -> Bytes)
    requires bad == [] || EntryOf(bad, text).None?
    ensures EntriesOf([[]] + (a + ([bad] + b)), text) == EntriesOf(a, text) + EntriesOf(b, text)
  {
    NoEntry([], text);
    NoEntry(bad, text);
    hide *;
    EntriesAppend([[]], a + ([bad] + b), text);
    EntriesAppend(a, [bad] + b, text);
    EntriesAppend([bad], b, text);
    Nothing(EntriesOf(a, text), EntriesOf(b, text));
  }

  lemma Nothing(a: seq<LogEntry>, b: seq<LogEntry>)
    ensures [] + (a + ([] + b)) == a + b
  {
  }

  /** A commit with a header that reads and paths the log can carry. */
  predicate CleanCommit(c: Printed, text: Bytes -> Bytes) {
    FineHeader(c, text) && forall p :: p in c.paths ==> Clean(p)
  }

  lemma CleanChunksRead(cs: seq<Printed>, text: Bytes -> Bytes)
    requires forall i :: 0 <= i < |cs| ==> CleanCommit(cs[i], text)
    ensures EntriesOf(Chunks(cs), text) == ReadAll(cs)
  {
    hide FineHeader, Clean, Chunks, ReadAll, EntriesOf;
    ChunksRead(cs, text);
  }

  lemma ChunksAreFree(cs: seq<Printed>, text: Bytes -> Bytes)
    requires forall i :: 0 <= i < |cs| ==> CleanCommit(cs[i], text)
    ensures Free(Chunks(cs), SOH)
  {
    forall i | 0 <= i < |cs|
      ensures SOH !in Chunks(cs)[i]
    {
      assert CleanCommit(cs[i], text);
      forall k | 0 <= k < |cs[i].paths|
        ensures SOH !in cs[i].paths[k]
      {
        assert cs[i].paths[k] in cs[i].paths && Clean(cs[i].paths[k]);
      }
      ChunkIsMarkFree(cs[i], text);
    }
  }

  /** A commit that touched one path with a line feed in it reads as one that touched the two halves. */
  lemma LineFeedCutsPath(c: Printed, text: Bytes -> Bytes, a: Bytes, b: Bytes)
    requires FineHeader(c, text) && Clean(a) && Clean(b) && c.paths == [a + [NL] + b]
    ensures EntryOf(ChunkOf(c), text) == Some(Read(c).(paths := [a, b]))
  {
    ChunkReads(c, text);
    TwoHalves(a, b);
    EndedOnce(c.paths[0]);
    assert c.paths == [c.paths[0]];
  }

  lemma EndedOnce(p: Bytes)
    ensures Terminated([p]) == p + [NUL]
  {
    var rest := [p][1..];
    assert rest == [];
    assert Ended([p], NUL) == p + [NUL] + Ended(rest, NUL);
  }

  lemma TwoHalves(a: Bytes, b: Bytes)
    requires Clean(a) && Clean(b)
    ensures Pieces(a + [NL] + b + [NUL]) == [a, b]
  {
    hide Clean, Pieces;
    var none: Bytes := [];
    var rest := b + ([NUL] + none);
    PiecesAfter(a, NL, rest);
    PiecesAfter(b, NUL, none);
    PiecesOfNothing();
    assert a + [NL] + b + [NUL] == a + ([NL] + rest);
    assert Pieces(rest) == [b] + Pieces(none) == [b];
    assert [a] + [b] == [a, b];
  }

  lemma PiecesOfNothing()
    ensures Pieces([]) == []
  {
  }
}
