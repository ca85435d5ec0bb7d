/**
 The upstream annotation (`classify`, `annotate`): set algebra over the commits of some heads,
 then one batched question whose flattened answers must reach the right rows.
 */
module Upstream {
  import opened Prelude
  import opened Fields
  import opened UpstreamLog
  import GitRecords

  // ---------------------------------------------------------------------------------------
  // `classify`
  // ---------------------------------------------------------------------------------------

  /** What git said of one head: a failed call, no merge base, or the range's commits. */
  datatype HeadAnswer = Failed | NoBase | Range(notRemote: set<Bytes>, log: Bytes)

  datatype Classification = Classification(heads: seq<Bytes>, upstreamOnly: set<Bytes>, both: set<Bytes>)

  predicate Mine(e: LogEntry, email: Option<Bytes>) {
    email.Some? && email.value != [] && (e.author == email.value || e.committer == email.value)
  }

  predicate FromUpstream(e: LogEntry, notRemote: set<Bytes>, email: Option<Bytes>) {
    e.commit !in notRemote && !Mine(e, email)
  }

  /** A commit others made and published: a remote has it, and neither name on it is mine. */
  ghost predicate ByOthers(e: LogEntry, notRemote: set<Bytes>, email: Option<Bytes>) {
    && e.commit !in notRemote
    && forall mine :: email == Some(mine) && |mine| > 0 ==> mine !in {e.author, e.committer}
  }

  lemma UpstreamIsByOthers(e: LogEntry, notRemote: set<Bytes>, email: Option<Bytes>)
    ensures FromUpstream(e, notRemote, email) <==> ByOthers(e, notRemote, email)
  {
    if email.Some? && email.value == [] {
      assert forall mine :: email == Some(mine) ==> mine == [];
    }
  }

  /** A commit of this range, from upstream or not as `up` says, touched the path. */
  ghost predicate TouchedIn(a: HeadAnswer, email: Option<Bytes>, text: Bytes -> Bytes, p: Bytes, up: bool) {
    a.Range?
    && exists e :: e in EntriesOf(SplitOn(a.log, SOH), text)
                   && ByOthers(e, a.notRemote, email) == up && p in e.paths
  }

  ghost predicate Touched(answers: seq<HeadAnswer>, email: Option<Bytes>, text: Bytes -> Bytes, p: Bytes, up: bool) {
    exists i :: 0 <= i < |answers| && TouchedIn(answers[i], email, text, p, up)
  }

  /** The two sets, path by path. */
  ghost predicate Classified(c: Classification, answers: seq<HeadAnswer>, email: Option<Bytes>, text: Bytes -> Bytes) {
    forall p ::
      && (p in c.upstreamOnly <==>
            Touched(answers, email, text, p, true) && !Touched(answers, email, text, p, false))
      && (p in c.both <==>
            Touched(answers, email, text, p, true) && Touched(answers, email, text, p, false))
  }

  /** The sets share no path, and together hold what commits from upstream touched. */
  lemma ClassifiedDivides(c: Classification, answers: seq<HeadAnswer>, email: Option<Bytes>, text: Bytes -> Bytes)
    requires Classified(c, answers, email, text)
    ensures c.upstreamOnly !! c.both
    ensures forall p :: p in c.upstreamOnly + c.both <==> Touched(answers, email, text, p, true)
  {
    hide Touched;
  }

  /** The same commits, in any order, however often the log repeats one. */
  ghost predicate SameCommits(x: HeadAnswer, y: HeadAnswer, text: Bytes -> Bytes) {
    && (x.Range? <==> y.Range?)
    && (x.Range? ==>
          && x.notRemote == y.notRemote
          && forall e :: e in EntriesOf(SplitOn(x.log, SOH), text) <==> e in EntriesOf(SplitOn(y.log, SOH), text))
  }

  /** Every head of the one has a head of the other with the same commits. */
  ghost predicate CoveredBy(a: seq<HeadAnswer>, b: seq<HeadAnswer>, text: Bytes -> Bytes) {
    forall i :: 0 <= i < |a| ==> exists j :: 0 <= j < |b| && SameCommits(a[i], b[j], text)
  }

  lemma CoveredTouches(a: seq<HeadAnswer>, b: seq<HeadAnswer>, email: Option<Bytes>, text: Bytes -> Bytes,
                       p: Bytes, up: bool)
    requires CoveredBy(a, b, text) && Touched(a, email, text, p, up)
    ensures Touched(b, email, text, p, up)
  {
    var i :| 0 <= i < |a| && TouchedIn(a[i], email, text, p, up);
    var j :| 0 <= j < |b| && SameCommits(a[i], b[j], text);
    assert TouchedIn(b[j], email, text, p, up);
  }

  /** Neither the order of the heads nor that of the commits in their logs matters. */
  lemma OrderDoesNotMatter(a: seq<HeadAnswer>, b: seq<HeadAnswer>, email: Option<Bytes>, text: Bytes -> Bytes,
                           c: Classification, d: Classification)
    requires CoveredBy(a, b, text) && CoveredBy(b, a, text)
    requires Classified(c, a, email, text) && Classified(d, b, email, text)
    ensures c.upstreamOnly == d.upstreamOnly && c.both == d.both
  {
    hide CoveredBy, Touched;
    forall p, up
      ensures Touched(a, email, text, p, up) <==> Touched(b, email, text, p, up)
    {
      if Touched(a, email, text, p, up) {
        CoveredTouches(a, b, email, text, p, up);
      }
      if Touched(b, email, text, p, up) {
        CoveredTouches(b, a, email, text, p, up);
      }
    }
  }

  /** One range's commits, sorted into the two sets. */
  method SortCommits(a: HeadAnswer, email: Option<Bytes>, text: Bytes -> Bytes, u: set<Bytes>, lm: set<Bytes>)
    returns (u': set<Bytes>, lm': set<Bytes>)
    requires a.Range?
    ensures forall p :: p in u' <==> p in u || TouchedIn(a, email, text, p, true)
    ensures forall p :: p in lm' <==> p in lm || TouchedIn(a, email, text, p, false)
  {
    hide FromUpstream, ByOthers, EntriesOf, SplitOn;
    var entries := ParseLog(a.log, text);
    u', lm' := u, lm;
    for k := 0 to |entries|
      invariant forall p :: p in u' <==>
        p in u || exists e :: e in entries[..k] && ByOthers(e, a.notRemote, email) && p in e.paths
      invariant forall p :: p in lm' <==>
        p in lm || exists e :: e in entries[..k] && !ByOthers(e, a.notRemote, email) && p in e.paths
    {
      var e := entries[k];
      assert entries[..k + 1] == entries[..k] + [e];
      UpstreamIsByOthers(e, a.notRemote, email);
      var touched := set p | p in e.paths;
      if FromUpstream(e, a.notRemote, email) {
        u' := u' + touched;
      } else {
        lm' := lm' + touched;
      }
    }
    assert entries[..|entries|] == entries;
  }

  /** The upstream paths nobody here touched, and those somebody did. */
  method Divide(u: set<Bytes>, lm: set<Bytes>) returns (only: set<Bytes>, both: set<Bytes>)
    ensures only == u - lm && both == u * lm
  {
    only, both := {}, {};
    var left := u;
    while left != {}
      invariant left <= u && only == (u - left) - lm && both == (u - left) * lm
      decreases |left|
    {
      var p :| p in left;
      left := left - {p};
      if p in lm {
        both := both + {p};
      } else {
        only := only + {p};
      }
    }
  }

  /** Nothing is classified without a seen head, in a shallow repository, or without a head. */
  predicate Idle(seenHead: Option<Bytes>, shallow: bool, heads: seq<Bytes>) {
    seenHead.None? || shallow || heads == []
  }

  /** What a classification made from logs is: its paths are ones a log can carry. */
  ghost predicate FromLog(c: Classification) {
    forall p :: p in c.upstreamOnly + c.both ==> Clean(p)
  }

  /** `answers` are git's, head by head; no result when a call fails. */
  method Classify(seenHead: Option<Bytes>, shallow: bool, heads: seq<Bytes>, answers: seq<HeadAnswer>,
                  email: Option<Bytes>, text: Bytes -> Bytes)
    returns (r: Option<Classification>)
    requires |answers| == |heads|
    ensures r.Some? ==> r.value.heads == heads
    ensures seenHead.None? || shallow || heads == [] ==> r == Some(Classification(heads, {}, {}))
    ensures seenHead.Some? && !shallow && heads != [] ==>
              && (r.None? <==> Failed in answers)
              && (r.Some? ==> Classified(r.value, answers, email, text))
    ensures r.Some? ==> FromLog(r.value)
  {
    hide TouchedIn, Touched, Clean;
    if Idle(seenHead, shallow, heads) {
      return Some(Classification(heads, {}, {}));
    }
    var u: set<Bytes>, lm: set<Bytes> := {}, {};
    NoBaseTouchesNothing(email, text);
    assert answers[..0] == [];
    for i := 0 to |heads|
      invariant Failed !in answers[..i]
      invariant forall p :: p in u <==> Touched(answers[..i], email, text, p, true)
      invariant forall p :: p in lm <==> Touched(answers[..i], email, text, p, false)
    {
      assert answers[..i + 1] == answers[..i] + [answers[i]];
      OneMoreHead(answers, i, email, text);
      match answers[i] {
        case Failed =>
          return None;
        case NoBase =>
        case Range(_, _) =>
          u, lm := SortCommits(answers[i], email, text, u, lm);
      }
    }
    assert answers[..|heads|] == answers;
    var only, both := Divide(u, lm);
    forall p | p in only + both
      ensures Clean(p)
    {
      TouchedIsClean(answers, email, text, p, true);
    }
    r := Some(Classification(heads, only, both));
  }

  lemma NoBaseTouchesNothing(email: Option<Bytes>, text: Bytes -> Bytes)
    ensures forall p, up :: !TouchedIn(NoBase, email, text, p, up) && !Touched([], email, text, p, up)
  {
  }

  lemma OneMoreHead(answers: seq<HeadAnswer>, i: nat, email: Option<Bytes>, text: Bytes -> Bytes)
    requires i < |answers|
    ensures forall p, up :: Touched(answers[..i + 1], email, text, p, up) <==>
      Touched(answers[..i], email, text, p, up) || TouchedIn(answers[i], email, text, p, up)
  {
    hide TouchedIn;
    var more, fewer := answers[..i + 1], answers[..i];
    forall p, up
      ensures Touched(more, email, text, p, up) <==>
        Touched(fewer, email, text, p, up) || TouchedIn(answers[i], email, text, p, up)
    {
      if k :| 0 <= k < |more| && TouchedIn(more[k], email, text, p, up) {
        assert k < i ==> fewer[k] == more[k];
      }
      if k :| 0 <= k < |fewer| && TouchedIn(fewer[k], email, text, p, up) {
        assert more[k] == fewer[k];
      }
      if TouchedIn(answers[i], email, text, p, up) {
        assert more[i] == answers[i];
      }
    }
  }

  lemma TouchedIsClean(answers: seq<HeadAnswer>, email: Option<Bytes>, text: Bytes -> Bytes, p: Bytes, up: bool)
    requires Touched(answers, email, text, p, up)
    ensures Clean(p)
  {
    var i :| 0 <= i < |answers| && TouchedIn(answers[i], email, text, p, up);
    PathsAreClean(answers[i].log, text);
  }

  // ---------------------------------------------------------------------------------------
  // `cat-file --batch-check`
  // ---------------------------------------------------------------------------------------

  const COLON: Byte := 58

  /** `blob`. */
  const BLOB: Bytes := [98, 108, 111, 98]

  /** An object with its type and size, or a word such as `missing`. */
  datatype Answer = Object(oid: Bytes, kind: Bytes, size: Bytes) | Gone(word: Bytes)

  type Store = Bytes -> Answer

  /** What git prints of an object keeps to its line and its columns. */
  ghost predicate IsGit(store: Store) {
    forall spec :: match store(spec)
                   case Object(oid, kind, size) => GitRecords.IsOid(oid) && Column(kind) && Column(size)
                   case Gone(word) => NL !in word
  }

  predicate Column(s: Bytes) {
    SP !in s && NL !in s
  }

  function ReplyLine(spec: Bytes, a: Answer): Bytes {
    match a
    case Object(oid, kind, size) => Join([oid, kind, size], SP)
    case Gone(word) => spec + [SP] + word
  }

  function ReplyLines(specs: seq<Bytes>, store: Store): seq<Bytes> {
    seq(|specs|, i requires 0 <= i < |specs| => ReplyLine(specs[i], store(specs[i])))
  }

  /** git reads a spec a line and answers each with a line. */
  function Reply(stdin: Bytes, store: Store): Bytes {
    Ended(ReplyLines(SplitEnded(stdin, NL), store), NL)
  }

  function ReadAnswer(line: Bytes): Option<Bytes> {
    var parts := SplitOn(line, SP);
    if |parts| >= 3 && parts[1] == BLOB && GitRecords.IsOid(parts[0]) then Some(parts[0]) else None
  }

  function ReadAnswers(lines: seq<Bytes>): seq<Option<Bytes>> {
    if lines == [] then []
    else (if lines[0] == [] then [] else [ReadAnswer(lines[0])]) + ReadAnswers(lines[1..])
  }

  function ParseBatchOids(bytes: Bytes): seq<Option<Bytes>> {
    ReadAnswers(SplitOn(bytes, NL))
  }

  /** The blob a spec names. */
  function BlobAt(store: Store, spec: Bytes): Option<Bytes> {
    match store(spec)
    case Object(oid, kind, _) => if kind == BLOB then Some(oid) else None
    case Gone(_) => None
  }

  function Spec(head: Bytes, path: Bytes): Bytes {
    head + [COLON] + path
  }

  lemma ObjectReads(oid: Bytes, kind: Bytes, size: Bytes)
    requires GitRecords.IsOid(oid) && Column(kind) && Column(size)
    ensures var line := Join([oid, kind, size], SP);
      line != [] && NL !in line && ReadAnswer(line) == if kind == BLOB then Some(oid) else None
  {
    GitRecords.OidIsWord(oid);
    assert NL !in oid;
    GitRecords.JoinFree([oid, kind, size], SP, NL);
    SplitJoin([oid, kind, size], SP);
    assert Join([oid, kind, size], SP)[0] == oid[0];
  }

  /** A line that starts with a spec has a colon in its first column. */
  lemma SpecIsNoOid(head: Bytes, rest: Bytes)
    requires GitRecords.IsOid(head) && SP in rest
    ensures ReadAnswer(head + [COLON] + rest) == None
  {
    var line := head + [COLON] + rest;
    assert line[|head|] == COLON;
    assert forall i :: 0 <= i < |head| ==> line[i] == head[i];
    assert rest == line[|head| + 1..];
    var first := SplitOn(line, SP)[0];
    assert Find(line, SP) > |head|;
    assert first[|head|] == COLON;
  }

  /** An answer line is read as the blob it tells of: a missing spec is never one, whatever spaces its path has. */
  lemma LineReads(head: Bytes, path: Bytes, store: Store)
    requires GitRecords.IsOid(head) && NL !in path && IsGit(store)
    ensures var spec := Spec(head, path); var line := ReplyLine(spec, store(spec));
      line != [] && NL !in line && ReadAnswer(line) == BlobAt(store, spec)
  {
    hide ReadAnswer;
    var spec := Spec(head, path);
    match store(spec) {
      case Object(oid, kind, size) =>
        ObjectReads(oid, kind, size);
      case Gone(word) =>
        GitRecords.OidIsWord(head);
        assert NL !in head;
        SpecIsNoOid(head, path + [SP] + word);
        assert spec + [SP] + word == head + [COLON] + (path + [SP] + word);
    }
  }

  lemma {:induction false} NonEmptyLines(lines: seq<Bytes>)
    requires forall i :: 0 <= i < |lines| ==> lines[i] != []
    ensures ReadAnswers(lines + [[]]) == seq(|lines|, i requires 0 <= i < |lines| => ReadAnswer(lines[i]))
  {
    if lines == [] {
      assert ReadAnswers([[]]) == [];
    } else {
      NonEmptyLines(lines[1..]);
      assert (lines + [[]])[1..] == lines[1..] + [[]];
    }
  }

  ghost predicate Asks(spec: Bytes) {
    exists head, path :: GitRecords.IsOid(head) && NL !in path && spec == Spec(head, path)
  }

  /** Answers come back one a spec, in order. */
  lemma BatchAnswers(specs: seq<Bytes>, store: Store)
    requires IsGit(store) && forall i :: 0 <= i < |specs| ==> Asks(specs[i])
    ensures |ParseBatchOids(Reply(Ended(specs, NL), store))| == |specs|
    ensures forall i :: 0 <= i < |specs| ==>
      ParseBatchOids(Reply(Ended(specs, NL), store))[i] == BlobAt(store, specs[i])
  {
    var lines := ReplyLines(specs, store);
    forall i | 0 <= i < |specs|
      ensures NL !in specs[i] && lines[i] != [] && NL !in lines[i]
      ensures ReadAnswer(lines[i]) == BlobAt(store, specs[i])
    {
      var head, path :| GitRecords.IsOid(head) && NL !in path && specs[i] == Spec(head, path);
      GitRecords.OidIsWord(head);
      assert NL !in head;
      LineReads(head, path, store);
    }
    SplitEndedInverts(specs, NL);
    SplitEndedInverts(lines, NL);
    NonEmptyLines(lines);
  }

  // ---------------------------------------------------------------------------------------
  // `annotate`
  // ---------------------------------------------------------------------------------------

  datatype Annotation = Upstream | Mixed

  datatype Row = Row(path: Bytes, current: Option<Bytes>, annotation: Option<Annotation>)

  /** The row's content is the path's blob at some head. */
  ghost predicate AtSomeHead(row: Row, heads: seq<Bytes>, store: Store) {
    row.current.Some? && exists h :: h in heads && BlobAt(store, Spec(h, row.path)) == row.current
  }

  /** What the documentation promises of one row, each object looked up on its own. */
  ghost function Annotated(row: Row, c: Classification, store: Store): Row {
    if row.path in c.upstreamOnly then
      row.(annotation := Some(if AtSomeHead(row, c.heads, store) then Upstream else Mixed))
    else if row.path in c.both then row.(annotation := Some(Mixed))
    else row
  }

  predicate Candidate(row: Row, c: Classification) {
    row.path in c.upstreamOnly && row.current.Some?
  }

  /** The question about one row at one head. */
  ghost predicate IsQuestion(q: (nat, Bytes), rows: seq<Row>, c: Classification) {
    && q.0 < |rows| && rows[q.0].path in c.upstreamOnly && rows[q.0].current.Some?
    && exists h :: h in c.heads && q.1 == Spec(h, rows[q.0].path)
  }

  lemma NoQuestion(rows: seq<Row>, c: Classification)
    requires c.upstreamOnly == {}
    ensures forall q :: !IsQuestion(q, rows, c)
  {
  }

  /** One question per candidate row and head, flattened. */
  method Questions(rows: array<Row>, c: Classification) returns (specs: seq<(nat, Bytes)>)
    ensures forall q :: q in specs <==> IsQuestion(q, rows[..], c)
  {
    specs := [];
    for i := 0 to rows.Length
      invariant forall q :: q in specs <==> q.0 < i && IsQuestion(q, rows[..], c)
    {
      if Candidate(rows[i], c) {
        ghost var before := specs;
        for j := 0 to |c.heads|
          invariant forall q :: q in specs <==>
            q in before || (q.0 == i && exists h :: h in c.heads[..j] && q.1 == Spec(h, rows[i].path))
        {
          assert c.heads[..j + 1] == c.heads[..j] + [c.heads[j]];
          specs := specs + [(i, Spec(c.heads[j], rows[i].path))];
        }
        assert c.heads[..|c.heads|] == c.heads;
      }
    }
  }

  function Texts(specs: seq<(nat, Bytes)>): seq<Bytes> {
    seq(|specs|, i requires 0 <= i < |specs| => specs[i].1)
  }

  /** The `k`-th answer is row `i`'s and names its content; an answer that is not there names none. */
  predicate Names(rows: seq<Row>, specs: seq<(nat, Bytes)>, blobs: seq<Option<Bytes>>, k: int, i: nat) {
    && 0 <= k < |specs| && k < |blobs| && specs[k].0 == i < |rows|
    && blobs[k].Some? && rows[i].current == blobs[k]
  }

  /** The rows some answer matches. */
  method Matches(rows: array<Row>, ghost c: Classification, specs: seq<(nat, Bytes)>, blobs: seq<Option<Bytes>>)
    returns (matches: set<nat>)
    requires forall q :: q in specs ==> IsQuestion(q, rows[..], c)
    ensures forall i :: i in matches <==> exists k :: Names(rows[..], specs, blobs, k, i)
  {
    matches := {};
    for n := 0 to |specs|
      invariant forall i :: i in matches <==> exists k :: k < n && Names(rows[..], specs, blobs, k, i)
    {
      var i := specs[n].0;
      assert specs[n] in specs;
      if n < |blobs| && blobs[n].Some? && rows[i].current == blobs[n] {
        assert Names(rows[..], specs, blobs, n, i);
        matches := matches + {i};
      }
    }
  }

  /**
   Annotates every row as it would be with each object asked for on its own. `ok` is false when the
   batch call fails, and then no row has changed.
   */
  method Annotate(rows: array<Row>, c: Classification, store: Store, fails: bool) returns (ok: bool)
    requires forall h :: h in c.heads ==> GitRecords.IsOid(h)
    requires IsGit(store)
    modifies rows
    ensures !ok ==> rows[..] == old(rows[..])
    // The call is made, and can fail, exactly when there is something to ask.
    ensures !ok <==> fails && exists q :: IsQuestion(q, old(rows[..]), c)
    ensures forall i :: 0 <= i < rows.Length && old(rows[i]).path !in c.upstreamOnly && ok ==>
      rows[i] == Annotated(old(rows[i]), c, store)
    ensures FromLog(c) && ok ==> forall i :: 0 <= i < rows.Length ==> rows[i] == Annotated(old(rows[i]), c, store)
  {
    hide AtSomeHead, Reply, ParseBatchOids, IsGit, FromLog, Ended, IsQuestion, GitRecords.IsOid;
    if c.upstreamOnly == {} && c.both == {} {
      NoQuestion(rows[..], c);
      return true;
    }
    var specs := Questions(rows, c);
    var blobs: seq<Option<Bytes>> := [];
    if specs != [] {
      if fails {
        assert specs[0] in specs;
        return false;
      }
      blobs := ParseBatchOids(Reply(Ended(Texts(specs), NL), store));
    }
    var matches := Matches(rows, c, specs, blobs);
    if FromLog(c) {
      MatchesAreHeads(rows[..], c, store, specs, blobs, matches);
    }
    for i := 0 to rows.Length
      invariant forall k :: i <= k < rows.Length ==> rows[k] == old(rows[k])
      invariant forall k :: 0 <= k < i && old(rows[k]).path !in c.upstreamOnly ==>
        rows[k] == Annotated(old(rows[k]), c, store)
      invariant FromLog(c) ==> forall k :: 0 <= k < i ==> rows[k] == Annotated(old(rows[k]), c, store)
    {
      var row := rows[i];
      if row.path in c.upstreamOnly {
        rows[i] := row.(annotation := Some(if i in matches then Upstream else Mixed));
      } else if row.path in c.both {
        rows[i] := row.(annotation := Some(Mixed));
      }
    }
    ok := true;
  }

  /** Flattening loses nothing: a candidate is matched exactly when some head has its content. */
  lemma MatchesAreHeads(rows: seq<Row>, c: Classification, store: Store, specs: seq<(nat, Bytes)>,
                        blobs: seq<Option<Bytes>>, matches: set<nat>)
    requires FromLog(c) && IsGit(store) && forall h :: h in c.heads ==> GitRecords.IsOid(h)
    requires forall q :: q in specs <==> IsQuestion(q, rows, c)
    requires blobs == if specs == [] then [] else ParseBatchOids(Reply(Ended(Texts(specs), NL), store))
    requires forall i :: i in matches <==> exists k :: Names(rows, specs, blobs, k, i)
    ensures forall i :: 0 <= i < |rows| && rows[i].path in c.upstreamOnly ==>
      (i in matches <==> AtSomeHead(rows[i], c.heads, store))
  {
    forall k | 0 <= k < |specs|
      ensures Asks(Texts(specs)[k])
    {
      assert specs[k] in specs;
      var h :| h in c.heads && specs[k].1 == Spec(h, rows[specs[k].0].path);
      assert Clean(rows[specs[k].0].path);
    }
    BatchAnswers(Texts(specs), store);
    forall i | 0 <= i < |rows| && rows[i].path in c.upstreamOnly
      ensures i in matches <==> AtSomeHead(rows[i], c.heads, store)
    {
      OneRow(rows, c, store, specs, blobs, i);
    }
  }

  lemma OneRow(rows: seq<Row>, c: Classification, store: Store, specs: seq<(nat, Bytes)>,
               blobs: seq<Option<Bytes>>, i: nat)
    requires i < |rows| && rows[i].path in c.upstreamOnly
    requires forall q :: q in specs <==> IsQuestion(q, rows, c)
    requires |blobs| == |specs| && forall k :: 0 <= k < |specs| ==> blobs[k] == BlobAt(store, specs[k].1)
    ensures AtSomeHead(rows[i], c.heads, store) <==> exists k :: Names(rows, specs, blobs, k, i)
  {
    hide BlobAt, Spec;
    if AtSomeHead(rows[i], c.heads, store) {
      var h :| h in c.heads && BlobAt(store, Spec(h, rows[i].path)) == rows[i].current;
      var q := (i, Spec(h, rows[i].path));
      assert IsQuestion(q, rows, c);
      var k :| 0 <= k < |specs| && specs[k] == q;
      assert Names(rows, specs, blobs, k, i);
    }
    if k :| Names(rows, specs, blobs, k, i) {
      assert IsQuestion(specs[k], rows, c);
    }
  }
}
