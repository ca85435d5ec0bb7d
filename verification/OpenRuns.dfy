/** Runs of the open protocol that end where its documentation says none does. */
module OpenRuns {
  import opened Prelude
  import opened OpenProtocol
  import opened OpenAsides
  import opened OpenRenames

  function Last(run: seq<State>): State
    requires |run| > 0
  {
    run[|run|-1]
  }

  // ---------------------------------------------------------------------------------------
  // A known root taken for a new one
  // ---------------------------------------------------------------------------------------

  /** An opener finds no ledger twice... */
  lemma FindsNothing(s: State, p: Pid) returns (run: seq<State>)
    requires Init(s) && p in s.procs && p in s.clock && s.tmp.None? && s.ledger.None?
    ensures Run(run) && run[0] == s
    ensures Last(run) == s.(procs := s.procs[p := Deciding], lock := Some(p))
  {
    run := Then([s], p, LookForTmp(true));
    run := Then(run, p, ReadLedger(false));
    run := Then(run, p, TakeLock);
    run := Then(run, p, ReadLedger(false));
  }

  /** ...cannot list the directory, and saves a first sight although a ledger lies moved aside. */
  lemma FailedListingSavesFirstSight(s: State, p: Pid) returns (run: seq<State>)
    requires Init(s) && p in s.procs && p in s.clock && s.tmp.None? && s.ledger.None? && s.asides != map[]
    ensures Run(run) && run[0] == s && Known(run[0])
    ensures |run| > 1 && SavesFirstSight(run, |run| - 2, p, false)
    ensures Last(run).ledger == Some(File(s.files, FirstSight)) && Last(run).asides == s.asides
  {
    run := FindsNothing(s, p);
    run := Then(run, p, ListSiblings(false));
    run := Then(run, p, WriteTmp(Whole));
    run := Then(run, p, CommitTmp(true));
  }

  // ---------------------------------------------------------------------------------------
  // An accepted ledger moved aside
  // ---------------------------------------------------------------------------------------

  /** `q` reads the unreadable ledger and is about to look for a name. */
  lemma Reads(s: State, q: Pid) returns (run: seq<State>)
    requires GarbledRoot(s) && q in s.clock
    ensures Run(run) && run[0] == s && |run| == 3
    ensures Steps(run[1], run[2], q, ReadLedger(false)) && run[1].ledger == s.ledger
    ensures Last(run) == s.(procs := s.procs[q := Moving(None, s.ledger.value)])
  {
    run := Then([s], q, LookForTmp(true));
    run := Then(run, q, ReadLedger(false));
  }

  /** A process that has opened the root saves what was accepted in it. */
  lemma Accepts(run: seq<State>, p: Pid, content: Content) returns (longer: seq<State>)
    requires Run(run)
    requires p in Last(run).procs && p in Last(run).clock && Last(run).procs[p].Opened? && Last(run).lock.None?
    ensures Run(longer) && |longer| > |run| && longer[0] == run[0]
    ensures var s, t := Last(run), Last(longer);
            && t.procs == s.procs[p := Opened] && t.clock == s.clock && t.asides == s.asides
            && t.ledger == Some(File(s.files, content)) && t.lock.None? && t.tmp.None? && t.files == s.files + 1
  {
    longer := WantsToSave(run, p, content);
    hide Next, Run, Init;
    longer := Saves(longer, p);
  }

  lemma WantsToSave(run: seq<State>, p: Pid, content: Content) returns (longer: seq<State>)
    requires Run(run)
    requires p in Last(run).procs && p in Last(run).clock && Last(run).procs[p].Opened? && Last(run).lock.None?
    ensures Run(longer) && |longer| > |run| && longer[0] == run[0]
    ensures Last(longer) ==
      Last(run).(procs := Last(run).procs[p := Saving(false, content, true)], lock := Some(p))
  {
    longer := Then(run, p, BeginWrite(content));
    longer := Then(longer, p, TakeLock);
  }

  /** `q` settles on a name, by the clock it reads now, and moves whatever the ledger is by now. */
  lemma MovesLate(run: seq<State>, q: Pid, secs: nat) returns (longer: seq<State>)
    requires Run(run)
    requires q in Last(run).procs && q in Last(run).clock && secs in Last(run).clock[q]
    requires Last(run).procs[q].Moving? && Last(run).procs[q].second.None? && Last(run).ledger.Some?
    requires Name(secs, 0) !in Last(run).asides && Last(run).lock.None?
    ensures Run(longer) && |longer| > |run| && longer[0] == run[0]
    ensures var s := Last(run);
            Last(longer) == s.(procs := s.procs[q := SecondLook(Unreadable)], lock := Some(q), ledger := None,
                               asides := s.asides[Name(secs, 0) := s.ledger.value])
  {
    longer := NamesIt(run, q, secs);
    hide Next, Run, Init;
    longer := FirstMoves(longer, q);
  }

  lemma NamesIt(run: seq<State>, q: Pid, secs: nat) returns (longer: seq<State>)
    requires Run(run)
    requires q in Last(run).procs && q in Last(run).clock && secs in Last(run).clock[q]
    requires Last(run).procs[q].Moving? && Last(run).procs[q].second.None? && Name(secs, 0) !in Last(run).asides
    ensures Run(longer) && |longer| > |run| && longer[0] == run[0]
    ensures Last(longer) ==
      Last(run).(procs := Last(run).procs[q := Renaming(None, Last(run).procs[q].judged, Name(secs, 0))])
  {
    longer := Then(run, q, ReadClock(secs));
    longer := Then(longer, q, CheckName(true));
  }

  /** `p` opens the garbled root: the ledger moves aside and a new one with nothing seen is saved. */
  lemma Reopens(run: seq<State>, p: Pid, secs: nat) returns (longer: seq<State>)
    requires Run(run)
    requires var s := Last(run);
             && p in s.procs && s.procs[p].Start? && p in s.clock && secs in s.clock[p] && s.lock.None?
             && s.tmp.None? && s.ledger.Some? && s.ledger.value.content.Garbled? && Name(secs, 0) !in s.asides
    ensures Run(longer) && |longer| > |run| && longer[0] == run[0]
    ensures var s, t := Last(run), Last(longer);
            && t.procs == s.procs[p := Opened] && t.clock == s.clock
            && t.asides == s.asides[Name(secs, 0) := s.ledger.value]
            && t.ledger == Some(File(s.files, NothingSeen)) && t.lock.None? && t.tmp.None? && t.files == s.files + 1
  {
    hide Next, Run, Init;
    longer := Settles(run, p, secs);
    longer := FirstMoves(longer, p);
    longer := FirstReplaces(longer, p);
  }

  /**
   An accept is lost from sight. `q` judges the garbled ledger; `p` moves that aside, reopens
   and accepts; `q`'s rename then takes the accepted ledger away, and `q` saves one with
   nothing seen in its place.
   */
  lemma AcceptedIsMovedAside(s: State, p: Pid, q: Pid, early: nat, late: nat) returns (run: seq<State>)
    requires GarbledRoot(s) && p in s.clock && q in s.clock && p != q
    requires early in s.clock[p] && late in s.clock[q] && early != late
    ensures Run(run) && run[0] == s
    ensures Last(run).ledger.Some? && Last(run).ledger.value.content == NothingSeen
    ensures Name(late, 0) in Last(run).asides && Last(run).asides[Name(late, 0)].content == Accepted
  {
    hide Next, Run;
    run := Reads(s, q);
    run := Reopens(run, p, early);
    run := Accepts(run, p, Accepted);
    run := MovesLate(run, q, late);
    run := FirstReplaces(run, q);
  }

  // ---------------------------------------------------------------------------------------
  // Another root's ledger opened
  // ---------------------------------------------------------------------------------------

  /** Nothing is there yet. */
  predicate EmptyRoot(s: State) {
    Init(s) && s.tmp.None? && s.ledger.None? && s.asides == map[] && s.procs.Keys == s.clock.Keys
  }

  lemma LooksAtNothing(run: seq<State>, p: Pid) returns (longer: seq<State>)
    requires Run(run)
    requires p in Last(run).procs && p in Last(run).clock && Last(run).procs[p].Start?
    requires Last(run).tmp.None? && Last(run).ledger.None?
    ensures Run(longer) && longer[0] == run[0]
    ensures Last(longer) == Last(run).(procs := Last(run).procs[p := WantLock(Missing)])
  {
    longer := Then(run, p, LookForTmp(true));
    longer := Then(longer, p, ReadLedger(false));
  }

  /** `p`'s first look finds nothing; then `q` opens the root as a new one. */
  lemma OneLooksOneOpens(s: State, p: Pid, q: Pid) returns (run: seq<State>)
    requires EmptyRoot(s) && p in s.clock && q in s.clock && p != q
    ensures Run(run) && run[0] == s
    ensures var t := Last(run);
            && t.procs == s.procs[p := WantLock(Missing)][q := Opened] && t.clock == s.clock
            && t.lock.None? && t.tmp.None? && t.asides == s.asides
            && t.ledger == Some(File(s.files, FirstSight)) && t.files == s.files + 1
  {
    run := LooksAtNothing([s], p);
    run := LooksAtNothing(run, q);
    run := Then(run, q, TakeLock);
    run := OpensNew(run, q);
  }

  lemma OpensNew(run: seq<State>, q: Pid) returns (longer: seq<State>)
    requires Run(run)
    requires q in Last(run).procs && q in Last(run).clock && Last(run).procs[q] == SecondLook(Missing)
    requires Last(run).ledger.None? && Last(run).lock == Some(q)
    ensures Run(longer) && longer[0] == run[0]
    ensures var s, t := Last(run), Last(longer);
            && t.procs == s.procs[q := Opened] && t.clock == s.clock
            && t.lock.None? && t.tmp.None? && t.asides == s.asides
            && t.ledger == Some(File(s.files, if s.asides == map[] then FirstSight else NothingSeen))
            && t.files == s.files + 1
  {
    longer := Decides(run, q);
    longer := Saves(longer, q);
  }

  /** With a listing that works: a first sight exactly where nothing lies moved aside. */
  lemma Decides(run: seq<State>, q: Pid) returns (longer: seq<State>)
    requires Run(run)
    requires q in Last(run).procs && q in Last(run).clock && Last(run).procs[q] == SecondLook(Missing)
    requires Last(run).ledger.None?
    ensures Run(longer) && longer[0] == run[0]
    ensures var s := Last(run);
            var content := if s.asides == map[] then FirstSight else NothingSeen;
            Last(longer) == s.(procs := s.procs[q := Saving(true, content, true)])
  {
    longer := Then(run, q, ReadLedger(false));
    longer := Then(longer, q, ListSiblings(true));
    assert |Last(run).asides| == 0 <==> Last(run).asides == map[];
  }

  /** Whoever has something to save under the lock saves it. */
  lemma Saves(run: seq<State>, p: Pid) returns (longer: seq<State>)
    requires Run(run) && p in Last(run).procs && p in Last(run).clock && Last(run).procs[p].Saving?
    requires Last(run).lock == Some(p)
    ensures Run(longer) && |longer| > |run| && longer[0] == run[0]
    ensures var s, t := Last(run), Last(longer);
            && t.procs == s.procs[p := Opened] && t.clock == s.clock && t.asides == s.asides
            && t.ledger == Some(File(s.files, s.procs[p].content)) && t.lock.None? && t.tmp.None?
            && t.files == s.files + 1
  {
    longer := Then(run, p, WriteTmp(Whole));
    longer := Then(longer, p, CommitTmp(true));
  }

  /**
   A writer that saves another root's ledger between `p`'s looks has `p` open that root's state.
   The input is a far-fetched one: the directory is called after 64 bits of its root's hashed
   path, so the writer is a process of a root whose path has the same 64 bits.
   */
  lemma OtherRootIsOpened(s: State, p: Pid, q: Pid) returns (run: seq<State>)
    requires EmptyRoot(s) && p in s.clock && q in s.clock && p != q
    ensures Run(run) && run[0] == s
    ensures p in Last(run).procs && Last(run).procs[p] == Opened && OtherRootThere(Last(run))
  {
    hide Next, Run;
    run := OneLooksOneOpens(s, p, q);
    run := Accepts(run, q, OtherRoot);
    run := SecondLookOpens(run, p);
  }

  /**
   Two processes open a root never seen before. The one that comes second to the lock opens the
   first one's first sight, and does not save one of its own.
   */
  lemma SecondOpensTheFirsts(s: State, p: Pid, q: Pid) returns (run: seq<State>)
    requires EmptyRoot(s) && p in s.clock && q in s.clock && p != q
    ensures Run(run) && run[0] == s
    ensures var t := Last(run);
            && t.procs == s.procs[p := Opened][q := Opened] && t.lock.None?
            && t.ledger == Some(File(s.files, FirstSight)) && t.files == s.files + 1 && t.asides == map[]
  {
    hide Next, Run;
    run := OneLooksOneOpens(s, p, q);
    run := SecondLookOpens(run, p);
    assert s.procs[p := WantLock(Missing)][q := Opened][p := Opened] == s.procs[p := Opened][q := Opened];
  }

  lemma SecondLookOpens(run: seq<State>, p: Pid) returns (longer: seq<State>)
    requires Run(run)
    requires p in Last(run).procs && p in Last(run).clock && Last(run).procs[p].WantLock? && Last(run).lock.None?
    requires Last(run).ledger.Some? && !Last(run).ledger.value.content.Garbled?
    ensures Run(longer) && longer[0] == run[0]
    ensures Last(longer) == Last(run).(procs := Last(run).procs[p := Opened])
  {
    longer := Then(run, p, TakeLock);
    longer := Then(longer, p, ReadLedger(false));
  }

  // ---------------------------------------------------------------------------------------
  // Opening undisturbed
  // ---------------------------------------------------------------------------------------

  /** What one opener whose every operation works leaves of a directory in which nobody else moves. */
  ghost predicate OpensTo(s: State, t: State, p: Pid, secs: nat) {
    && t.procs == s.procs[p := Opened] && t.lock.None? && t.tmp.None?
    && if s.ledger.Some? && !Bad(s.ledger.value.content, true) then
         // A ledger of this root is opened as it is.
         t.ledger == s.ledger && t.asides == s.asides && t.files == s.files
       else if s.ledger.Some? then
         // Any other is moved aside whole, and one with nothing seen takes its place.
         && t.asides == s.asides[Name(secs, 0) := s.ledger.value]
         && t.ledger == Some(File(s.files, NothingSeen)) && t.files == s.files + 1
       else
         && t.asides == s.asides && t.files == s.files + 1
         && t.ledger == Some(File(s.files, if s.asides == map[] then FirstSight else NothingSeen))
  }

  /** A stale temporary file, if there is one, goes under the lock. */
  lemma ClearsTmp(s: State, p: Pid) returns (run: seq<State>)
    requires Init(s) && p in s.procs && p in s.clock
    ensures Run(run) && run[0] == s
    ensures Last(run) == s.(procs := s.procs[p := FirstLook], tmp := None)
  {
    run := Then([s], p, LookForTmp(true));
    if s.tmp.Some? {
      run := Then(run, p, TakeLock);
      run := Then(run, p, DropTmp(true));
      assert Last(run).procs == s.procs[p := FirstLook];
    }
  }

  lemma OpensGood(run: seq<State>, p: Pid) returns (longer: seq<State>)
    requires Run(run) && p in Last(run).procs && p in Last(run).clock && Last(run).procs[p].FirstLook?
    requires Last(run).ledger.Some? && !Bad(Last(run).ledger.value.content, true)
    ensures Run(longer) && longer[0] == run[0]
    ensures Last(longer) == Last(run).(procs := Last(run).procs[p := Opened])
  {
    longer := Then(run, p, ReadLedger(false));
  }

  lemma SettlesOnBad(run: seq<State>, p: Pid, secs: nat) returns (longer: seq<State>)
    requires Run(run) && p in Last(run).procs && p in Last(run).clock && Last(run).procs[p].FirstLook?
    requires Last(run).ledger.Some? && Bad(Last(run).ledger.value.content, true)
    requires secs in Last(run).clock[p] && Name(secs, 0) !in Last(run).asides
    ensures Run(longer) && longer[0] == run[0]
    ensures Last(longer) ==
      Last(run).(procs := Last(run).procs[p := Renaming(None, Last(run).ledger.value, Name(secs, 0))])
  {
    longer := Then(run, p, ReadLedger(false));
    longer := NamesIt(longer, p, secs);
  }

  lemma OpensMissing(run: seq<State>, p: Pid) returns (longer: seq<State>)
    requires Run(run) && p in Last(run).procs && p in Last(run).clock && Last(run).procs[p].FirstLook?
    requires Last(run).ledger.None? && Last(run).lock.None?
    ensures Run(longer) && longer[0] == run[0]
    ensures Last(longer) == Last(run).(procs := Last(run).procs[p := SecondLook(Missing)], lock := Some(p))
  {
    longer := Then(run, p, ReadLedger(false));
    longer := Then(longer, p, TakeLock);
  }

  lemma OpensBad(run: seq<State>, p: Pid, secs: nat) returns (longer: seq<State>)
    requires Run(run) && p in Last(run).procs && p in Last(run).clock && Last(run).procs[p].FirstLook?
    requires Last(run).ledger.Some? && Bad(Last(run).ledger.value.content, true) && Last(run).lock.None?
    requires secs in Last(run).clock[p] && Name(secs, 0) !in Last(run).asides
    ensures Run(longer) && longer[0] == run[0]
    ensures var s, t := Last(run), Last(longer);
            && t.procs == s.procs[p := Opened] && t.lock.None? && t.tmp.None?
            && t.asides == s.asides[Name(secs, 0) := s.ledger.value]
            && t.ledger == Some(File(s.files, NothingSeen)) && t.files == s.files + 1
  {
    hide Next, Run, Bad;
    longer := SettlesOnBad(run, p, secs);
    longer := FirstMoves(longer, p);
    longer := FirstReplaces(longer, p);
  }

  lemma OpensAbsent(run: seq<State>, p: Pid) returns (longer: seq<State>)
    requires Run(run) && p in Last(run).procs && p in Last(run).clock && Last(run).procs[p].FirstLook?
    requires Last(run).ledger.None? && Last(run).lock.None?
    ensures Run(longer) && longer[0] == run[0]
    ensures var s, t := Last(run), Last(longer);
            && t.procs == s.procs[p := Opened] && t.lock.None? && t.tmp.None? && t.asides == s.asides
            && t.ledger == Some(File(s.files, if s.asides == map[] then FirstSight else NothingSeen))
            && t.files == s.files + 1
  {
    hide Next, Run;
    longer := OpensMissing(run, p);
    longer := OpensNew(longer, p);
  }

  /** From any directory: a run in which `p` opens it, and what that leaves. */
  lemma OpensAlone(s: State, p: Pid, secs: nat) returns (run: seq<State>)
    requires Init(s) && p in s.procs && p in s.clock && secs in s.clock[p] && Name(secs, 0) !in s.asides
    ensures Run(run) && run[0] == s && OpensTo(s, Last(run), p, secs)
  {
    hide Next, Bad;
    run := ClearsTmp(s, p);
    if s.ledger.None? {
      run := OpensAbsent(run, p);
    } else if Bad(s.ledger.value.content, true) {
      run := OpensBad(run, p, secs);
    } else {
      run := OpensGood(run, p);
    }
    assert s.procs[p := FirstLook][p := Opened] == s.procs[p := Opened];
  }
}
