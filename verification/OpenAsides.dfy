/**
 Files moved aside while several processes open one root. The name is looked for and then
 renamed to, with nothing in between to hold it, and a look that fails reads as a free name: a
 moved-aside file is overwritten exactly when the look failed on a name that was taken, or when
 another process renames to the same name in between, with a clock at the same second.
 */
module OpenAsides {
  import opened Prelude
  import opened OpenProtocol

  /** Everything moved aside so far is still there, under its name and unchanged. */
  predicate KeepsAsides(s: State, t: State) {
    forall name :: name in s.asides ==> name in t.asides && t.asides[name] == s.asides[name]
  }

  /** What a step does to the moved-aside files: nothing, or one rename to the name checked. */
  ghost predicate AsidesMove(s: State, t: State, p: Pid) {
    && OneMoves(s, t, p)
    && (t.asides == s.asides ||
        (s.procs[p].Renaming? && s.ledger.Some?
         && t.asides == s.asides[s.procs[p].name := s.ledger.value] && Steps(s, t, p, RenameAside)))
  }

  lemma StepMovesAsides(s: State, t: State, p: Pid, a: Action)
    requires Steps(s, t, p, a)
    ensures AsidesMove(s, t, p)
  {
    StepMovesOne(s, t, p, a);
    hide OneMoves, AfterAside, AfterFailure;
  }

  // ---------------------------------------------------------------------------------------
  // One rename
  // ---------------------------------------------------------------------------------------

  /** The step is `p`'s rename of the ledger to `name`. */
  ghost predicate Renames(s: State, t: State, p: Pid, name: Name) {
    && p in s.procs && s.procs[p].Renaming? && s.procs[p].name == name
    && s.ledger.Some? && Steps(s, t, p, RenameAside)
  }

  /** At moment `j`, `q` renames the ledger to `name`. */
  ghost predicate RenamedAt(run: seq<State>, j: nat, q: Pid, name: Name) {
    j + 1 < |run| && Renames(run[j], run[j+1], q, name)
  }

  /** A name stays taken, and becomes taken only by a rename to it. */
  lemma NameStep(run: seq<State>, k: nat, name: Name) returns (q: Pid)
    requires Run(run) && k + 1 < |run|
    ensures name in run[k].asides ==> name in run[k+1].asides
    ensures name in run[k+1].asides && name !in run[k].asides ==> Renames(run[k], run[k+1], q, name)
  {
    var a;
    q, a := StepAt(run, k);
    StepMovesAsides(run[k], run[k+1], q, a);
    hide Steps, Inv, Moves;
  }

  lemma {:induction false} TakenStaysTaken(run: seq<State>, i: nat, k: nat, name: Name)
    requires Run(run) && i <= k < |run| && name in run[i].asides
    ensures name in run[k].asides
    decreases k
  {
    hide Run, Renames;
    if i < k {
      TakenStaysTaken(run, i, k - 1, name);
      var q := NameStep(run, k - 1, name);
    }
  }

  lemma {:induction false} TakenBySomebody(run: seq<State>, i: nat, k: nat, name: Name) returns (j: nat, q: Pid)
    requires Run(run) && i <= k < |run| && name !in run[i].asides && name in run[k].asides
    ensures i <= j < k && RenamedAt(run, j, q, name)
    decreases k
  {
    hide Run, Renames;
    q := NameStep(run, k - 1, name);
    if name in run[k-1].asides {
      j, q := TakenBySomebody(run, i, k - 1, name);
    } else {
      j := k - 1;
    }
  }

  lemma RenameTakes(s: State, t: State, p: Pid, name: Name)
    requires Renames(s, t, p, name)
    ensures name in t.asides && t.asides == s.asides[name := s.ledger.value]
    ensures p in t.procs && !t.procs[p].Renaming?
  {
  }

  /** From its check at moment `c`, which worked or not, until moment `k`, `p` has settled on `name`. */
  ghost predicate Settled(run: seq<State>, p: Pid, c: nat, ok: bool, k: nat, name: Name) {
    && c < k < |run| && Steps(run[c], run[c+1], p, CheckName(ok))
    && forall x :: c < x <= k ==> p in run[x].procs && run[x].procs[p].Renaming? && run[x].procs[p].name == name
  }

  /** The name of a file moved aside is read as free. */
  ghost predicate MisreadAt(run: seq<State>, c: nat, ok: bool, name: Name) {
    c < |run| && !ok && name in run[c].asides
  }

  lemma SettledOnFree(s: State, t: State, p: Pid, ok: bool)
    requires Steps(s, t, p, CheckName(ok)) && p in t.procs && t.procs[p].Renaming?
    ensures t.asides == s.asides && (ok ==> t.procs[p].name !in t.asides)
  {
  }

  lemma TakenSinceCheck(run: seq<State>, p: Pid, c: nat, k: nat, ok: bool, name: Name) returns (j: nat, q: Pid)
    requires Run(run) && Settled(run, p, c, ok, k, name) && name !in run[c].asides && name in run[k].asides
    ensures c < j < k && q != p && RenamedAt(run, j, q, name)
  {
    SettledOnFree(run[c], run[c+1], p, ok);
    hide Run, Renames, Steps;
    j, q := TakenBySomebody(run, c + 1, k, name);
    RenameTakes(run[j], run[j+1], q, name);
  }

  /**
   A rename lands on a file already moved aside if and only if its check failed and read the
   taken name as free, or another process has renamed to that very name since.
   */
  lemma OverwritesExactly(run: seq<State>, p: Pid, c: nat, ok: bool, k: nat, name: Name)
    requires Run(run) && Settled(run, p, c, ok, k, name)
    requires RenamedAt(run, k, p, name)
    ensures name in run[k].asides
       <==> MisreadAt(run, c, ok, name) || exists j: nat, q :: c < j < k && q != p && RenamedAt(run, j, q, name)
    ensures run[k+1].asides == run[k].asides[name := run[k].ledger.value]
  {
    SettledOnFree(run[c], run[c+1], p, ok);
    hide Run, Renames, Steps, Settled;
    RenameTakes(run[k], run[k+1], p, name);
    if name in run[c].asides {
      TakenStaysTaken(run, c, k, name);
    } else if name in run[k].asides {
      var j, q := TakenSinceCheck(run, p, c, k, ok, name);
    } else if j: nat, q :| c < j < k && q != p && RenamedAt(run, j, q, name) {
      StaysTaken(run, j, q, k, name);
    }
  }

  lemma StaysTaken(run: seq<State>, j: nat, q: Pid, k: nat, name: Name)
    requires Run(run) && RenamedAt(run, j, q, name) && j < k < |run|
    ensures name in run[k].asides
  {
    hide Run, Renames, Steps;
    RenameTakes(run[j], run[j+1], q, name);
    TakenStaysTaken(run, j + 1, k, name);
  }

  /** The names a process has passed over are taken: it looks at them in order from the first. */
  predicate PassedOver(s: State, p: Pid) {
    p in s.procs ==>
      && (s.procs[p].Naming? ==> TakenBelow(s, s.procs[p].secs, s.procs[p].n))
      && (s.procs[p].Renaming? ==> TakenBelow(s, s.procs[p].name.secs, s.procs[p].name.n))
  }

  predicate TakenBelow(s: State, secs: nat, n: nat) {
    forall m: nat :: m < n ==> Name(secs, m) in s.asides
  }

  lemma StepPassesOver(s: State, t: State, p: Pid, a: Action)
    requires PassedOver(s, p) && Steps(s, t, p, a)
    ensures PassedOver(t, p)
  {
  }

  lemma OtherPassesOver(s: State, t: State, p: Pid, q: Pid)
    requires PassedOver(s, q) && AsidesMove(s, t, p) && q != p
    ensures PassedOver(t, q)
  {
    hide Steps;
  }

  /** So whoever renames takes the first name of its second that it did not find taken. */
  lemma {:induction false} FirstNameNotTaken(run: seq<State>, k: nat, p: Pid)
    requires Run(run) && k < |run|
    ensures PassedOver(run[k], p)
    decreases k
  {
    hide Steps, Inv, AsidesMove, Moves, PassedOver;
    if k > 0 {
      FirstNameNotTaken(run, k - 1, p);
      var q, a := StepAt(run, k - 1);
      if q == p {
        StepPassesOver(run[k-1], run[k], p, a);
      } else {
        StepMovesAsides(run[k-1], run[k], q, a);
        OtherPassesOver(run[k-1], run[k], q, p);
      }
    } else {
      NothingPassed(run[0], p);
    }
  }

  lemma NothingPassed(s: State, p: Pid)
    requires Init(s)
    ensures PassedOver(s, p)
  {
  }

  // ---------------------------------------------------------------------------------------
  // Clocks that share no second
  // ---------------------------------------------------------------------------------------

  /** No second that two processes may both read. */
  predicate DistinctSeconds(s: State) {
    forall p, q :: p in s.clock && q in s.clock && p != q ==> s.clock[p] !! s.clock[q]
  }

  /** A second a process has read is from its own clock. */
  predicate OwnSecond(s: State, p: Pid) {
    p in s.procs && p in s.clock ==>
      && (s.procs[p].Naming? ==> s.procs[p].secs in s.clock[p])
      && (s.procs[p].Renaming? ==> s.procs[p].name.secs in s.clock[p])
  }

  /** The name a process has settled on is free. */
  predicate NameFree(s: State, p: Pid) {
    p in s.procs && s.procs[p].Renaming? ==> s.procs[p].name !in s.asides
  }

  ghost predicate Clocked(s: State) {
    && DistinctSeconds(s)
    && s.procs.Keys <= s.clock.Keys
    && forall p :: OwnSecond(s, p)
  }

  /** A failing look takes a moved-aside file's name for a free one. */
  predicate Misreads(s: State, t: State, p: Pid) {
    && p in s.procs && s.procs[p].Naming?
    && p in t.procs && t.procs[p].Renaming? && t.procs[p].name in s.asides
  }

  ghost predicate ReadsNamesRight(run: seq<State>) {
    forall i, j, p :: 0 <= i && j == i + 1 < |run| ==> !Misreads(run[i], run[j], p)
  }

  lemma StepKeepsOwnSecond(s: State, t: State, p: Pid, a: Action)
    requires OwnSecond(s, p) && Steps(s, t, p, a)
    ensures OwnSecond(t, p)
  {
  }

  lemma StepKeepsOwnName(s: State, t: State, p: Pid, a: Action)
    requires NameFree(s, p) && Steps(s, t, p, a) && !Misreads(s, t, p)
    ensures NameFree(t, p)
  {
  }

  lemma StepKeepsClocked(s: State, t: State, p: Pid)
    requires Clocked(s) && OneMoves(s, t, p) && OwnSecond(t, p)
    ensures Clocked(t)
  {
    forall q
      ensures OwnSecond(t, q)
    {
      assert OwnSecond(s, q);
    }
  }

  lemma StepKeepsNames(s: State, t: State, p: Pid)
    requires Clocked(s) && AsidesMove(s, t, p) && NameFree(t, p) && forall q :: NameFree(s, q)
    ensures KeepsAsides(s, t) && forall q :: NameFree(t, q)
  {
    hide Steps;
    assert NameFree(s, p) && OwnSecond(s, p);
    forall q
      ensures NameFree(t, q)
    {
      assert NameFree(s, q) && OwnSecond(s, q);
    }
  }

  lemma {:induction false} RunIsClocked(run: seq<State>, i: nat)
    requires Run(run) && i < |run| && DistinctSeconds(run[0]) && run[0].procs.Keys <= run[0].clock.Keys
    ensures Clocked(run[i])
    decreases i
  {
    hide Steps, Inv, OwnSecond, DistinctSeconds, Moves, OneMoves;
    if i > 0 {
      RunIsClocked(run, i - 1);
      var p, a := StepAt(run, i - 1);
      StepMovesOne(run[i-1], run[i], p, a);
      assert OwnSecond(run[i-1], p);
      StepKeepsOwnSecond(run[i-1], run[i], p, a);
      StepKeepsClocked(run[i-1], run[i], p);
    } else {
      NothingNamed(run[0]);
    }
  }

  lemma {:induction false} RunKeepsNames(run: seq<State>, i: nat)
    requires Run(run) && i < |run| && DistinctSeconds(run[0]) && run[0].procs.Keys <= run[0].clock.Keys
    requires ReadsNamesRight(run)
    ensures forall p :: NameFree(run[i], p)
    ensures i > 0 ==> KeepsAsides(run[i-1], run[i])
    decreases i
  {
    hide Steps, Inv, AsidesMove, KeepsAsides, Moves, NameFree, DistinctSeconds, Clocked, Misreads;
    if i > 0 {
      RunKeepsNames(run, i - 1);
      RunIsClocked(run, i - 1);
      var p, a := StepAt(run, i - 1);
      StepMovesAsides(run[i-1], run[i], p, a);
      assert !Misreads(run[i-1], run[i], p) && NameFree(run[i-1], p);
      StepKeepsOwnName(run[i-1], run[i], p, a);
      StepKeepsNames(run[i-1], run[i], p);
    } else {
      NothingNamed(run[0]);
    }
  }

  lemma NothingNamed(s: State)
    requires Init(s)
    ensures forall p :: NameFree(s, p) && OwnSecond(s, p)
  {
  }

  /** With no second shared and every name read right, what was ever moved aside stays for good. */
  lemma {:induction false} AsidesStay(run: seq<State>, i: nat, k: nat)
    requires Run(run) && i <= k < |run| && ReadsNamesRight(run)
    requires DistinctSeconds(run[0]) && run[0].procs.Keys <= run[0].clock.Keys
    ensures KeepsAsides(run[i], run[k])
    decreases k
  {
    hide Run, ReadsNamesRight;
    if i < k {
      AsidesStay(run, i, k - 1);
      RunKeepsNames(run, k);
    }
  }

  /** With no second shared, a rename lands on a moved-aside file exactly when its own check misread the name. */
  lemma MisreadOverwritesExactly(run: seq<State>, p: Pid, c: nat, ok: bool, k: nat, name: Name)
    requires Run(run) && Settled(run, p, c, ok, k, name) && RenamedAt(run, k, p, name)
    requires DistinctSeconds(run[0]) && run[0].procs.Keys <= run[0].clock.Keys
    ensures name in run[k].asides <==> MisreadAt(run, c, ok, name)
  {
    OverwritesExactly(run, p, c, ok, k, name);
    hide Run, Renames, Steps, Settled, DistinctSeconds;
    if j: nat, q :| c < j < k && q != p && RenamedAt(run, j, q, name) {
      NamesOwnSecond(run, j, q, name);
      NamesOwnSecond(run, k, p, name);
      ClockStays(run, j, k);
      RunIsClocked(run, k);
      SecondsApart(run[k], p, q, name.secs);
    }
  }

  lemma NamesOwnSecond(run: seq<State>, j: nat, q: Pid, name: Name)
    requires Run(run) && RenamedAt(run, j, q, name)
    requires DistinctSeconds(run[0]) && run[0].procs.Keys <= run[0].clock.Keys
    ensures q in run[j].clock && name.secs in run[j].clock[q]
  {
    RunIsClocked(run, j);
    assert OwnSecond(run[j], q);
  }

  lemma SecondsApart(s: State, p: Pid, q: Pid, secs: nat)
    requires DistinctSeconds(s) && p in s.clock && q in s.clock && secs in s.clock[p] && secs in s.clock[q]
    ensures p == q
  {
  }

  lemma {:induction false} ClockStays(run: seq<State>, j: nat, k: nat)
    requires Run(run) && j <= k < |run|
    ensures run[k].clock == run[j].clock
    decreases k
  {
    hide Steps, Inv, Run;
    if j < k {
      ClockStays(run, j, k - 1);
      var p, a := StepAt(run, k - 1);
    }
  }

  // ---------------------------------------------------------------------------------------
  // A second shared
  // ---------------------------------------------------------------------------------------

  /** A root whose ledger this build cannot read, and nothing else on disk. */
  predicate GarbledRoot(s: State) {
    && Init(s) && s.asides == map[] && s.tmp.None? && s.ledger.Some? && s.ledger.value.content.Garbled?
    && s.procs.Keys == s.clock.Keys
  }

  lemma MisreadIsFailedCheck(s: State, t: State, p: Pid, a: Action, q: Pid)
    requires Steps(s, t, p, a) && Misreads(s, t, q)
    ensures a == CheckName(false)
  {
    StepMovesOne(s, t, p, a);
    hide AfterAside, AfterFailure;
  }

  /** One more step of a run, whose check of a name, if it is one, works. */
  lemma ThenReads(run: seq<State>, p: Pid, a: Action) returns (longer: seq<State>)
    requires Run(run) && Next(run[|run|-1], p, a).Some? && a != CheckName(false)
    ensures Run(longer) && |longer| == |run| + 1 && run == longer[..|run|]
    ensures longer[|run|] == Next(run[|run|-1], p, a).value
    ensures ReadsNamesRight(run) ==> ReadsNamesRight(longer)
  {
    longer := Then(run, p, a);
    hide Next, Misreads, Run;
    if ReadsNamesRight(run) {
      forall i, j, q | 0 <= i && j == i + 1 < |longer|
        ensures !Misreads(longer[i], longer[j], q)
      {
        if j < |run| {
          assert longer[i] == run[i] && longer[j] == run[j];
        } else if Misreads(longer[i], longer[j], q) {
          MisreadIsFailedCheck(longer[i], longer[j], p, a, q);
        }
      }
    }
  }

  /** One opener reads the unreadable ledger and settles on the first name of its second. */
  lemma Settles(run: seq<State>, p: Pid, secs: nat) returns (longer: seq<State>)
    requires Run(run)
    requires var s := run[|run|-1];
             && p in s.procs && s.procs[p].Start? && p in s.clock && secs in s.clock[p]
             && s.tmp.None? && s.ledger.Some? && s.ledger.value.content.Garbled? && Name(secs, 0) !in s.asides
    ensures Run(longer) && |longer| > |run| && longer[0] == run[0]
    ensures ReadsNamesRight(run) ==> ReadsNamesRight(longer)
    ensures var s := run[|run|-1];
            longer[|longer|-1] == s.(procs := s.procs[p := Renaming(None, s.ledger.value, Name(secs, 0))])
  {
    longer := ThenReads(run, p, LookForTmp(true));
    longer := ThenReads(longer, p, ReadLedger(false));
    longer := ThenReads(longer, p, ReadClock(secs));
    longer := ThenReads(longer, p, CheckName(true));
  }

  /** It moves the ledger aside and takes the lock for its second look... */
  lemma FirstMoves(run: seq<State>, p: Pid) returns (longer: seq<State>)
    requires Run(run)
    requires var s := run[|run|-1];
             && p in s.procs && p in s.clock && s.procs[p].Renaming? && s.procs[p].second.None?
             && s.ledger.Some? && s.lock.None?
    ensures Run(longer) && |longer| > |run| && longer[0] == run[0]
    ensures ReadsNamesRight(run) ==> ReadsNamesRight(longer)
    ensures var s := run[|run|-1];
            longer[|longer|-1] ==
            s.(procs := s.procs[p := SecondLook(Unreadable)], lock := Some(p), ledger := None,
            asides := s.asides[s.procs[p].name := s.ledger.value])
  {
    longer := MovesItAside(run, p);
    hide Run, ReadsNamesRight;
    longer := LocksForSecond(longer, p);
  }

  lemma MovesItAside(run: seq<State>, p: Pid) returns (longer: seq<State>)
    requires Run(run)
    requires var s := run[|run|-1];
             && p in s.procs && p in s.clock && s.procs[p].Renaming? && s.procs[p].second.None? && s.ledger.Some?
    ensures Run(longer) && |longer| == |run| + 1 && longer[0] == run[0]
    ensures ReadsNamesRight(run) ==> ReadsNamesRight(longer)
    ensures var s := run[|run|-1];
            longer[|longer|-1] ==
            s.(procs := s.procs[p := WantLock(Unreadable)], ledger := None,
            asides := s.asides[s.procs[p].name := s.ledger.value])
  {
    longer := ThenReads(run, p, RenameAside);
  }

  lemma LocksForSecond(run: seq<State>, p: Pid) returns (longer: seq<State>)
    requires Run(run)
    requires var s := run[|run|-1]; p in s.procs && p in s.clock && s.procs[p] == WantLock(Unreadable) && s.lock.None?
    ensures Run(longer) && |longer| == |run| + 1 && longer[0] == run[0]
    ensures ReadsNamesRight(run) ==> ReadsNamesRight(longer)
    ensures var s := run[|run|-1];
            longer[|longer|-1] == s.(procs := s.procs[p := SecondLook(Unreadable)], lock := Some(p))
  {
    longer := ThenReads(run, p, TakeLock);
  }

  /** ...finds nothing, and saves the replacement. */
  lemma FirstReplaces(run: seq<State>, p: Pid) returns (longer: seq<State>)
    requires Run(run)
    requires var s := run[|run|-1];
             && p in s.procs && p in s.clock && s.procs[p] == SecondLook(Unreadable)
             && s.ledger.None? && s.lock == Some(p)
    ensures Run(longer) && |longer| > |run| && longer[0] == run[0]
    ensures ReadsNamesRight(run) ==> ReadsNamesRight(longer)
    ensures var s, t := run[|run|-1], longer[|longer|-1];
            && t.procs == s.procs[p := Opened] && t.clock == s.clock && t.asides == s.asides
            && t.ledger == Some(File(s.files, NothingSeen)) && t.lock.None? && t.tmp.None?
            && t.files == s.files + 1
  {
    longer := ThenReads(run, p, ReadLedger(false));
    longer := ThenReads(longer, p, WriteTmp(Whole));
    longer := ThenReads(longer, p, CommitTmp(true));
  }

  /** The only file moved aside so far goes when another is renamed to its name. */
  lemma Overwrites(run: seq<State>, q: Pid, gone: File) returns (longer: seq<State>)
    requires Run(run)
    requires var s := run[|run|-1];
             && q in s.procs && q in s.clock && s.procs[q].Renaming?
             && s.asides == map[s.procs[q].name := gone] && s.ledger.Some? && s.ledger.value != gone
    ensures Run(longer) && |longer| == |run| + 1 && longer[0] == run[0]
    ensures ReadsNamesRight(run) ==> ReadsNamesRight(longer)
    ensures var t := longer[|longer|-1];
            t.ledger.None? && forall name :: name in t.asides ==> t.asides[name] != gone
    ensures !KeepsAsides(longer[|longer|-2], longer[|longer|-1])
  {
    var s := run[|run|-1];
    longer := ThenReads(run, q, RenameAside);
    assert s.procs[q].name in s.asides;
  }

  /**
   Two openers in the same second lose a file, though every check works: the second one's rename lands on the first
   one's moved-aside ledger, and the unreadable original is nowhere any more.
   */
  lemma SharedSecondLosesFile(s: State, p: Pid, q: Pid, secs: nat) returns (run: seq<State>)
    requires GarbledRoot(s) && p in s.clock && q in s.clock && p != q && secs in s.clock[p] && secs in s.clock[q]
    ensures Run(run) && run[0] == s && |run| > 1 && ReadsNamesRight(run)
    ensures var t := run[|run|-1];
            t.ledger.None? && forall name :: name in t.asides ==> t.asides[name] != s.ledger.value
    ensures !KeepsAsides(run[|run|-2], run[|run|-1])
  {
    run := Settles([s], q, secs);
    run := Settles(run, p, secs);
    run := FirstMoves(run, p);
    run := FirstReplaces(run, p);
    run := Overwrites(run, q, s.ledger.value);
  }

  /** No run from a garbled root that reads every name right ever overwrites a moved-aside file... */
  ghost predicate NeverOverwrites(s: State) {
    forall run, i: nat :: Run(run) && ReadsNamesRight(run) && run[0] == s && i + 1 < |run| ==>
                            KeepsAsides(run[i], run[i+1])
  }

  /** ...exactly when there is no second that two of the processes may both read. */
  lemma NeverOverwritesExactly(s: State)
    requires GarbledRoot(s)
    ensures NeverOverwrites(s) <==> DistinctSeconds(s)
  {
    hide KeepsAsides, Init, Follows, ReadsNamesRight;
    if DistinctSeconds(s) {
      forall run, i: nat | Run(run) && ReadsNamesRight(run) && run[0] == s && i + 1 < |run|
        ensures KeepsAsides(run[i], run[i+1])
      {
        RunKeepsNames(run, i + 1);
      }
    } else {
      var p, q :| p in s.clock && q in s.clock && p != q && !(s.clock[p] !! s.clock[q]);
      var secs :| secs in s.clock[p] && secs in s.clock[q];
      var run := SharedSecondLosesFile(s, p, q, secs);
      var i := |run| - 2;
      assert !KeepsAsides(run[i], run[i+1]);
    }
  }

  // ---------------------------------------------------------------------------------------
  // A check that fails
  // ---------------------------------------------------------------------------------------

  /**
   One process alone, whatever its clock: the look at a taken name fails, and the rename takes
   the place of the file that was moved aside under it.
   */
  lemma FailingCheckLosesFile(s: State, p: Pid, secs: nat) returns (run: seq<State>)
    requires Init(s) && p in s.procs && p in s.clock && secs in s.clock[p]
    requires s.tmp.None? && s.ledger.Some? && s.ledger.value.content.Garbled?
    requires Name(secs, 0) in s.asides && s.asides[Name(secs, 0)] != s.ledger.value
    ensures Run(run) && run[0] == s && |run| > 1
    ensures run[|run|-1] == s.(procs := s.procs[p := WantLock(Unreadable)], ledger := None,
                               asides := s.asides[Name(secs, 0) := s.ledger.value])
    ensures !KeepsAsides(run[|run|-2], run[|run|-1])
  {
    run := ReachesName(s, p, secs);
    run := Then(run, p, CheckName(false));
    run := Then(run, p, RenameAside);
  }

  lemma ReachesName(s: State, p: Pid, secs: nat) returns (run: seq<State>)
    requires Init(s) && p in s.procs && p in s.clock && secs in s.clock[p]
    requires s.tmp.None? && s.ledger.Some? && s.ledger.value.content.Garbled?
    ensures Run(run) && run[0] == s
    ensures run[|run|-1] == s.(procs := s.procs[p := Naming(None, s.ledger.value, secs, 0)])
  {
    run := Then([s], p, LookForTmp(true));
    run := Then(run, p, ReadLedger(false));
    run := Then(run, p, ReadClock(secs));
  }
}
