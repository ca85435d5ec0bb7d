/**
 Opening a root, as the steps any number of processes interleave: an unlocked look at the
 ledger, perhaps a rename aside, a second look under the lock, then a decision and a save.
 A process that has opened the root may save under the lock at any later time.
 */
module OpenProtocol {
  import opened Prelude

  type Pid = nat

  /** What a ledger file says to this build. */
  datatype Content =
    | Garbled
    | OtherRoot
    | FirstSight
    | NothingSeen
    | Accepted

  /** `id` tells one file from another whatever it is called. */
  datatype File = File(id: nat, content: Content)

  /** `ledger.json.unreadable-<secs>-<n>`. */
  datatype Name = Name(secs: nat, n: nat)

  datatype Look = Missing | Unreadable

  /**
   A move aside carries the file its process read and judged, and `second` is the first look's
   answer when it is the look under the lock that moves.
   */
  datatype Pc =
    | Start
    | TmpThere
    | TmpLocked
    | FirstLook
    | Moving(second: Option<Look>, judged: File)
    | Naming(second: Option<Look>, judged: File, secs: nat, n: nat)
    | Renaming(second: Option<Look>, judged: File, name: Name)
    | WantLock(first: Look)
    | SecondLook(first: Look)
    | Deciding
    | Saving(opener: bool, content: Content, listed: bool)
    | TmpWritten(opener: bool, file: File, listed: bool)
    | Opened
    | WriterWants(content: Content)
    | GaveUp
    | Dead

  /** `clock[p]` holds the seconds process `p` may read when it moves a ledger aside. */
  datatype State = State(
    ledger: Option<File>,
    tmp: Option<File>,
    asides: map<Name, File>,
    lock: Option<Pid>,
    procs: map<Pid, Pc>,
    clock: map<Pid, set<nat>>,
    files: nat)

  /** `write_tmp`: the whole file, a part of one, or not even an open file. */
  datatype Wrote = Whole | Part | Nothing

  datatype Action =
    | LookForTmp(ok: bool)
    | TakeLock
    | GiveUpLock
    | DropTmp(ok: bool)
    | ReadLedger(ioError: bool)
    | ReadClock(secs: nat)
    | CheckName(ok: bool)
    | RenameAside
    | ListSiblings(ok: bool)
    | WriteTmp(wrote: Wrote)
    | CommitTmp(ok: bool)
    | BeginWrite(content: Content)
    | Crash

  /** A process between its judgement of a file and the rename. */
  predicate MovesAside(pc: Pc) {
    pc.Moving? || pc.Naming? || pc.Renaming?
  }

  predicate HoldsLock(pc: Pc) {
    if MovesAside(pc) then pc.second.Some?
    else pc.TmpLocked? || pc.SecondLook? || pc.Deciding? || pc.Saving? || pc.TmpWritten?
  }

  // ---------------------------------------------------------------------------------------
  // Steps
  // ---------------------------------------------------------------------------------------

  function Goto(s: State, p: Pid, pc: Pc): State {
    s.(procs := s.procs[p := pc])
  }

  /** Leave the block the guard lives in. */
  function Leave(s: State, p: Pid, pc: Pc): State {
    Goto(s, p, pc).(lock := if s.lock == Some(p) then None else s.lock)
  }

  function Lock(s: State, p: Pid, pc: Pc): Option<State> {
    if s.lock.None? then Some(Goto(s, p, pc).(lock := Some(p))) else None
  }

  /** After a rename aside: the first look goes on to the lock, the second to its save. */
  function AfterAside(second: Option<Look>): Pc {
    if second.None? then WantLock(Unreadable) else Saving(true, NothingSeen, true)
  }

  function AfterFailure(opener: bool): Pc {
    if opener then GaveUp else Opened
  }

  /** The first look also compares the root the ledger was recorded for... */
  function FirstRead(s: State, p: Pid): State {
    if s.ledger.None? then Goto(s, p, WantLock(Missing))
    else if s.ledger.value.content.Garbled? || s.ledger.value.content.OtherRoot? then
      Goto(s, p, Moving(None, s.ledger.value))
    else Goto(s, p, Opened)
  }

  /** ...and the second does not: any ledger that parses is taken. */
  function SecondRead(s: State, p: Pid, first: Look): State {
    if s.ledger.None? then Goto(s, p, if first.Missing? then Deciding else Saving(true, NothingSeen, true))
    else if s.ledger.value.content.Garbled? then Goto(s, p, Moving(Some(first), s.ledger.value))
    else Leave(s, p, Opened)
  }

  function Written(s: State, p: Pid, pc: Pc, wrote: Wrote): State
    requires pc.Saving?
  {
    match wrote
    case Whole =>
      var file := File(s.files, pc.content);
      Goto(s, p, TmpWritten(pc.opener, file, pc.listed)).(tmp := Some(file), files := s.files + 1)
    case Part =>
      Leave(s, p, AfterFailure(pc.opener)).(tmp := Some(File(s.files, Garbled)), files := s.files + 1)
    case Nothing => Leave(s, p, AfterFailure(pc.opener))
  }

  function Next(s: State, p: Pid, a: Action): Option<State> {
    if p !in s.procs || p !in s.clock || s.procs[p].Dead? || s.procs[p].GaveUp? then None
    else
      var pc := s.procs[p];
      match a
      case Crash => Some(Leave(s, p, Dead))
      // A stat that fails reads as "not there", here and when a name is checked.
      case LookForTmp(ok) =>
        if pc.Start? then Some(Goto(s, p, if ok && s.tmp.Some? then TmpThere else FirstLook)) else None
      case TakeLock =>
        if pc.TmpThere? then Lock(s, p, TmpLocked)
        else if pc.WantLock? then Lock(s, p, SecondLook(pc.first))
        else if pc.WriterWants? then Lock(s, p, Saving(false, pc.content, true))
        else None
      case GiveUpLock =>
        if pc.TmpThere? || pc.WantLock? then Some(Goto(s, p, GaveUp))
        else if pc.WriterWants? then Some(Goto(s, p, Opened))
        else None
      case DropTmp(ok) =>
        if pc.TmpLocked? then Some(Leave(s, p, FirstLook).(tmp := if ok then None else s.tmp)) else None
      case ReadLedger(ioError) =>
        if !pc.FirstLook? && !pc.SecondLook? then None
        else if ioError then Some(Leave(s, p, GaveUp))
        else if pc.FirstLook? then Some(FirstRead(s, p))
        else Some(SecondRead(s, p, pc.first))

      case ReadClock(secs) =>
        if pc.Moving? && secs in s.clock[p] then Some(Goto(s, p, Naming(pc.second, pc.judged, secs, 0))) else None
      case CheckName(ok) =>
        if !pc.Naming? then None
        else
          var name := Name(pc.secs, pc.n);
          Some(Goto(s, p, if ok && name in s.asides then Naming(pc.second, pc.judged, pc.secs, pc.n + 1)
                          else Renaming(pc.second, pc.judged, name)))
      // Whatever is called `ledger.json` by now is what moves.
      case RenameAside =>
        if !pc.Renaming? then None
        else if s.ledger.None? then Some(Leave(s, p, GaveUp))
        else Some(Goto(s, p, AfterAside(pc.second)).(ledger := None, asides := s.asides[pc.name := s.ledger.value]))

      // A listing that fails reads as "no sibling".
      case ListSiblings(ok) =>
        if !pc.Deciding? then None
        else
          Some(Goto(s, p, if ok && |s.asides| > 0 then Saving(true, NothingSeen, true)
                          else Saving(true, FirstSight, ok)))
      case WriteTmp(wrote) => if pc.Saving? then Some(Written(s, p, pc, wrote)) else None
      case CommitTmp(ok) =>
        if !pc.TmpWritten? then None
        else if !ok || s.tmp.None? then Some(Leave(s, p, AfterFailure(pc.opener)))
        else Some(Leave(s, p, Opened).(ledger := s.tmp, tmp := None))
      case BeginWrite(content) => if pc.Opened? then Some(Goto(s, p, WriterWants(content))) else None
  }

  predicate Steps(s: State, t: State, p: Pid, a: Action) {
    Next(s, p, a) == Some(t)
  }

  ghost predicate Follows(s: State, t: State) {
    exists p, a :: Steps(s, t, p, a)
  }

  /** Files that are there were made, and the two names do not share one. */
  predicate Sane(s: State) {
    && (s.ledger.Some? ==> s.ledger.value.id < s.files)
    && (s.tmp.Some? ==> s.tmp.value.id < s.files)
    && (s.ledger.Some? && s.tmp.Some? ==> s.ledger.value.id != s.tmp.value.id)
  }

  /** Any ledger, any stale temporary file and any files moved aside may be there. */
  predicate Init(s: State) {
    && s.lock.None? && Sane(s)
    && forall p :: p in s.procs ==> s.procs[p].Start?
  }

  ghost predicate Run(run: seq<State>) {
    && |run| > 0 && Init(run[0])
    && forall i, j :: 0 <= i && j == i + 1 < |run| ==> Follows(run[i], run[j])
  }

  /** One more step of a run. */
  lemma Then(run: seq<State>, p: Pid, a: Action) returns (longer: seq<State>)
    requires Run(run) && Next(run[|run|-1], p, a).Some?
    ensures Run(longer) && |longer| == |run| + 1 && run == longer[..|run|]
    ensures longer[|run|] == Next(run[|run|-1], p, a).value
  {
    hide Next, Init;
    longer := run + [Next(run[|run|-1], p, a).value];
    forall i, j | 0 <= i && j == i + 1 < |longer|
      ensures Follows(longer[i], longer[j])
    {
      if j == |run| {
        assert Steps(longer[i], longer[j], p, a);
      } else {
        assert Follows(run[i], run[j]);
      }
    }
  }

  // ---------------------------------------------------------------------------------------
  // The invariant
  // ---------------------------------------------------------------------------------------

  /** A ledger, or one moved aside, is here. */
  predicate Known(s: State) {
    s.ledger.Some? || s.asides != map[]
  }

  /**
   What an opener saves: never a ledger while one is there, and a first sight exactly of a root
   not known, or of one it could not list.
   */
  predicate OpenerSaves(s: State, content: Content, listed: bool) {
    && s.ledger.None? && (content.FirstSight? || content.NothingSeen?)
    && (content.FirstSight? <==> !listed || !Known(s))
  }

  /** A ledger moved aside: one that does not parse, or at the first look another root's. */
  predicate Bad(content: Content, first: bool) {
    content.Garbled? || (first && content.OtherRoot?)
  }

  /** The file judged was the ledger; under the lock it still is, or there is none. */
  predicate JudgedOk(s: State, second: Option<Look>, judged: File) {
    && Bad(judged.content, second.None?)
    && judged.id < s.files && (s.tmp.Some? ==> s.tmp.value.id != judged.id)
    && (second.Some? ==> s.ledger.None? || s.ledger == Some(judged))
  }

  predicate PcOk(s: State, pc: Pc) {
    match pc
    case Moving(second, judged) => JudgedOk(s, second, judged)
    case Naming(second, judged, _, _) => JudgedOk(s, second, judged)
    case Renaming(second, judged, _) => JudgedOk(s, second, judged)
    case WantLock(first) => first.Unreadable? ==> Known(s)
    case SecondLook(first) => first.Unreadable? ==> Known(s)
    case Deciding => s.ledger.None?
    case Saving(opener, content, listed) => opener ==> OpenerSaves(s, content, listed)
    case TmpWritten(opener, file, listed) =>
      s.tmp == Some(file) && (opener ==> OpenerSaves(s, file.content, listed))
    case _ => true
  }

  predicate LockAgrees(s: State, p: Pid) {
    p in s.procs && HoldsLock(s.procs[p]) <==> s.lock == Some(p)
  }

  ghost predicate Inv(s: State) {
    && Sane(s)
    && (forall p :: LockAgrees(s, p))
    && (forall p :: p in s.procs ==> PcOk(s, s.procs[p]))
  }

  /** A step moves one process, and the lock only to it or from it. */
  predicate OneMoves(s: State, t: State, p: Pid) {
    && p in s.procs && p in t.procs && t.procs == s.procs[p := t.procs[p]]
    && t.clock == s.clock
    && (t.lock == s.lock || (s.lock.None? && t.lock == Some(p)) || (s.lock == Some(p) && t.lock.None?))
  }

  /** What one process's step can change for the others. */
  ghost predicate Moves(s: State, t: State, p: Pid) {
    && OneMoves(s, t, p)
    && s.files <= t.files
    && (t.tmp == s.tmp || t.tmp.None? || t.tmp.value.id == s.files)
    && (s.lock != Some(p) ==> t.tmp == s.tmp)
    && (s.lock != Some(p) ==> t.ledger == s.ledger || t.ledger.None?)
    && (Known(s) ==> Known(t))
    && (s.lock != Some(p) && !Known(s) ==> !Known(t))
  }

  lemma StepMovesOne(s: State, t: State, p: Pid, a: Action)
    requires Steps(s, t, p, a)
    ensures OneMoves(s, t, p)
  {
    hide AfterAside, AfterFailure, HoldsLock;
  }

  lemma StepMoves(s: State, t: State, p: Pid, a: Action)
    requires Inv(s) && Steps(s, t, p, a)
    ensures Moves(s, t, p)
  {
    hide OneMoves, PcOk, Sane, AfterAside, AfterFailure;
    StepMovesOne(s, t, p, a);
    assert LockAgrees(s, p);
    if a.RenameAside? && s.ledger.Some? {
      assert s.procs[p].name in t.asides;
    }
  }

  lemma StepKeepsOwnLock(s: State, t: State, p: Pid, a: Action)
    requires LockAgrees(s, p) && Steps(s, t, p, a)
    ensures LockAgrees(t, p)
  {
  }

  lemma StepKeepsLock(s: State, t: State, p: Pid, a: Action)
    requires Inv(s) && Steps(s, t, p, a)
    ensures forall q :: LockAgrees(t, q)
  {
    hide Next, PcOk, HoldsLock, Sane;
    StepMovesOne(s, t, p, a);
    assert LockAgrees(s, p);
    StepKeepsOwnLock(s, t, p, a);
    forall q
      ensures LockAgrees(t, q)
    {
      assert LockAgrees(s, q);
    }
  }

  /** The steps that move a ledger aside, and the decision. */
  predicate MovesOrDecides(a: Action) {
    a.ReadClock? || a.CheckName? || a.RenameAside? || a.ListSiblings?
  }

  lemma MoveKeepsOwn(s: State, t: State, p: Pid, a: Action)
    requires Sane(s) && p in s.procs && PcOk(s, s.procs[p]) && Steps(s, t, p, a) && MovesOrDecides(a)
    ensures p in t.procs && PcOk(t, t.procs[p])
  {
    hide Lock, AfterFailure;
    if a.RenameAside? && s.ledger.Some? {
      assert s.procs[p].name in t.asides;
    }
    assert |s.asides| == 0 <==> s.asides == map[];
  }

  lemma LookKeepsOwn(s: State, t: State, p: Pid, ioError: bool)
    requires Sane(s) && p in s.procs && PcOk(s, s.procs[p]) && Steps(s, t, p, ReadLedger(ioError))
    ensures p in t.procs && PcOk(t, t.procs[p])
  {
  }

  lemma RestKeepsOwn(s: State, t: State, p: Pid, a: Action)
    requires Sane(s) && p in s.procs && PcOk(s, s.procs[p]) && Steps(s, t, p, a)
    requires !MovesOrDecides(a) && !a.ReadLedger?
    ensures p in t.procs && PcOk(t, t.procs[p])
  {
    hide AfterAside, FirstRead, SecondRead, HoldsLock;
  }

  lemma StepKeepsOwn(s: State, t: State, p: Pid, a: Action)
    requires Inv(s) && Steps(s, t, p, a)
    ensures p in t.procs && PcOk(t, t.procs[p])
  {
    assert p in s.procs;
    hide Next, PcOk, LockAgrees, Sane, MovesOrDecides;
    if MovesOrDecides(a) {
      MoveKeepsOwn(s, t, p, a);
    } else if a.ReadLedger? {
      LookKeepsOwn(s, t, p, a.ioError);
    } else {
      RestKeepsOwn(s, t, p, a);
    }
  }

  lemma StepKeepsSane(s: State, t: State, p: Pid, a: Action)
    requires Inv(s) && Steps(s, t, p, a)
    ensures Sane(t)
  {
    hide LockAgrees, HoldsLock, PcOk, AfterAside, AfterFailure;
  }

  lemma StepKeepsOther(s: State, t: State, p: Pid, q: Pid)
    requires Inv(s) && Moves(s, t, p) && q in t.procs && q != p
    ensures PcOk(t, t.procs[q])
  {
    assert PcOk(s, s.procs[q]) && LockAgrees(s, q);
  }

  lemma StepKeepsInv(s: State, t: State, p: Pid, a: Action)
    requires Inv(s) && Steps(s, t, p, a)
    ensures Inv(t) && Moves(s, t, p)
  {
    StepKeepsLock(s, t, p, a);
    StepKeepsOwn(s, t, p, a);
    StepKeepsSane(s, t, p, a);
    StepMoves(s, t, p, a);
    hide Next, PcOk, LockAgrees, Sane;
    forall q | q in t.procs && q != p
      ensures PcOk(t, t.procs[q])
    {
      StepKeepsOther(s, t, p, q);
    }
  }

  lemma InitKeepsInv(s: State)
    requires Init(s)
    ensures Inv(s)
  {
  }

  lemma {:induction false} RunKeepsInv(run: seq<State>, i: nat)
    requires Run(run) && i < |run|
    ensures Inv(run[i])
    decreases i
  {
    hide Next, Inv, Init;
    if i > 0 {
      RunKeepsInv(run, i - 1);
      assert Follows(run[i-1], run[i]);
      var p, a :| Steps(run[i-1], run[i], p, a);
      StepKeepsInv(run[i-1], run[i], p, a);
    } else {
      InitKeepsInv(run[0]);
    }
  }

  /** The step from moment `k`, and whose it is. */
  lemma StepAt(run: seq<State>, k: nat) returns (p: Pid, a: Action)
    requires Run(run) && k + 1 < |run|
    ensures Steps(run[k], run[k+1], p, a) && Inv(run[k]) && Inv(run[k+1]) && Moves(run[k], run[k+1], p)
  {
    hide Next, Inv, Init, Moves;
    RunKeepsInv(run, k);
    assert Follows(run[k], run[k+1]);
    p, a :| Steps(run[k], run[k+1], p, a);
    StepKeepsInv(run[k], run[k+1], p, a);
  }

  /** Once a ledger was there, a ledger or one moved aside is there ever after. */
  lemma {:induction false} OnceKnown(run: seq<State>, i: nat, k: nat)
    requires Run(run) && i <= k < |run| && Known(run[i])
    ensures Known(run[k])
    decreases k
  {
    hide Next, Inv, Init, Follows, OneMoves;
    if i < k {
      OnceKnown(run, i, k - 1);
      var p, a := StepAt(run, k - 1);
    }
  }

  // ---------------------------------------------------------------------------------------
  // Main results
  // ---------------------------------------------------------------------------------------

  /** Process `p`'s step at moment `k` puts a first-sight ledger on disk. */
  ghost predicate SavesFirstSight(run: seq<State>, k: nat, p: Pid, listed: bool) {
    && k + 1 < |run| && p in run[k].procs
    && run[k].procs[p].TmpWritten? && run[k].procs[p].opener && run[k].procs[p].listed == listed
    && Steps(run[k], run[k+1], p, CommitTmp(true))
    && run[k+1].ledger.Some? && run[k+1].ledger.value.content.FirstSight?
  }

  lemma SaverHasLock(run: seq<State>, k: nat, p: Pid, listed: bool)
    requires Run(run) && SavesFirstSight(run, k, p, listed)
    ensures run[k].lock == Some(p) && (listed ==> !Known(run[k]))
    ensures Known(run[k+1])
  {
    RunKeepsInv(run, k);
    assert PcOk(run[k], run[k].procs[p]) && LockAgrees(run[k], p);
  }

  /**
   A first-sight ledger is saved by an opener that could list the directory only when no
   ledger and no moved-aside ledger was there at that moment or at any moment before.
   */
  lemma FirstSightMeansNeverSeen(run: seq<State>, k: nat, p: Pid, i: nat)
    requires Run(run) && SavesFirstSight(run, k, p, true) && i <= k
    ensures !Known(run[i])
  {
    SaverHasLock(run, k, p, true);
    hide Steps, Known, Follows, Init;
    if Known(run[i]) {
      OnceKnown(run, i, k);
    }
  }

  /**
   What an opener saves, exactly: a first sight if and only if no ledger was ever there or moved
   aside, or it could not list the directory. Else it saves a ledger with nothing seen.
   */
  lemma FirstSightExactly(run: seq<State>, k: nat, p: Pid)
    requires Run(run) && k + 1 < |run| && p in run[k].procs
    requires run[k].procs[p].TmpWritten? && run[k].procs[p].opener
    requires Steps(run[k], run[k+1], p, CommitTmp(true))
    ensures run[k+1].ledger.Some?
    ensures var content := run[k+1].ledger.value.content;
            && (content.FirstSight? || content.NothingSeen?)
            && (content.FirstSight? <==> !run[k].procs[p].listed || forall i :: 0 <= i <= k ==> !Known(run[i]))
  {
    RunKeepsInv(run, k);
    assert PcOk(run[k], run[k].procs[p]);
    hide Known;
    if i: nat :| i <= k && Known(run[i]) {
      OnceKnown(run, i, k);
    }
  }

  /**
   A look, first or second, opens a ledger that is not bad, is on its way to move aside one that
   is, and changes nothing itself.
   */
  lemma LookExactly(s: State, t: State, p: Pid, ioError: bool)
    requires Steps(s, t, p, ReadLedger(ioError))
    ensures p in s.procs && (s.procs[p].FirstLook? || s.procs[p].SecondLook?) && p in t.procs
    ensures var first := s.procs[p].FirstLook?;
      && (t.procs[p].Opened? <==> !ioError && s.ledger.Some? && !Bad(s.ledger.value.content, first))
      && (MovesAside(t.procs[p]) <==> !ioError && s.ledger.Some? && Bad(s.ledger.value.content, first))
      && (t.procs[p].GaveUp? <==> ioError)
      && (MovesAside(t.procs[p]) ==> Some(t.procs[p].judged) == s.ledger)
    ensures t.ledger == s.ledger && t.tmp == s.tmp && t.asides == s.asides
  {
  }

  /** Not yet past the opening. */
  predicate StillOpens(pc: Pc) {
    !pc.Opened? && !pc.WriterWants? && (pc.Saving? || pc.TmpWritten? ==> pc.opener)
  }

  /** Nobody opens a root without a ledger on disk at that moment. */
  lemma OpenedWithLedger(s: State, t: State, p: Pid, a: Action)
    requires Steps(s, t, p, a)
    requires p in s.procs && StillOpens(s.procs[p]) && p in t.procs && t.procs[p].Opened?
    ensures t.ledger.Some?
  {
    hide HoldsLock;
  }

  /** Opened, or on its way to a save after that, or dead. */
  predicate PastOpening(pc: Pc) {
    pc.Dead? || (!pc.GaveUp? && !StillOpens(pc))
  }

  lemma StepStaysPast(s: State, t: State, p: Pid, q: Pid, a: Action)
    requires Steps(s, t, q, a) && p in s.procs && PastOpening(s.procs[p])
    ensures p in t.procs && PastOpening(t.procs[p])
  {
    StepMovesOne(s, t, q, a);
    hide HoldsLock, OneMoves, AfterAside;
  }

  /** A root once opened stays open to its process: a save that fails, or finds no lock, does not end that. */
  lemma {:induction false} OpenedStays(run: seq<State>, i: nat, k: nat, p: Pid)
    requires Run(run) && i <= k < |run| && p in run[i].procs && PastOpening(run[i].procs[p])
    ensures p in run[k].procs && PastOpening(run[k].procs[p])
    decreases k
  {
    hide Inv, Run, Moves, Steps, PastOpening;
    if i < k {
      OpenedStays(run, i, k - 1, p);
      var q, a := StepAt(run, k - 1);
      StepStaysPast(run[k-1], run[k], p, q, a);
    }
  }

  /** The step is another process's. */
  ghost predicate StepOfAnother(s: State, t: State, p: Pid) {
    exists q, a :: Steps(s, t, q, a) && q != p
  }

  lemma GaveUpStays(s: State, t: State, p: Pid, q: Pid, a: Action)
    requires Steps(s, t, q, a) && p in s.procs && s.procs[p].GaveUp?
    ensures p in t.procs && t.procs[p].GaveUp? && StepOfAnother(s, t, p)
  {
    StepMovesOne(s, t, q, a);
    assert q != p;
  }

  lemma GaveUpUnlocked(s: State, p: Pid)
    requires Inv(s)
    ensures p in s.procs && s.procs[p].GaveUp? ==> s.lock != Some(p)
  {
    assert LockAgrees(s, p);
  }

  /** An opener that gave up makes no step any more, and has no lock. */
  lemma {:induction false} GaveUpForGood(run: seq<State>, i: nat, k: nat, p: Pid)
    requires Run(run) && i <= k < |run| && p in run[i].procs && run[i].procs[p].GaveUp?
    ensures p in run[k].procs && run[k].procs[p].GaveUp? && run[k].lock != Some(p)
    ensures k > i ==> StepOfAnother(run[k-1], run[k], p)
    decreases k
  {
    hide Inv, Run, Moves, Steps, StepOfAnother, Next;
    RunKeepsInv(run, k);
    GaveUpUnlocked(run[k], p);
    if i < k {
      GaveUpForGood(run, i, k - 1, p);
      var q, a := StepAt(run, k - 1);
      GaveUpStays(run[k-1], run[k], p, q, a);
    }
  }

  /**
   A first sight saved after another: only by an opener whose listing failed, over a directory
   in which a ledger lies moved aside.
   */
  lemma FirstSightAgain(run: seq<State>, k: nat, p: Pid, a: bool, l: nat, q: Pid, b: bool)
    requires Run(run) && SavesFirstSight(run, k, p, a) && SavesFirstSight(run, l, q, b) && k < l
    ensures !b && run[l].ledger.None? && run[l].asides != map[]
  {
    hide Run, Steps, Inv;
    SaverHasLock(run, k, p, a);
    SaverHasLock(run, l, q, b);
    OnceKnown(run, k + 1, l);
    OpenerReplacesNothing(run, l, q, true);
  }

  /** Hence at most one first sight per root by openers that could list it, over every run. */
  lemma FirstSightOnce(run: seq<State>, k: nat, p: Pid, l: nat, q: Pid)
    requires Run(run) && SavesFirstSight(run, k, p, true) && SavesFirstSight(run, l, q, true)
    ensures k == l && p == q
  {
    hide Steps, Known, Run;
    SaverHasLock(run, k, p, true);
    SaverHasLock(run, l, q, true);
    if k < l {
      FirstSightMeansNeverSeen(run, l, q, k + 1);
    } else if l < k {
      FirstSightMeansNeverSeen(run, k, p, l + 1);
    }
  }

  /**
   The decision of an opener that found no ledger twice: with a listing that works, a first
   sight exactly when the root was never known before. It is wrong, a first sight although a
   ledger was once there, if and only if one lies moved aside and the listing failed.
   */
  lemma FirstSightWrongExactly(run: seq<State>, k: nat, p: Pid, ok: bool, t: State)
    requires Run(run) && k < |run| && p in run[k].procs && run[k].procs[p].Deciding?
    requires Steps(run[k], t, p, ListSiblings(ok))
    ensures t.procs[p].Saving? && run[k].ledger.None?
    ensures t.procs[p].content.FirstSight? && (exists i :: 0 <= i <= k && Known(run[i]))
            <==> !ok && run[k].asides != map[]
    ensures ok ==> (t.procs[p].content.FirstSight? <==> forall i :: 0 <= i <= k ==> !Known(run[i]))
  {
    RunKeepsInv(run, k);
    assert PcOk(run[k], run[k].procs[p]);
    if i: nat :| i <= k && Known(run[i]) {
      OnceKnown(run, i, k);
    }
    if run[k].asides != map[] {
      assert Known(run[k]);
      assert |run[k].asides| > 0;
    }
  }

  /** An opener's commit puts its ledger where no ledger is: it writes over nothing. */
  lemma OpenerReplacesNothing(run: seq<State>, k: nat, p: Pid, ok: bool)
    requires Run(run) && k + 1 < |run| && p in run[k].procs
    requires run[k].procs[p].TmpWritten? && run[k].procs[p].opener
    requires Steps(run[k], run[k+1], p, CommitTmp(ok))
    ensures run[k].ledger.None?
  {
    RunKeepsInv(run, k);
    assert PcOk(run[k], run[k].procs[p]);
  }

  /** A commit publishes the very file its own process wrote, though all share one temporary name. */
  lemma CommitPublishesOwnFile(run: seq<State>, k: nat, p: Pid)
    requires Run(run) && k + 1 < |run| && p in run[k].procs && run[k].procs[p].TmpWritten?
    requires Steps(run[k], run[k+1], p, CommitTmp(true))
    ensures run[k+1].ledger == Some(run[k].procs[p].file)
  {
    RunKeepsInv(run, k);
    assert PcOk(run[k], run[k].procs[p]);
  }
}
