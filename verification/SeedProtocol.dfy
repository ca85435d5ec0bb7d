/**
 The private index's seed protocol, as the steps any number of processes interleave.

 One directory holds the index, its marker (`index.tree`), the ledger and the lock. A seed
 removes the marker, runs `read-tree`, and renames a new marker in, all under the lock;
 readers of the marker and the index take no lock. Every file operation is one step, every
 step that can fail has a failing form, and a process can die anywhere. One that dies while
 git loads the index for it may leave that git running: an orphan, whose load still lands.
 */
module SeedProtocol {
  import opened Prelude

  type Pid = nat
  type Tree = nat
  /** A seen tree; `None` is the empty index (`read-tree --empty`). */
  type Seen = Option<Tree>

  /** `id` is the marker file's (mtime, length, inode): a rename brings in a fresh one. */
  datatype Marker = Marker(id: nat, names: Seen)
  datatype Index = NoIndex | Holds(tree: Seen)
  datatype LedgerFile = NoLedger | Unreadable | Names(seen: Seen)

  datatype Error = LockBusy | LedgerMoved | LedgerUnreadable | Failed
  datatype Reply =
    | Ensured(seeded: bool, marker: Option<nat>, tree: Seen)
    | Written
    | Refused(error: Error)

  /** `Save` is any ledger write that does not fold (an accept, a flag, an opening root). */
  datatype Call = Ensure | Reseed | Fold | Save

  /** Where a process stands; each name says what has just happened. */
  datatype Pc =
    | Idle
    | Returned(reply: Reply)
    | Looking(tree: Seen, locked: bool)
    | HaveId(tree: Seen, locked: bool, id: Option<nat>)
    | HaveHeader(tree: Seen, locked: bool, id: Option<nat>, usable: bool)
    | WantLock(call: Call, tree: Seen)
    | Committing(call: Call, tree: Seen)
    | Checking(call: Call, tree: Seen)
    | Seeding(call: Call, tree: Seen)
    | Unmarked(call: Call, tree: Seen)
    | Loaded(call: Call, tree: Seen)
    | Marked(call: Call, tree: Seen)
    | SeedFailed(call: Call, tree: Seen)
    | Orphaned(tree: Seen)
    | Dead

  /**
   Two fields record history: `born[i]` is the tree the marker with identity `i` was written
   with, and `stray` says that the last load of the index was an orphan's.
   */
  datatype State = State(
    marker: Option<Marker>,
    index: Index,
    ledger: LedgerFile,
    lock: Option<Pid>,
    procs: map<Pid, Pc>,
    born: seq<Seen>,
    stray: bool)

  datatype Action =
    | Begin(call: Call, tree: Seen)
    | ReadId(ok: bool)
    | ReadHeader(ok: bool)
    | ReadContent(ok: bool)
    | TakeLock
    | GiveUpLock
    | CommitLedger(ok: bool)
    | ReadLedger(ioError: bool)
    | RemoveMarker(ok: bool)
    | ReadTree(ok: bool)
    | WriteMarker(ok: bool)
    | ForgetMarker(ok: bool)
    | Return(ok: bool)
    | MoveAside
    | Crash(leaves: bool)
    | Land

  predicate HoldsLock(pc: Pc) {
    match pc
    case Looking(_, locked) => locked
    case HaveId(_, locked, _) => locked
    case HaveHeader(_, locked, _, _) => locked
    case Committing(_, _) => true
    case Checking(_, _) => true
    case Seeding(_, _) => true
    case Unmarked(_, _) => true
    case Loaded(_, _) => true
    case Marked(_, _) => true
    case SeedFailed(_, _) => true
    case _ => false
  }

  function CurrentId(s: State): Option<nat> {
    match s.marker
    case None => None
    case Some(m) => Some(m.id)
  }

  /** What a look at the marker's identity gives: a failing one gives what a missing marker does. */
  function LookAtId(s: State, ok: bool): Option<nat> {
    if ok then CurrentId(s) else None
  }

  // ---------------------------------------------------------------------------------------
  // Steps
  // ---------------------------------------------------------------------------------------

  function Goto(s: State, p: Pid, pc: Pc): State {
    s.(procs := s.procs[p := pc])
  }

  /** A step that returns: the guard is dropped with the call's scope. */
  function Leave(s: State, p: Pid, reply: Reply): State {
    Goto(s, p, Returned(reply)).(lock := if s.lock == Some(p) then None else s.lock)
  }

  /** `is_fresh`'s verdict once the header has been seen: the marker names `tree`. */
  predicate Fresh(s: State, tree: Seen, id: Option<nat>, usable: bool) {
    id.Some? && usable && s.marker.Some? && s.marker.value.names == tree
  }

  /** `seed_checked`'s comparison with the ledger on disk. */
  function Check(ledger: LedgerFile, tree: Seen, ioError: bool): Option<Error> {
    if tree.None? then None
    else if ioError then Some(LedgerUnreadable)
    else match ledger
         case NoLedger => None
         case Unreadable => Some(LedgerUnreadable)
         case Names(seen) => if seen == tree then None else Some(LedgerMoved)
  }

  function AfterLock(call: Call, tree: Seen): Pc {
    match call
    case Ensure => Looking(tree, true)
    case Reseed => Checking(call, tree)
    case Fold => Committing(call, tree)
    case Save => Committing(call, tree)
  }

  /** Where a death leaves a process: gone, or gone with its git still to load the index. */
  function AfterDeath(pc: Pc, leaves: bool): Pc {
    if leaves && pc.Unmarked? then Orphaned(pc.tree) else Dead
  }

  /** The state after process `p` does `a`, or `None` when it cannot. */
  function Next(s: State, p: Pid, a: Action): (r: Option<State>) {
    if p !in s.procs || s.procs[p].Dead? then None
    else
      var pc := s.procs[p];
      match a
      case Crash(leaves) =>
        Some(Goto(s, p, AfterDeath(pc, leaves)).(lock := if s.lock == Some(p) then None else s.lock))
      case Land =>
        if pc.Orphaned? then Some(Goto(s, p, Dead).(index := Holds(pc.tree), stray := true)) else None
      // An opener that met an unreadable ledger, or another root's, renames it away. It holds
      // no lock while it does.
      case MoveAside => if pc.Idle? || pc.Returned? then Some(s.(ledger := NoLedger)) else None
      case Begin(call, tree) =>
        if pc.Idle? || pc.Returned? then Some(Goto(s, p, Start(call, tree))) else None

      // A look that fails finds nothing, and nothing is never fresh.
      case ReadId(ok) =>
        if pc.Looking? then Some(Goto(s, p, HaveId(pc.tree, pc.locked, LookAtId(s, ok)))) else None
      case ReadHeader(ok) =>
        if pc.HaveId? then Some(Goto(s, p, HaveHeader(pc.tree, pc.locked, pc.id, ok && s.index.Holds?))) else None
      case ReadContent(ok) =>
        if !pc.HaveHeader? then None
        else if ok && Fresh(s, pc.tree, pc.id, pc.usable) then Some(Leave(s, p, Ensured(false, pc.id, pc.tree)))
        else Some(Goto(s, p, if pc.locked then Checking(Ensure, pc.tree) else WantLock(Ensure, pc.tree)))

      case TakeLock =>
        if pc.WantLock? && s.lock.None? then Some(Goto(s, p, AfterLock(pc.call, pc.tree)).(lock := Some(p))) else None
      case GiveUpLock => if pc.WantLock? then Some(Leave(s, p, Refused(LockBusy))) else None

      case CommitLedger(ok) =>
        if !pc.Committing? then None
        else if !ok then Some(Leave(s, p, Refused(Failed)))
        else if pc.call.Fold? then Some(Goto(s, p, Seeding(pc.call, pc.tree)).(ledger := Names(pc.tree)))
        else Some(Leave(s, p, Written).(ledger := Names(pc.tree)))
      case ReadLedger(ioError) =>
        if !pc.Checking? then None
        else
          (match Check(s.ledger, pc.tree, ioError)
           case None => Some(Goto(s, p, Seeding(pc.call, pc.tree)))
           case Some(e) => Some(Leave(s, p, Refused(e))))

      case RemoveMarker(ok) =>
        if !pc.Seeding? then None
        else if ok then Some(Goto(s, p, Unmarked(pc.call, pc.tree)).(marker := None))
        else if s.marker.None? then None   // "not there" is not a failure
        else Some(Goto(s, p, SeedFailed(pc.call, pc.tree)))
      case ReadTree(ok) =>
        if !pc.Unmarked? then None
        else if ok then Some(Goto(s, p, Loaded(pc.call, pc.tree)).(index := Holds(pc.tree), stray := false))
        else Some(Goto(s, p, SeedFailed(pc.call, pc.tree)))
      case WriteMarker(ok) =>
        if !pc.Loaded? then None
        else if ok then
          Some(Goto(s, p, Marked(pc.call, pc.tree))
               .(marker := Some(Marker(|s.born|, pc.tree)), born := s.born + [pc.tree]))
        else Some(Goto(s, p, SeedFailed(pc.call, pc.tree)))

      case Return(ok) =>
        if pc.Marked? then
          Some(Leave(s, p, if pc.call.Fold? then Written else Ensured(true, LookAtId(s, ok), pc.tree)))
        else if pc.SeedFailed? && !pc.call.Fold? then Some(Leave(s, p, Refused(Failed)))
        else None
      case ForgetMarker(ok) =>
        if pc.SeedFailed? && pc.call.Fold? then
          Some(Leave(s, p, Written).(marker := if ok then None else s.marker))
        else None
  }

  function Start(call: Call, tree: Seen): Pc {
    if call.Ensure? then Looking(tree, false) else WantLock(call, tree)
  }

  // ---------------------------------------------------------------------------------------
  // Reachable states
  // ---------------------------------------------------------------------------------------

  /** A first look at a directory: any ledger file, no index, no marker, nobody running. */
  predicate Init(s: State) {
    && s.marker.None? && s.index.NoIndex? && s.lock.None? && s.born == [] && !s.stray
    && forall p :: p in s.procs ==> s.procs[p].Idle?
  }

  predicate Steps(s: State, t: State, p: Pid, a: Action) {
    Next(s, p, a) == Some(t)
  }

  ghost predicate Follows(s: State, t: State) {
    exists p, a :: Steps(s, t, p, a)
  }

  /** A run from any state: each state follows from the one before by one process's step. */
  ghost predicate Chain(run: seq<State>) {
    && |run| > 0
    && forall i, j :: 0 <= i && j == i + 1 < |run| ==> Follows(run[i], run[j])
  }

  ghost predicate Run(run: seq<State>) {
    Chain(run) && Init(run[0])
  }

  /** A marker names the tree the index holds, unless an orphan had the last word. */
  predicate MarkerTells(s: State) {
    s.marker.Some? && !s.stray ==> s.index == Holds(s.marker.value.names)
  }

  predicate LedgerAllows(ledger: LedgerFile, tree: Seen) {
    tree.None? || ledger.NoLedger? || ledger == Names(tree)
  }

  predicate IdKnown(s: State, id: Option<nat>) {
    id.Some? ==> id.value < |s.born|
  }

  /** What holds of a process's place in the directory it shares. */
  predicate PcOk(s: State, pc: Pc) {
    match pc
    case HaveId(_, _, id) => IdKnown(s, id)
    case HaveHeader(_, _, id, _) => IdKnown(s, id)
    case Committing(call, _) => call.Fold? || call.Save?
    case Checking(call, _) => call.Ensure? || call.Reseed?
    case Seeding(call, tree) => !call.Save? && LedgerAllows(s.ledger, tree)
    case Unmarked(call, tree) => !call.Save? && LedgerAllows(s.ledger, tree) && s.marker.None?
    case Loaded(call, tree) =>
      !call.Save? && LedgerAllows(s.ledger, tree) && s.marker.None? && (s.stray || s.index == Holds(tree))
    case Marked(call, tree) => !call.Save? && s.marker.Some? && s.marker.value.names == tree
    case SeedFailed(call, _) => !call.Save?
    case Returned(Ensured(_, Some(id), tree)) =>
      // The identity handed out is the answer's, or it is gone (and cannot come back).
      id < |s.born| && (CurrentId(s) == Some(id) ==> s.born[id] == tree)
    case _ => true
  }

  predicate LockAgrees(s: State, p: Pid) {
    p in s.procs && HoldsLock(s.procs[p]) <==> s.lock == Some(p)
  }

  ghost predicate Inv(s: State) {
    && MarkerTells(s)
    && MarkerBorn(s)
    && (forall p :: LockAgrees(s, p))
    && (forall p :: p in s.procs ==> PcOk(s, s.procs[p]))
  }

  /** No two processes are ever past the lock at once. */
  lemma OneHolder(s: State, p: Pid, q: Pid)
    requires Inv(s)
    requires p in s.procs && q in s.procs && HoldsLock(s.procs[p]) && HoldsLock(s.procs[q])
    ensures p == q
  {
    assert LockAgrees(s, p) && LockAgrees(s, q);
  }

  /** The comparison lets a seed go on exactly when the tree is empty or the ledger allows it. */
  lemma CheckAllows(ledger: LedgerFile, tree: Seen, ioError: bool)
    ensures Check(ledger, tree, ioError).None? <==> tree.None? || (!ioError && LedgerAllows(ledger, tree))
    ensures Check(ledger, tree, ioError) == Some(LedgerMoved) <==>
      tree.Some? && !ioError && ledger.Names? && ledger.seen != tree
  {
  }

  /** Places that rest on nothing but the call they belong to. */
  lemma PlacesApart(s: State, pc: Pc, leaves: bool, call: Call, tree: Seen)
    ensures PcOk(s, AfterDeath(pc, leaves)) && PcOk(s, Start(call, tree)) && PcOk(s, AfterLock(call, tree))
  {
  }

  /** The steps of a seed and its return. */
  predicate Seeds(a: Action) {
    a.RemoveMarker? || a.ReadTree? || a.WriteMarker? || a.Return? || a.ForgetMarker?
  }

  lemma SeedKeepsOwn(s: State, t: State, p: Pid, a: Action)
    requires MarkerBorn(s) && p in s.procs && PcOk(s, s.procs[p]) && Steps(s, t, p, a) && Seeds(a)
    ensures p in t.procs && PcOk(t, t.procs[p])
  {
  }

  lemma OtherKeepsOwn(s: State, t: State, p: Pid, a: Action)
    requires MarkerBorn(s) && p in s.procs && PcOk(s, s.procs[p]) && Steps(s, t, p, a) && !Seeds(a)
    ensures p in t.procs && PcOk(t, t.procs[p])
  {
    var pc := s.procs[p];
    PlacesApart(t, pc, a.Crash? && a.leaves, if a.Begin? then a.call else Ensure, if a.Begin? then a.tree else None);
    if pc.WantLock? {
      PlacesApart(t, pc, false, pc.call, pc.tree);
    }
    if pc.Checking? && a.ReadLedger? {
      CheckAllows(s.ledger, pc.tree, a.ioError);
    }
    hide AfterDeath, Start, AfterLock, Check;
  }

  /** The stepping process's own place stays right. */
  lemma StepKeepsOwn(s: State, t: State, p: Pid, a: Action)
    requires Inv(s) && Steps(s, t, p, a)
    ensures p in t.procs && PcOk(t, t.procs[p])
  {
    assert p in s.procs;
    hide LockAgrees, Next, PcOk, MarkerTells, MarkerBorn, Seeds;
    if Seeds(a) {
      SeedKeepsOwn(s, t, p, a);
    } else {
      OtherKeepsOwn(s, t, p, a);
    }
  }

  /** The marker was born with what it names. */
  predicate MarkerBorn(s: State) {
    s.marker.Some? ==> s.marker.value.id < |s.born| && s.born[s.marker.value.id] == s.marker.value.names
  }

  lemma StepKeepsMarker(s: State, t: State, p: Pid, a: Action)
    requires Inv(s) && Steps(s, t, p, a)
    ensures MarkerTells(t) && MarkerBorn(t)
  {
    hide LockAgrees, HoldsLock;
    assert PcOk(s, s.procs[p]);
  }

  /** A step moves one process, and the lock only to it or from it. */
  predicate OneMoves(s: State, t: State, p: Pid) {
    && p in t.procs && t.procs == s.procs[p := t.procs[p]]
    && (t.lock == s.lock || (s.lock.None? && t.lock == Some(p)) || (s.lock == Some(p) && t.lock.None?))
  }

  lemma StepMovesOne(s: State, t: State, p: Pid, a: Action)
    requires Steps(s, t, p, a)
    ensures OneMoves(s, t, p)
  {
    hide Start, AfterLock, AfterDeath, Check, Fresh, LookAtId;
  }

  /** What one process's step can change for the others. */
  ghost predicate Moves(s: State, t: State, p: Pid) {
    && OneMoves(s, t, p)
    && s.born <= t.born
    && (s.lock != Some(p) ==> t.marker == s.marker && (t.stray || (t.index == s.index && !s.stray)))
    && (s.lock != Some(p) ==> t.ledger == s.ledger || t.ledger.NoLedger?)
    && (t.marker == s.marker || t.marker.None? || CurrentId(t) == Some(|s.born|))
  }

  lemma StepMoves(s: State, t: State, p: Pid, a: Action)
    requires Inv(s) && Steps(s, t, p, a)
    ensures Moves(s, t, p)
  {
    hide PcOk, MarkerTells, MarkerBorn, OneMoves, Start, AfterLock, AfterDeath, Check, Fresh, LookAtId;
    assert LockAgrees(s, p);
    StepMovesOne(s, t, p, a);
  }

  /** The stepping process has the lock exactly when its new place is past it. */
  lemma StepKeepsOwnLock(s: State, t: State, p: Pid, a: Action)
    requires LockAgrees(s, p) && Steps(s, t, p, a)
    ensures LockAgrees(t, p)
  {
    hide Check, Fresh, LookAtId;
  }

  lemma StepKeepsLock(s: State, t: State, p: Pid, a: Action)
    requires Inv(s) && Steps(s, t, p, a)
    ensures forall q :: LockAgrees(t, q)
  {
    hide Next, PcOk, HoldsLock;
    StepMovesOne(s, t, p, a);
    assert LockAgrees(s, p);
    StepKeepsOwnLock(s, t, p, a);
    forall q
      ensures LockAgrees(t, q)
    {
      assert LockAgrees(s, q);
    }
  }

  /** Every other process's place stays right: only the lock's holder moves what it relies on. */
  lemma StepKeepsOther(s: State, t: State, p: Pid, q: Pid)
    requires Inv(s) && Moves(s, t, p) && q in t.procs && q != p
    ensures PcOk(t, t.procs[q])
  {
    assert PcOk(s, s.procs[q]) && LockAgrees(s, q);
  }

  lemma StepKeepsInv(s: State, t: State, p: Pid, a: Action)
    requires Inv(s) && Steps(s, t, p, a)
    ensures Inv(t)
  {
    StepKeepsLock(s, t, p, a);
    StepKeepsOwn(s, t, p, a);
    StepKeepsMarker(s, t, p, a);
    hide Next, PcOk, LockAgrees, MarkerTells, MarkerBorn;
    StepMoves(s, t, p, a);
    forall q | q in t.procs && q != p
      ensures PcOk(t, t.procs[q])
    {
      StepKeepsOther(s, t, p, q);
    }
  }

  lemma {:induction false} ChainKeepsInv(run: seq<State>, i: nat)
    requires Chain(run) && Inv(run[0]) && i < |run|
    ensures Inv(run[i])
    decreases i
  {
    if i > 0 {
      ChainKeepsInv(run, i - 1);
      assert Follows(run[i-1], run[i]);
      var p, a :| Steps(run[i-1], run[i], p, a);
      StepKeepsInv(run[i-1], run[i], p, a);
    }
  }

  lemma RunKeepsInv(run: seq<State>, i: nat)
    requires Run(run) && i < |run|
    ensures Inv(run[i])
  {
    ChainKeepsInv(run, i);
  }

  lemma OneStep(run: seq<State>, i: nat) returns (p: Pid)
    requires Chain(run) && Inv(run[0]) && i + 1 < |run|
    ensures Inv(run[i]) && Moves(run[i], run[i+1], p)
  {
    ChainKeepsInv(run, i);
    assert Follows(run[i], run[i+1]);
    var a;
    p, a :| Steps(run[i], run[i+1], p, a);
    StepMoves(run[i], run[i+1], p, a);
  }
}
