/**
 The private index's own code, run by one process while any others take any steps between
 its file operations. Each file operation is one step of the seed protocol, so the code is
 one of the processes the protocol's theorems speak of.
 */
module PrivateIndexCode {
  import opened Prelude
  import opened SeedProtocol
  import opened SeedLaws

  /** Which of one look's three reads fail. */
  datatype LookFaults = LookFaults(idFails: bool, headerFails: bool, contentFails: bool)

  /** How the file system and git answer during one call. */
  datatype Faults = Faults(
    firstLook: LookFaults,
    secondLook: LookFaults,
    lastIdFails: bool,
    lockBusy: bool,
    ledgerIo: bool,
    commitFails: bool,
    removeFails: bool,
    readTreeFails: bool,
    markerFails: bool,
    forgetFails: bool)

  /** How a scan's own reads answer. */
  datatype ReadFaults = ReadFaults(unreadable: bool, stillUnreadable: bool, othersFail: bool, idFails: bool)

  /** What a scan's reads saw of the index; `noticed` says it may be two indexes. */
  datatype ScanAnswer =
    | Pile(tree: Seen, changed: Index, listed: Index, noticed: bool)
    | IndexMoved
    | NoPile(error: Error)

  const SCAN_ATTEMPTS: nat := 2

  function Last<T>(s: seq<T>): T
    requires |s| > 0
  {
    s[|s|-1]
  }

  ghost predicate StepByOther(s: State, t: State, me: Pid) {
    exists p, a :: p != me && Steps(s, t, p, a)
  }

  /** `after` is `before` and then any number of steps of processes other than `me`. */
  ghost predicate OthersRan(before: seq<State>, after: seq<State>, me: Pid) {
    && 0 < |before| && before <= after && Run(after)
    && forall i, j :: |before| - 1 <= i && j == i + 1 < |after| ==> StepByOther(after[i], after[j], me)
  }

  /** What a process standing still can rely on. */
  ghost predicate Undisturbed(s: State, t: State, me: Pid) {
    && me in s.procs && me in t.procs && t.procs[me] == s.procs[me]
    && (t.lock == Some(me) <==> s.lock == Some(me))
    && s.born <= t.born
    && (s.lock == Some(me) ==> t.marker == s.marker && (t.ledger == s.ledger || t.ledger.NoLedger?)
                               && (t.stray || (t.index == s.index && !s.stray)))
  }

  lemma {:induction false} OthersLeaveMine(before: seq<State>, after: seq<State>, me: Pid)
    requires Run(before) && OthersRan(before, after, me) && me in Last(before).procs
    ensures Undisturbed(Last(before), Last(after), me) && Inv(Last(after))
    decreases |after|
  {
    ChainKeepsInv(after, |after| - 1);
    if |after| > |before| {
      var shorter := after[..|after|-1];
      forall i, j | 0 <= i && j == i + 1 < |shorter|
        ensures Follows(shorter[i], shorter[j])
      {
        assert Follows(after[i], after[j]);
      }
      forall i, j | |before| - 1 <= i && j == i + 1 < |shorter|
        ensures StepByOther(shorter[i], shorter[j], me)
      {
        assert StepByOther(after[i], after[j], me);
      }
      OthersLeaveMine(before, shorter, me);
      var s, t := Last(shorter), Last(after);
      assert StepByOther(after[|after|-2], after[|after|-1], me);
      var p, a :| p != me && Steps(s, t, p, a);
      StepMoves(s, t, p, a);
      StepKeepsInv(s, t, p, a);
      assert LockAgrees(s, me) && LockAgrees(t, me);
    }
  }

  lemma Extend(run: seq<State>, t: State, p: Pid, a: Action)
    requires Run(run) && Steps(Last(run), t, p, a)
    ensures Run(run + [t]) && Inv(Last(run)) && Inv(t)
  {
    ChainKeepsInv(run, |run| - 1);
    StepKeepsInv(Last(run), t, p, a);
    var longer := run + [t];
    forall i, j | 0 <= i && j == i + 1 < |longer|
      ensures Follows(longer[i], longer[j])
    {
      if j == |run| {
        assert Steps(longer[i], longer[j], p, a);
      } else {
        assert Follows(run[i], run[j]);
      }
    }
  }

  /** Something the directory can show at one moment. */
  datatype Fact =
    | Locked
    | NotFresh(tree: Seen, holder: Option<Pid>)
    | NamesOther(tree: Seen)
    | Illegible
    | HasId(id: Option<nat>)
    | NoId
    | Allows(tree: Seen)
    | Saved(tree: Seen, holder: Option<Pid>)
    | Seeded(tree: Seen, holder: Option<Pid>)

  /** Header and marker are what an answer without a seed needs. */
  predicate FreshFor(s: State, tree: Seen) {
    s.index.Holds? && s.marker.Some? && s.marker.value.names == tree
  }

  predicate Shows(s: State, fact: Fact) {
    match fact
    case Locked => s.lock.Some?
    case NotFresh(tree, holder) => !FreshFor(s, tree) && (holder.Some? ==> s.lock == holder)
    case NamesOther(tree) => s.ledger.Names? && s.ledger.seen != tree
    case Illegible => s.ledger.Unreadable?
    case HasId(id) => CurrentId(s) == id
    case NoId => s.marker.None?
    case Allows(tree) => tree.None? || LedgerAllows(s.ledger, tree)
    case Saved(tree, holder) => s.lock == holder && s.ledger == Names(tree)
    case Seeded(tree, holder) =>
      s.lock == holder && s.marker.Some? && s.marker.value.names == tree
      && (s.stray || s.index == Holds(tree))
  }

  /** At some moment since `from` the directory showed it. */
  ghost predicate Sometime(past: seq<State>, from: int, fact: Fact) {
    exists x :: 0 <= x < |past| && from <= x && Shows(past[x], fact)
  }

  lemma SometimeStill(past: seq<State>, longer: seq<State>, from: int, sooner: int, fact: Fact)
    requires past <= longer && sooner <= from
    ensures Sometime(past, from, fact) ==> Sometime(longer, sooner, fact)
  {
    if x :| 0 <= x < |past| && from <= x && Shows(past[x], fact) {
      assert Shows(longer[x], fact);
    }
  }

  predicate LookFails(g: LookFaults) {
    g.idFails || g.headerFails || g.contentFails
  }

  predicate SeedFails(f: Faults) {
    f.removeFails || f.readTreeFails || f.markerFails
  }

  /** Why a call of `Ensure` or `Reseed` for `tree` refused: each error has its one ground. */
  ghost predicate Grounds(past: seq<State>, from: int, tree: Seen, f: Faults, e: Error) {
    match e
    case LockBusy => f.lockBusy || Sometime(past, from, Locked)
    case LedgerMoved => tree.Some? && Sometime(past, from, NamesOther(tree))
    case LedgerUnreadable => tree.Some? && (f.ledgerIo || Sometime(past, from, Illegible))
    case Failed => SeedFails(f)
  }

  lemma GroundsStill(past: seq<State>, longer: seq<State>, from: int, sooner: int, tree: Seen, f: Faults, e: Error)
    requires past <= longer && sooner <= from
    ensures Grounds(past, from, tree, f, e) ==> Grounds(longer, sooner, tree, f, e)
  {
    SometimeStill(past, longer, from, sooner, Locked);
    SometimeStill(past, longer, from, sooner, Illegible);
    if tree.Some? {
      SometimeStill(past, longer, from, sooner, NamesOther(tree));
    }
  }

  /** What was read at moment `x` is `tree`, except exactly while an orphan had the last word. */
  ghost predicate Saw(past: seq<State>, x: nat, index: Index, tree: Seen) {
    && x < |past| && past[x].index == index
    && (index != Holds(tree) <==> OrphanHasLastWord(past, x, tree))
    && (NoOrphan(past) ==> index == Holds(tree))
  }

  /** A pile's two reads, one after the other, both since moment `from`. */
  ghost predicate SawSince(past: seq<State>, from: nat, answer: ScanAnswer)
    requires answer.Pile?
  {
    exists x: nat, y: nat ::
      from <= x <= y && Saw(past, x, answer.changed, answer.tree) && Saw(past, y, answer.listed, answer.tree)
  }

  lemma FailedGrounds(past: seq<State>, from: int, tree: Seen, f: Faults)
    requires SeedFails(f)
    ensures Grounds(past, from, tree, f, Failed)
  {
  }

  lemma BusyGrounds(past: seq<State>, from: int, sooner: int, tree: Seen, f: Faults)
    requires sooner <= from && (f.lockBusy || Sometime(past, from, Locked))
    ensures Grounds(past, sooner, tree, f, LockBusy)
  {
    SometimeStill(past, past, from, sooner, Locked);
  }

  /** The ledger was saved, and the tree in it seeded no sooner than that, under the lock. */
  ghost predicate SavedThenSeeded(past: seq<State>, from: int, tree: Seen, me: Pid) {
    exists x :: 0 <= x < |past| && from <= x && Shows(past[x], Saved(tree, Some(me)))
                && Sometime(past, x, Seeded(tree, Some(me)))
  }

  lemma SeededLater(saved: seq<State>, past: seq<State>, from: int, tree: Seen, me: Pid)
    requires saved <= past && Sometime(saved, from, Saved(tree, Some(me)))
    requires Sometime(past, |saved|, Seeded(tree, Some(me)))
    ensures SavedThenSeeded(past, from, tree, me)
  {
    var x :| 0 <= x < |saved| && from <= x && Shows(saved[x], Saved(tree, Some(me)));
    SometimeStill(past, past, |saved|, x, Seeded(tree, Some(me)));
    assert Shows(past[x], Saved(tree, Some(me)));
  }

  lemma SavedThenSeededSooner(past: seq<State>, from: int, sooner: int, tree: Seen, me: Pid)
    requires sooner <= from
    ensures SavedThenSeeded(past, from, tree, me) ==> SavedThenSeeded(past, sooner, tree, me)
  {
  }

  /** At two moments the marker has two identities, or at one it is away. */
  predicate DifferAt(past: seq<State>, x: int, y: int)
    requires 0 <= x < |past| && 0 <= y < |past|
  {
    CurrentId(past[x]) != CurrentId(past[y]) || CurrentId(past[x]).None?
  }

  ghost predicate Unsteady(past: seq<State>, from: int) {
    exists x, y :: 0 <= x < |past| && 0 <= y < |past| && from <= x && from <= y && DifferAt(past, x, y)
  }

  /** All along the marker was the same one, naming `tree`, and an index was there. */
  ghost predicate Quiet(past: seq<State>, from: int, tree: Seen) {
    forall x :: 0 <= x < |past| && from <= x ==>
      FreshFor(past[x], tree) && past[x].marker == past[|past|-1].marker
  }

  predicate NoScanFault(f: Faults, g: ReadFaults) {
    !LookFails(f.firstLook) && !g.unreadable && !g.othersFail && !g.idFails && !f.lastIdFails
  }

  lemma QuietIsFresh(past: seq<State>, from: int, tree: Seen)
    ensures Quiet(past, from, tree) ==> !Sometime(past, from, NotFresh(tree, None)) && !Unsteady(past, from)
  {
  }

  /** What stands for another attempt, and against a quiet root, goes on standing. */
  lemma RetryGroundsStill(past: seq<State>, longer: seq<State>, from: int, sooner: int, tree: Seen, f: Faults)
    requires past <= longer && 0 <= sooner <= from < |past|
    ensures Unsteady(past, from) ==> Unsteady(longer, sooner)
    ensures Grounds(past, from, tree, f, LedgerMoved) ==> Grounds(longer, sooner, tree, f, LedgerMoved)
    ensures Quiet(longer, sooner, tree) ==> Quiet(past, from, tree)
  {
    GroundsStill(past, longer, from, sooner, tree, f, LedgerMoved);
    UnsteadyStill(past, longer, from, sooner);
    if Quiet(longer, sooner, tree) {
      forall x | 0 <= x < |past| && from <= x
        ensures FreshFor(past[x], tree) && past[x].marker == past[|past|-1].marker
      {
        assert FreshFor(longer[x], tree) && FreshFor(longer[|past|-1], tree);
      }
    }
  }

  lemma UnsteadyStill(past: seq<State>, longer: seq<State>, from: int, sooner: int)
    requires past <= longer && sooner <= from
    ensures Unsteady(past, from) ==> Unsteady(longer, sooner)
  {
    if x, y :| 0 <= x < |past| && 0 <= y < |past| && from <= x && from <= y && DifferAt(past, x, y) {
      assert DifferAt(longer, x, y);
    }
  }

  lemma SawSooner(past: seq<State>, from: nat, sooner: nat, answer: ScanAnswer)
    requires sooner <= from
    ensures answer.Pile? && SawSince(past, from, answer) ==> SawSince(past, sooner, answer)
  {
    if answer.Pile? {
      if x: nat, y: nat :|
        from <= x <= y && Saw(past, x, answer.changed, answer.tree) && Saw(past, y, answer.listed, answer.tree)
      {
        SeenSince(past, sooner, x, y, answer);
      }
    }
  }

  lemma SeenSince(past: seq<State>, from: nat, x: nat, y: nat, answer: ScanAnswer)
    requires answer.Pile? && from <= x <= y
    requires Saw(past, x, answer.changed, answer.tree) && Saw(past, y, answer.listed, answer.tree)
    ensures SawSince(past, from, answer)
  {
  }

  /** What a place past the lock says of the lock, the ledger, the marker and the index. */
  lemma PlaceTells(s: State, me: Pid)
    requires Inv(s) && me in s.procs
    ensures HoldsLock(s.procs[me]) ==> s.lock == Some(me)
    ensures s.procs[me].Marked? ==> Shows(s, Seeded(s.procs[me].tree, Some(me)))
  {
    assert LockAgrees(s, me) && PcOk(s, s.procs[me]);
  }

  class PrivateIndex {
    const me: Pid
    /** The shared directory as it stands now. */
    var dir: State
    /** Everything that has happened to it, by anyone. */
    ghost var past: seq<State>

    ghost predicate Valid()
      reads this
    {
      Run(past) && Last(past) == dir && Inv(dir) && me in dir.procs
    }

    ghost predicate At(pc: Pc)
      reads this
    {
      Valid() && dir.procs[me] == pc
    }

    /** Between two calls. */
    ghost predicate Free()
      reads this
    {
      Valid() && (dir.procs[me].Idle? || dir.procs[me].Returned?)
    }

    constructor (me: Pid, dir: State)
      requires Init(dir) && me in dir.procs
      ensures Free() && this.me == me && this.dir == dir && past == [dir]
    {
      this.me := me;
      this.dir := dir;
      this.past := [dir];
    }

    /**
     Any other processes take any steps, and orphans land. A caller knows this contract and no more, so what it
     goes on to prove holds whatever the others did here.
     */
    method Elsewhere()
      requires Valid()
      modifies this`dir, this`past
      ensures Valid() && OthersRan(old(past), past, me)
      ensures Undisturbed(old(dir), dir, me)
    {
    }

    /** What the directory shows now it shows at the last moment of the past. */
    lemma Notice(fact: Fact)
      requires Valid()
      ensures Shows(dir, fact) ==> Sometime(past, |past| - 1, fact)
      ensures HoldsLock(dir.procs[me]) ==> dir.lock == Some(me)
    {
      PlaceTells(dir, me);
      assert Last(past) == past[|past|-1];
    }

    /** One file operation of this process. */
    method Do(a: Action)
      requires Valid() && Next(dir, me, a).Some?
      modifies this`dir, this`past
      ensures Valid() && past == old(past) + [dir] && Steps(old(dir), dir, me, a)
    {
      ghost var run := past;
      dir := Next(dir, me, a).value;
      past := past + [dir];
      Extend(run, dir, me, a);
    }

    /** One stat of the marker; when it fails the answer is that of a missing marker. */
    method MarkerId(fails: bool) returns (id: Option<nat>)
      requires Valid() && dir.procs[me].Looking?
      modifies this`dir, this`past
      ensures old(past) <= past
      ensures At(HaveId(old(dir.procs[me].tree), old(dir.procs[me].locked), id))
      ensures id == if fails then None else CurrentId(dir)
    {
      Elsewhere();
      id := LookAtId(dir, !fails);
      Do(ReadId(!fails));
    }

    /** `looks_like_an_index`: one read of the index's header. */
    method LooksLikeAnIndex(tree: Seen, fails: bool) returns (usable: bool)
      requires Valid() && dir.procs[me].HaveId? && dir.procs[me].tree == tree
      modifies this`dir, this`past
      ensures old(past) < past
      ensures var pc := old(dir.procs[me]); At(HaveHeader(tree, pc.locked, pc.id, usable))
      ensures usable ==> !fails
      ensures !usable ==> fails || Sometime(past, |old(past)| - 1, NotFresh(tree, Holder(old(dir.procs[me]))))
    {
      hide Inv, Run, OthersRan, Sometime;
      Elsewhere();
      usable := !fails && dir.index.Holds?;
      Notice(NotFresh(tree, Holder(dir.procs[me])));
      ghost var seen := past;
      Do(ReadHeader(!fails));
      SometimeStill(seen, past, |seen| - 1, |old(past)| - 1, NotFresh(tree, Holder(old(dir.procs[me]))));
    }

    /** `recorded_tree`, compared: one read of the marker, and the verdict. */
    method RecordedTreeIs(tree: Seen, fails: bool) returns (current: bool)
      requires Valid() && dir.procs[me].HaveHeader? && dir.procs[me].tree == tree
      modifies this`dir, this`past
      ensures old(past) < past
      ensures var pc := old(dir.procs[me]);
              At(if pc.id.Some? && current then Returned(Ensured(false, pc.id, tree))
                 else if pc.locked then Checking(Call.Ensure, tree)
                 else WantLock(Call.Ensure, tree))
      ensures current ==> !fails && old(dir.procs[me].usable)
      ensures current ==> dir.marker.Some? && dir.marker.value.names == tree
      ensures !current ==> fails || !old(dir.procs[me].usable)
                           || Sometime(past, |old(past)| - 1, NotFresh(tree, Holder(old(dir.procs[me]))))
    {
      hide Inv, Run, OthersRan, Sometime;
      Elsewhere();
      current := !fails && dir.procs[me].usable && dir.marker.Some? && dir.marker.value.names == tree;
      Notice(NotFresh(tree, Holder(dir.procs[me])));
      ghost var seen := past;
      Do(ReadContent(!fails));
      SometimeStill(seen, past, |seen| - 1, |old(past)| - 1, NotFresh(tree, Holder(old(dir.procs[me]))));
    }

    /** Whose lock a look is made under. */
    ghost function Holder(pc: Pc): Option<Pid>
      requires pc.HaveId? || pc.HaveHeader?
    {
      if pc.locked then Some(me) else None
    }

    /** The two reads, others between them. */
    method IsFresh(tree: Seen, g: LookFaults) returns (current: bool)
      requires Valid() && dir.procs[me].HaveId? && dir.procs[me].tree == tree
      modifies this`dir, this`past
      ensures Valid() && old(past) <= past
      ensures var pc := old(dir.procs[me]);
              At(if pc.id.Some? && current then Returned(Ensured(false, pc.id, tree))
                 else if pc.locked then Checking(Call.Ensure, tree)
                 else WantLock(Call.Ensure, tree))
      ensures current ==> !g.headerFails && !g.contentFails
      ensures current ==> dir.marker.Some? && dir.marker.value.names == tree
      ensures !current ==> g.headerFails || g.contentFails
                           || Sometime(past, |old(past)| - 1, NotFresh(tree, Holder(old(dir.procs[me]))))
    {
      hide Inv, Run, Sometime, Shows;
      ghost var fact := NotFresh(tree, Holder(dir.procs[me]));
      var usable := LooksLikeAnIndex(tree, g.headerFails);
      ghost var seen := past;
      current := RecordedTreeIs(tree, g.contentFails);
      SometimeStill(seen, past, |old(past)| - 1, |old(past)| - 1, fact);
      SometimeStill(past, past, |seen| - 1, |old(past)| - 1, fact);
    }

    /** Take the ledger lock: until it is free, or the budget is spent. */
    method LedgerLock(f: Faults) returns (ok: bool)
      requires Valid() && dir.procs[me].WantLock?
      modifies this`dir, this`past
      ensures Valid() && old(past) < past
      ensures ok ==> At(AfterLock(old(dir.procs[me].call), old(dir.procs[me].tree)))
      ensures !ok ==> At(Returned(Refused(LockBusy)))
      // A free lock is taken: only a spent budget or another's lock is a refusal.
      ensures ok ==> !f.lockBusy && past[|past|-2].lock.None?
      ensures !ok ==> f.lockBusy || Sometime(past, |old(past)| - 1, Locked)
    {
      Elsewhere();
      ok := !f.lockBusy && dir.lock.None?;
      Notice(Locked);
      ghost var seen := past;
      Do(if ok then TakeLock else GiveUpLock);
      SometimeStill(seen, past, |seen| - 1, |old(past)| - 1, Locked);
    }

    method TakeAwayMarker(call: Call, tree: Seen, fails: bool) returns (ok: bool)
      requires At(Seeding(call, tree))
      modifies this`dir, this`past
      ensures old(past) <= past
      ensures At(if ok then Unmarked(call, tree) else SeedFailed(call, tree))
      ensures !ok ==> fails && dir.marker.Some?
    {
      Elsewhere();
      ok := !fails || dir.marker.None?;
      Do(RemoveMarker(ok));
    }

    method LoadTree(call: Call, tree: Seen, ok: bool)
      requires At(Unmarked(call, tree))
      modifies this`dir, this`past
      ensures old(past) <= past
      ensures At(if ok then Loaded(call, tree) else SeedFailed(call, tree))
    {
      Elsewhere();
      Do(ReadTree(ok));
    }

    /** A marker comes in by rename, under an identity no marker has had before. */
    method RenameMarkerIn(call: Call, tree: Seen, ok: bool)
      requires At(Loaded(call, tree))
      modifies this`dir, this`past
      ensures old(past) < past
      ensures At(if ok then Marked(call, tree) else SeedFailed(call, tree))
      ensures ok ==> dir.marker.Some? && dir.marker.value.names == tree && |old(dir.born)| <= dir.marker.value.id
    {
      Elsewhere();
      Do(WriteMarker(ok));
    }

    method CheckLedger(call: Call, tree: Seen, ioError: bool) returns (refused: Option<Error>)
      requires At(Checking(call, tree))
      modifies this`dir, this`past
      ensures old(past) < past
      ensures At(if refused.None? then Seeding(call, tree) else Returned(Refused(refused.value)))
      ensures refused.None? <==> tree.None? || (!ioError && LedgerAllows(dir.ledger, tree))
      ensures refused == Some(LedgerMoved) <==>
        tree.Some? && !ioError && dir.ledger.Names? && dir.ledger.seen != tree
      ensures refused == Some(LedgerUnreadable) <==> tree.Some? && (ioError || dir.ledger.Unreadable?)
    {
      Elsewhere();
      refused := Check(dir.ledger, tree, ioError);
      CheckAllows(dir.ledger, tree, ioError);
      Do(ReadLedger(ioError));
    }

    /** Marker away, `read-tree`, marker back; any failure stops where it happened. */
    method Seed(call: Call, tree: Seen, f: Faults) returns (ok: bool)
      requires At(Seeding(call, tree))
      modifies this`dir, this`past
      ensures old(past) <= past
      ensures At(if ok then Marked(call, tree) else SeedFailed(call, tree))
      ensures ok ==> !f.readTreeFails && !f.markerFails
                     && Sometime(past, |old(past)|, Seeded(tree, Some(me)))
      ensures !ok ==> SeedFails(f)
    {
      hide Inv, Run, Sometime, Shows, Next;
      ok := TakeAwayMarker(call, tree, f.removeFails);
      if !ok {
        return false;
      }
      LoadTree(call, tree, !f.readTreeFails);
      if f.readTreeFails {
        return false;
      }
      RenameMarkerIn(call, tree, !f.markerFails);
      PlaceTells(dir, me);
      Notice(Seeded(tree, Some(me)));
      SometimeStill(past, past, |past| - 1, |old(past)|, Seeded(tree, Some(me)));
      return !f.markerFails;
    }

    /** No load without a look at the ledger that allows it. */
    method SeedChecked(call: Call, tree: Seen, f: Faults) returns (refused: Option<Error>)
      requires At(Checking(call, tree)) && !call.Fold?
      modifies this`dir, this`past
      ensures old(past) <= past
      ensures At(if refused.None? then Marked(call, tree) else Returned(Refused(refused.value)))
      ensures refused.None? ==> Sometime(past, |old(past)|, Allows(tree))
      ensures refused.None? ==> Sometime(past, |old(past)|, Seeded(tree, Some(me)))
      ensures refused.Some? ==> Grounds(past, |old(past)|, tree, f, refused.value)
    {
      hide Inv, Run, Sometime, Grounds;
      refused := CheckLedger(call, tree, f.ledgerIo);
      Notice(Allows(tree));
      Notice(Illegible);
      Notice(NamesOther(tree));
      ghost var seen := past;
      GroundsOfCheck(tree, f, refused, |old(past)|);
      if refused.Some? {
        return refused;
      }
      var ok := Seed(call, tree, f);
      SometimeStill(seen, past, |seen| - 1, |old(past)|, Allows(tree));
      SometimeStill(past, past, |seen|, |old(past)|, Seeded(tree, Some(me)));
      if !ok {
        var r := Answer(call, tree, false, f);
        refused := Some(Failed);
        FailedGrounds(past, |old(past)|, tree, f);
      }
    }

    /** What the comparison with the ledger refuses has its ground in the ledger just read. */
    lemma GroundsOfCheck(tree: Seen, f: Faults, refused: Option<Error>, from: int)
      requires Valid() && from <= |past| - 1
      requires refused.None? || refused == Some(LedgerMoved) || refused == Some(LedgerUnreadable)
      requires refused == Some(LedgerMoved) ==> tree.Some? && dir.ledger.Names? && dir.ledger.seen != tree
      requires refused == Some(LedgerUnreadable) ==> tree.Some? && (f.ledgerIo || dir.ledger.Unreadable?)
      ensures refused.Some? ==> Grounds(past, from, tree, f, refused.value)
    {
      Notice(Illegible);
      Notice(NamesOther(tree));
      SometimeStill(past, past, |past| - 1, from, Illegible);
      SometimeStill(past, past, |past| - 1, from, NamesOther(tree));
    }

    /** The return of a call that seeded or failed to, and the guard's drop with it. */
    method Answer(call: Call, tree: Seen, seeded: bool, f: Faults) returns (r: Reply)
      requires At(if seeded then Marked(call, tree) else SeedFailed(call, tree))
      requires !seeded ==> !call.Fold?
      modifies this`dir, this`past
      ensures old(past) < past && At(Returned(r))
      ensures r == if !seeded then Refused(Failed)
                   else if call.Fold? then Written else Ensured(true, LookAtId(dir, !f.lastIdFails), tree)
      ensures seeded ==> dir.marker.Some?
    {
      Elsewhere();
      Do(Return(!f.lastIdFails));
      r := dir.procs[me].reply;
    }

    method SaveLedger(tree: Seen, ok: bool)
      requires At(Committing(Call.Fold, tree))
      modifies this`dir, this`past
      ensures old(past) < past
      ensures At(if ok then Seeding(Call.Fold, tree) else Returned(Refused(Failed)))
      ensures ok ==> Sometime(past, |old(past)|, Saved(tree, Some(me)))
    {
      Elsewhere();
      Do(CommitLedger(ok));
      Notice(Saved(tree, Some(me)));
      SometimeStill(past, past, |past| - 1, |old(past)|, Saved(tree, Some(me)));
    }

    method Forget(tree: Seen, ok: bool)
      requires At(SeedFailed(Call.Fold, tree))
      modifies this`dir, this`past
      ensures old(past) <= past && At(Returned(Written))
      ensures ok ==> dir.marker.None?
    {
      Elsewhere();
      Do(ForgetMarker(ok));
    }

    method Enter(call: Call, tree: Seen)
      requires Free()
      modifies this`dir, this`past
      ensures old(past) < past && At(Start(call, tree))
    {
      Elsewhere();
      Do(Begin(call, tree));
    }

    /**
     What every answer of `Ensure` and `Reseed` promises the reader: while the marker is the
     answer's it names the tree, and the index holds it unless an orphan's load came last.
     */
    ghost predicate Answered(tree: Seen, r: Reply)
      reads this
    {
      && At(Returned(r)) && dir.lock != Some(me)
      && (r.Ensured? ==> r.tree == tree && (r.seeded || r.marker.Some?))
      && (r.Ensured? && r.marker.Some? && CurrentId(dir) == r.marker ==>
            dir.marker.value.names == tree && (dir.stray || dir.index == Holds(tree)))
    }

    /**
     Where an answer comes from: a seed was this process's own, under the lock, and after a look at
     a ledger that allows the tree; the identity in it was the marker's; a refusal has its ground.
     */
    ghost predicate Earned(from: int, tree: Seen, f: Faults, r: Reply)
      reads this
    {
      && !r.Written?
      && (r.Ensured? && r.seeded ==>
            Sometime(past, from, Allows(tree)) && Sometime(past, from, Seeded(tree, Some(me))))
      && (r.Ensured? && r.marker.Some? ==> Sometime(past, from, HasId(r.marker)))
      && (r.Ensured? && r.marker.None? ==> f.lastIdFails || Sometime(past, from, NoId))
      && (r.Refused? ==> Grounds(past, from, tree, f, r.error))
    }

    lemma AnswerStands(tree: Seen, r: Reply)
      requires At(Returned(r)) && (r.Ensured? ==> r.tree == tree && (r.seeded || r.marker.Some?))
      ensures Answered(tree, r)
    {
      assert LockAgrees(dir, me) && PcOk(dir, dir.procs[me]);
    }

    /** One look at the marker and the index: no lock, or under the lock already held. */
    method LookOnce(tree: Seen, locked: bool, g: LookFaults) returns (r: Option<Reply>)
      requires At(Looking(tree, locked))
      modifies this`dir, this`past
      ensures old(past) <= past
      ensures r.Some? ==> Answered(tree, r.value) && r.value.Ensured? && !r.value.seeded && r.value.marker.Some?
                          && Sometime(past, |old(past)| - 1, HasId(r.value.marker))
      ensures r.None? ==>
                At(if locked then Checking(Call.Ensure, tree) else WantLock(Call.Ensure, tree))
      // A fresh index is found fresh.
      ensures r.None? ==> LookFails(g)
                          || Sometime(past, |old(past)| - 1, NotFresh(tree, if locked then Some(me) else None))
    {
      hide Inv, Run, Sometime;
      ghost var fact := NotFresh(tree, if locked then Some(me) else None);
      var marker := MarkerId(g.idFails);
      Notice(fact);
      Notice(HasId(marker));
      ghost var seen := past;
      var current := IsFresh(tree, g);
      SometimeStill(seen, past, |seen| - 1, |old(past)| - 1, fact);
      SometimeStill(seen, past, |seen| - 1, |old(past)| - 1, HasId(marker));
      SometimeStill(past, past, |seen| - 1, |old(past)| - 1, fact);
      if marker.Some? && current {
        AnswerStands(tree, Ensured(false, marker, tree));
        return Some(Ensured(false, marker, tree));
      }
      return None;
    }

    /** A look without the lock, a look under it, and only then a seed. */
    method Ensure(tree: Seen, f: Faults) returns (r: Reply)
      requires Free()
      modifies this`dir, this`past
      ensures old(past) < past && Answered(tree, r) && Earned(|old(past)|, tree, f, r)
      ensures r.Ensured? && r.seeded ==> r.marker == LookAtId(dir, !f.lastIdFails)
      // Nothing else than an index that is not fresh, or a look that fails, leads on to the lock and a seed.
      ensures !(r.Ensured? && !r.seeded) ==>
                LookFails(f.firstLook) || Sometime(past, |old(past)|, NotFresh(tree, None))
      ensures r.Ensured? && r.seeded ==>
                LookFails(f.secondLook) || Sometime(past, |old(past)|, NotFresh(tree, Some(me)))
    {
      hide Inv, Run, Next, CurrentId, Sometime, Grounds, Earned, Answered;
      Enter(Call.Ensure, tree);
      ghost var seen := past;
      var answer := LookOnce(tree, false, f.firstLook);
      SometimeStill(past, past, |seen| - 1, |old(past)|, NotFresh(tree, None));
      if answer.Some? {
        FoundFresh(|seen| - 1, |old(past)|, tree, f, answer.value);
        return answer.value;
      }
      seen := past;
      var locked := LedgerLock(f);
      if !locked {
        r := Refused(LockBusy);
        BusyEarned(|seen| - 1, |old(past)|, tree, f);
      } else {
        ghost var taken := past;
        r := EnsureLocked(tree, f);
        EarnedSooner(|taken| - 1, |old(past)|, tree, f, r);
        SometimeStill(past, past, |taken| - 1, |old(past)|, NotFresh(tree, Some(me)));
      }
      SometimeStill(seen, past, |old(past)|, |old(past)|, NotFresh(tree, None));
    }

    /** Past the lock: a second look, and only then a seed. */
    method EnsureLocked(tree: Seen, f: Faults) returns (r: Reply)
      requires At(Looking(tree, true))
      modifies this`dir, this`past
      ensures old(past) <= past && Answered(tree, r) && Earned(|old(past)| - 1, tree, f, r)
      ensures r.Ensured? && r.seeded ==> r.marker == LookAtId(dir, !f.lastIdFails)
      ensures r.Ensured? && r.seeded ==>
                LookFails(f.secondLook) || Sometime(past, |old(past)| - 1, NotFresh(tree, Some(me)))
    {
      hide Inv, Run, Next, CurrentId, Sometime, Grounds, Earned, Answered;
      var answer := LookOnce(tree, true, f.secondLook);
      if answer.Some? {
        FoundFresh(|old(past)| - 1, |old(past)| - 1, tree, f, answer.value);
        return answer.value;
      }
      ghost var looked := past;
      r := SeedAndAnswer(Call.Ensure, tree, f);
      SometimeStill(looked, past, |old(past)| - 1, |old(past)| - 1, NotFresh(tree, Some(me)));
      EarnedSooner(|looked|, |old(past)| - 1, tree, f, r);
    }

    lemma FoundFresh(from: int, sooner: int, tree: Seen, f: Faults, r: Reply)
      requires r.Ensured? && !r.seeded && r.marker.Some? && sooner <= from && Sometime(past, from, HasId(r.marker))
      ensures Earned(sooner, tree, f, r)
    {
      SometimeStill(past, past, from, sooner, HasId(r.marker));
    }

    lemma BusyEarned(from: int, sooner: int, tree: Seen, f: Faults)
      requires At(Returned(Refused(LockBusy))) && sooner <= from
      requires f.lockBusy || Sometime(past, from, Locked)
      ensures Answered(tree, Refused(LockBusy)) && Earned(sooner, tree, f, Refused(LockBusy))
    {
      AnswerStands(tree, Refused(LockBusy));
      BusyGrounds(past, from, sooner, tree, f);
    }

    lemma EarnedSooner(from: int, sooner: int, tree: Seen, f: Faults, r: Reply)
      requires Earned(from, tree, f, r) && sooner <= from
      ensures Earned(sooner, tree, f, r)
    {
      SometimeStill(past, past, from, sooner, Allows(tree));
      SometimeStill(past, past, from, sooner, Seeded(tree, Some(me)));
      SometimeStill(past, past, from, sooner, NoId);
      if r.Ensured? {
        SometimeStill(past, past, from, sooner, HasId(r.marker));
      }
      if r.Refused? {
        GroundsStill(past, past, from, sooner, tree, f, r.error);
      }
    }

    /** A seed whatever the marker says: the way out of an index that cannot be read. */
    method Reseed(tree: Seen, f: Faults) returns (r: Reply)
      requires Free()
      modifies this`dir, this`past
      ensures old(past) < past && Answered(tree, r) && Earned(|old(past)|, tree, f, r)
      ensures r.Ensured? ==> r.seeded && r.marker == LookAtId(dir, !f.lastIdFails)
    {
      hide Inv, Run, Next, CurrentId, Sometime, Grounds;
      Enter(Call.Reseed, tree);
      ghost var seen := past;
      var locked := LedgerLock(f);
      if !locked {
        BusyEarned(|seen| - 1, |old(past)|, tree, f);
        return Refused(LockBusy);
      }
      seen := past;
      r := SeedAndAnswer(Call.Reseed, tree, f);
      EarnedSooner(|seen|, |old(past)|, tree, f, r);
    }

    method SeedAndAnswer(call: Call, tree: Seen, f: Faults) returns (r: Reply)
      requires At(Checking(call, tree)) && !call.Fold?
      modifies this`dir, this`past
      ensures old(past) <= past && Answered(tree, r) && Earned(|old(past)|, tree, f, r)
      ensures r.Ensured? ==> r.seeded && r.marker == LookAtId(dir, !f.lastIdFails)
    {
      hide Inv, Run, Next, Sometime, Grounds;
      var refused := SeedChecked(call, tree, f);
      ghost var seen := past;
      if refused.Some? {
        r := Refused(refused.value);
      } else {
        r := Answer(call, tree, true, f);
        SometimeStill(seen, past, |old(past)|, |old(past)|, Allows(tree));
        SometimeStill(seen, past, |old(past)|, |old(past)|, Seeded(tree, Some(me)));
        Notice(HasId(r.marker));
        Notice(NoId);
        SometimeStill(past, past, |past| - 1, |old(past)|, HasId(r.marker));
        SometimeStill(past, past, |past| - 1, |old(past)|, NoId);
      }
      AnswerStands(tree, r);
    }

    /** Whoever returns has let the lock go, and a marker then tells the truth. */
    lemma AtRest(r: Reply)
      requires At(Returned(r))
      ensures dir.lock != Some(me)
      ensures dir.marker.Some? ==> dir.stray || dir.index == Holds(dir.marker.value.names)
    {
      assert LockAgrees(dir, me);
    }

    /**
     A fold: save the ledger under the lock, then seed the tree just saved. A seed that fails
     is not reported. However it ends, a marker left behind tells the truth, orphans aside.
     */
    method Fold(tree: Seen, f: Faults) returns (r: Reply)
      requires Free()
      modifies this`dir, this`past
      ensures old(past) <= past && At(Returned(r)) && dir.lock != Some(me)
      ensures dir.marker.Some? ==> dir.stray || dir.index == Holds(dir.marker.value.names)
      // Written is saved: this tree, under the lock; and seeded after that, unless a step of the seed
      // failed and then no marker is left behind, unless that failed too.
      ensures r.Written? ==> !f.commitFails && Sometime(past, |old(past)|, Saved(tree, Some(me)))
      ensures r.Written? ==> SavedThenSeeded(past, |old(past)|, tree, me)
                             || (SeedFails(f) && (f.forgetFails || dir.marker.None?))
      ensures r.Written? && (f.readTreeFails || f.markerFails) && !f.forgetFails ==> dir.marker.None?
      ensures !r.Written? ==> r == Refused(LockBusy) || r == Refused(Failed)
      ensures r == Refused(Failed) ==> f.commitFails
      ensures r == Refused(LockBusy) ==> f.lockBusy || Sometime(past, |old(past)|, Locked)
    {
      hide Inv, Run, Next, CurrentId, Sometime, SavedThenSeeded;
      Enter(Call.Fold, tree);
      ghost var seen := past;
      var locked := LedgerLock(f);
      if locked {
        seen := past;
        r := FoldLocked(tree, f);
        SometimeStill(past, past, |seen|, |old(past)|, Saved(tree, Some(me)));
        SavedThenSeededSooner(past, |seen|, |old(past)|, tree, me);
      } else {
        r := Refused(LockBusy);
        SometimeStill(past, past, |seen| - 1, |old(past)|, Locked);
      }
      AtRest(r);
    }

    /** Past the lock: the save, and the seed of what was saved. */
    method FoldLocked(tree: Seen, f: Faults) returns (r: Reply)
      requires At(Committing(Call.Fold, tree))
      modifies this`dir, this`past
      ensures old(past) <= past && At(Returned(r))
      ensures r == if f.commitFails then Refused(Failed) else Written
      ensures r.Written? ==> Sometime(past, |old(past)|, Saved(tree, Some(me)))
      ensures r.Written? ==> SavedThenSeeded(past, |old(past)|, tree, me)
                             || (SeedFails(f) && (f.forgetFails || dir.marker.None?))
      ensures r.Written? && (f.readTreeFails || f.markerFails) && !f.forgetFails ==> dir.marker.None?
    {
      hide Inv, Run, Next, CurrentId, Sometime, SavedThenSeeded;
      SaveLedger(tree, !f.commitFails);
      if f.commitFails {
        return Refused(Failed);
      }
      ghost var saved := past;
      var ok := Seed(Call.Fold, tree, f);
      ghost var seeded := past;
      if ok {
        r := Answer(Call.Fold, tree, true, f);
        SometimeStill(seeded, past, |saved|, |saved|, Seeded(tree, Some(me)));
        SeededLater(saved, past, |old(past)|, tree, me);
      } else {
        Forget(tree, !f.forgetFails);
        r := Written;
      }
      SometimeStill(saved, past, |old(past)|, |old(past)|, Saved(tree, Some(me)));
    }

    /**
     A scan's two reads of the index, with no lock: `ensure`, read, read, look at the marker
     again. A first read that fails reseeds and reads once more. An answer without a notice is
     given only when the marker has not moved, and then both reads, made during the call, saw
     the tree asked for, except exactly while an orphan's load of another came last.
     */
    method ScanOnce(tree: Seen, f: Faults, g: ReadFaults, retryOnReseed: bool) returns (answer: ScanAnswer)
      requires Free()
      modifies this`dir, this`past
      ensures Free() && old(past) < past
      ensures answer.Pile? ==> answer.tree == tree
      ensures answer.Pile? && !answer.noticed ==> SawSince(past, |old(past)|, answer)
      ensures answer.Pile? && answer.noticed ==> !retryOnReseed
      ensures answer.IndexMoved? ==> retryOnReseed
      // A notice, or a scan to be repeated, has its ground: the marker moved or was away, or a look at it failed.
      ensures answer.IndexMoved? || (answer.Pile? && answer.noticed) ==>
                g.idFails || f.lastIdFails || Unsteady(past, |old(past)|)
      // So has an error: one of `ensure`'s, or a read of this scan's own that failed.
      ensures answer.NoPile? ==> Grounds(past, |old(past)|, tree, f, answer.error)
                                 || (answer.error.Failed? && (g.othersFail || (g.unreadable && g.stillUnreadable)))
      ensures g.othersFail || (g.unreadable && g.stillUnreadable) ==> answer.NoPile?
      // An index that could not be read was seeded anew before it was read again.
      ensures g.unreadable && !answer.NoPile? ==> Sometime(past, |old(past)|, Seeded(tree, Some(me)))
      ensures NoScanFault(f, g) && Quiet(past, |old(past)|, tree) ==> answer.Pile? && !answer.noticed
    {
      hide Inv, Next, CurrentId, MarkerTells, Sometime, Grounds, Quiet, Unsteady, Run, SawSince, NoOrphan;
      ghost var from := |past|;
      var r := Ensure(tree, f);
      if !r.Ensured? {
        QuietIsFresh(past, from, tree);
        return NoPile(r.error);
      }
      ghost var answered := past;
      if g.unreadable {
        r := Reseed(tree, f);
        EarnedSooner(|answered|, from, tree, f, r);
        if !r.Ensured? {
          return NoPile(r.error);
        }
        if g.stillUnreadable {
          return NoPile(Failed);
        }
      }
      answered := past;
      ghost var j := |past| - 1;
      ghost var x, y;
      var changed, listed, now;
      changed, x := ReadIndex();
      if g.othersFail {
        return NoPile(Failed);
      }
      listed, y := ReadIndex();
      now := LookAgain(g.idFails);
      if r.seeded {
        SometimeStill(answered, past, from, from, Seeded(tree, Some(me)));
      }
      if now.None? || now != r.marker {
        LooksDiffer(answered, from, tree, f, g, r, now);
        QuietIsFresh(past, from, tree);
        return if retryOnReseed then IndexMoved else Pile(tree, changed, listed, true);
      }
      OnePicture(past, me, j, x, tree, r);
      OnePicture(past, me, j, y, tree, r);
      answer := Pile(tree, changed, listed, false);
      SeenSince(past, from, x, y, answer);
    }

    /** Two looks that do not give one identity: a look failed, or the marker moved or was away. */
    lemma LooksDiffer(answered: seq<State>, from: int, tree: Seen, f: Faults, g: ReadFaults, r: Reply, now: Option<nat>)
      requires Valid() && 0 <= from < |answered| && answered <= past && r.Ensured?
      requires r.marker.Some? ==> Sometime(answered, from, HasId(r.marker))
      requires r.marker.None? ==> f.lastIdFails || Sometime(answered, from, NoId)
      requires now == LookAtId(dir, !g.idFails) && (now.None? || now != r.marker)
      ensures g.idFails || f.lastIdFails || Unsteady(past, from)
    {
      SometimeStill(answered, past, from, from, HasId(r.marker));
      SometimeStill(answered, past, from, from, NoId);
      var last := |past| - 1;
      assert past[last] == dir;
      if r.marker.Some? {
        var x :| 0 <= x < |past| && from <= x && Shows(past[x], HasId(r.marker));
        assert g.idFails || DifferAt(past, x, last);
      } else if !f.lastIdFails {
        var x :| 0 <= x < |past| && from <= x && Shows(past[x], NoId);
        assert DifferAt(past, x, x);
      }
    }

    /**
     A scan of one root: tried again when the ledger or the index moved under it, with the tree
     the ledger names by then. A pile without a notice shows one index, the tree's it was asked
     for, orphans aside; a notice, or "the ledger moved", is the last attempt's.
     */
    method ScanRoot(trees: nat -> Seen, f: nat -> Faults, g: nat -> ReadFaults)
      returns (answer: ScanAnswer, attempts: nat)
      requires Free()
      modifies this`dir, this`past
      ensures Free() && old(past) <= past
      ensures 1 <= attempts <= SCAN_ATTEMPTS && !answer.IndexMoved?
      ensures answer.Pile? ==> answer.tree == trees(attempts)
      ensures answer.Pile? && !answer.noticed ==> SawSince(past, |old(past)|, answer)
      ensures (answer.Pile? && answer.noticed) || answer == NoPile(LedgerMoved) ==> attempts == SCAN_ATTEMPTS
      // A second attempt has its ground in the first...
      ensures attempts > 1 ==> g(1).idFails || f(1).lastIdFails || Unsteady(past, |old(past)|)
                               || Grounds(past, |old(past)|, trees(1), f(1), LedgerMoved)
      // ...a notice in the last...
      ensures answer.Pile? && answer.noticed ==>
                g(attempts).idFails || f(attempts).lastIdFails || Unsteady(past, |old(past)|)
      // ...and a quiet root needs one attempt, and no notice.
      ensures NoScanFault(f(1), g(1)) && Quiet(past, |old(past)|, trees(1)) ==>
                attempts == 1 && answer.Pile? && !answer.noticed
    {
      hide Inv, Run, Sometime, Grounds, Quiet, Unsteady, SawSince, NoScanFault;
      attempts := 1;
      ghost var from := |past|;
      while true
        invariant Free() && old(past) <= past && 1 <= attempts <= SCAN_ATTEMPTS && from == |old(past)|
        invariant attempts > 1 ==> g(1).idFails || f(1).lastIdFails || Unsteady(past, from)
                                   || Grounds(past, from, trees(1), f(1), LedgerMoved)
        invariant attempts > 1 ==> from < |past|
        invariant attempts > 1 ==> !(NoScanFault(f(1), g(1)) && Quiet(past, from, trees(1)))
        decreases SCAN_ATTEMPTS - attempts
      {
        var last := attempts == SCAN_ATTEMPTS;
        ghost var before := past;
        answer := ScanOnce(trees(attempts), f(attempts), g(attempts), !last);
        if attempts > 1 {
          RetryGroundsStill(before, past, from, from, trees(1), f(1));
        }
        RetryGroundsStill(past, past, |before|, from, trees(attempts), f(attempts));
        SawSooner(past, |before|, from, answer);
        if last || !(answer.IndexMoved? || answer == NoPile(LedgerMoved)) {
          return;
        }
        attempts := attempts + 1;
      }
    }

    /** `diff-files` or `ls-files --others`: what the index holds at some moment `x`. */
    method ReadIndex() returns (index: Index, ghost x: nat)
      requires Free()
      modifies this`dir, this`past
      ensures Free() && old(past) <= past && dir.procs[me] == old(dir.procs[me])
      ensures |old(past)| <= x + 1 <= |past| && past[x].index == index
    {
      Elsewhere();
      index := dir.index;
      x := |past| - 1;
    }

    method LookAgain(fails: bool) returns (id: Option<nat>)
      requires Free()
      modifies this`dir, this`past
      ensures Free() && old(past) <= past && dir.procs[me] == old(dir.procs[me])
      ensures id == LookAtId(dir, !fails)
    {
      Elsewhere();
      id := LookAtId(dir, !fails);
    }
  }

  lemma OnePicture(past: seq<State>, me: Pid, j: nat, x: nat, tree: Seen, r: Reply)
    requires Run(past) && j <= x < |past| && me in past[j].procs
    requires past[j].procs[me] == Returned(r) && r.Ensured? && r.tree == tree
    requires r.marker.Some? && CurrentId(Last(past)) == r.marker
    ensures Saw(past, x, past[x].index, tree)
  {
    ReaderSawOneIndex(past, me, j, x, |past| - 1, r.seeded, r.marker.value, tree);
  }
}
