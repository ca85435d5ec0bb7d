/**
 What the seed protocol promises over every run: when a marker can be believed, what a reader
 without the lock has seen, and what a call that does not seed leaves alone.
 */
module SeedLaws {
  import opened Prelude
  import opened SeedProtocol

  /** Nobody in the run dies with its git still at work. */
  ghost predicate NoOrphan(run: seq<State>) {
    forall i, p :: 0 <= i < |run| && p in run[i].procs ==> !run[i].procs[p].Orphaned?
  }

  /** The step loads the index, for a live process or for an orphan. */
  ghost predicate Loads(s: State, t: State) {
    exists p, a :: Steps(s, t, p, a) && (a == ReadTree(true) || a == Land)
  }

  ghost predicate NoLoad(run: seq<State>, k: nat, i: nat)
    requires i < |run|
  {
    forall x, y :: k <= x && y == x + 1 <= i ==> !Loads(run[x], run[y])
  }

  /** At moment `k` the orphan of `p` lands, not with `tree`, and nothing is loaded from there to `i`. */
  ghost predicate LandsLast(run: seq<State>, k: nat, p: Pid, i: nat, tree: Seen)
    requires i < |run|
  {
    && k < i && p in run[k].procs && run[k].procs[p] != Orphaned(tree)
    && Steps(run[k], run[k+1], p, Land) && NoLoad(run, k + 1, i)
  }

  /** The last load before moment `i` was an orphan's, of a tree that is not `tree`. */
  ghost predicate OrphanHasLastWord(run: seq<State>, i: nat, tree: Seen)
    requires i < |run|
  {
    exists k: nat, p :: LandsLast(run, k, p, i, tree)
  }

  lemma LandEffect(s: State, t: State, p: Pid)
    requires Steps(s, t, p, Land)
    ensures p in s.procs && s.procs[p].Orphaned? && t.index == Holds(s.procs[p].tree) && t.stray
  {
  }

  /** Only a load changes the index or the word on whose it is, and a live process's is not stray. */
  lemma StrayStep(s: State, t: State)
    requires Follows(s, t)
    ensures !Loads(s, t) ==> t.index == s.index && t.stray == s.stray
    ensures Loads(s, t) && t.stray ==> exists p :: Steps(s, t, p, Land)
  {
    if Loads(s, t) {
      var p, a :| Steps(s, t, p, a) && (a == ReadTree(true) || a == Land);
    } else {
      var p, a :| Steps(s, t, p, a);
    }
  }

  lemma {:induction false} IndexWithoutLoad(run: seq<State>, k: nat, i: nat)
    requires Chain(run) && k <= i < |run| && NoLoad(run, k, i)
    ensures run[i].index == run[k].index && run[i].stray == run[k].stray
    decreases i
  {
    hide Follows, Loads;
    if k < i {
      IndexWithoutLoad(run, k, i - 1);
      assert !Loads(run[i-1], run[i]) && Follows(run[i-1], run[i]);
      StrayStep(run[i-1], run[i]);
    }
  }

  lemma NotAtFirst(run: seq<State>, i: nat)
    requires Run(run) && i < |run| && run[i].stray
    ensures i > 0 && Follows(run[i-1], run[i])
  {
    hide Follows;
  }

  /** When the last load is an orphan's, the index holds what that orphan loaded. */
  lemma {:induction false} StrayIsOrphans(run: seq<State>, i: nat, tree: Seen)
    requires Run(run) && i < |run| && run[i].stray && run[i].index != Holds(tree)
    ensures OrphanHasLastWord(run, i, tree)
    decreases i
  {
    NotAtFirst(run, i);
    hide Follows, Loads, Init, Steps, OrphanHasLastWord;
    StrayStep(run[i-1], run[i]);
    if Loads(run[i-1], run[i]) {
      var p :| Steps(run[i-1], run[i], p, Land);
      LandEffect(run[i-1], run[i], p);
      LandedJustNow(run, i, p, tree);
    } else {
      StrayIsOrphans(run, i - 1, tree);
      LastWordKept(run, i, tree);
    }
  }

  lemma LandedJustNow(run: seq<State>, i: nat, p: Pid, tree: Seen)
    requires 0 < i < |run| && Steps(run[i-1], run[i], p, Land)
    requires p in run[i-1].procs && run[i-1].procs[p] != Orphaned(tree)
    ensures OrphanHasLastWord(run, i, tree)
  {
    hide Steps;
    assert LandsLast(run, i - 1, p, i, tree);
  }

  lemma LastWordKept(run: seq<State>, i: nat, tree: Seen)
    requires 0 < i < |run| && OrphanHasLastWord(run, i - 1, tree) && !Loads(run[i-1], run[i])
    ensures OrphanHasLastWord(run, i, tree)
  {
    hide Loads, Steps;
    var k: nat, p :| LandsLast(run, k, p, i - 1, tree);
    assert LandsLast(run, k, p, i, tree);
  }

  lemma LastWordStands(run: seq<State>, i: nat, tree: Seen)
    requires Run(run) && i < |run| && OrphanHasLastWord(run, i, tree)
    ensures run[i].index != Holds(tree)
  {
    hide Steps, NoLoad, Follows, Init;
    var k: nat, p :| LandsLast(run, k, p, i, tree);
    LandEffect(run[k], run[k+1], p);
    IndexWithoutLoad(run, k + 1, i);
  }

  lemma {:induction false} NoOrphanNoStray(run: seq<State>, i: nat)
    requires Run(run) && NoOrphan(run) && i < |run|
    ensures !run[i].stray
    decreases i
  {
    if i > 0 {
      NoOrphanNoStray(run, i - 1);
      assert Follows(run[i-1], run[i]);
      var p, a :| Steps(run[i-1], run[i], p, a);
      assert !run[i-1].procs[p].Orphaned?;
    }
  }

  /** In every reachable state, a marker that names a tree means the index holds exactly it. */
  lemma MarkerNeverLies(run: seq<State>, i: nat)
    requires Run(run) && i < |run|
    ensures NoOrphan(run) && run[i].marker.Some? ==> run[i].index == Holds(run[i].marker.value.names)
  {
    RunKeepsInv(run, i);
    if NoOrphan(run) {
      NoOrphanNoStray(run, i);
    }
  }

  /** Orphans and all: a marker lies exactly when the last load was an orphan's, of another tree. */
  lemma MarkerLiesExactly(run: seq<State>, i: nat)
    requires Run(run) && i < |run| && run[i].marker.Some?
    ensures run[i].index != Holds(run[i].marker.value.names)
       <==> OrphanHasLastWord(run, i, run[i].marker.value.names)
  {
    RunKeepsInv(run, i);
    var tree := run[i].marker.value.names;
    if run[i].index != Holds(tree) {
      StrayIsOrphans(run, i, tree);
    }
    if OrphanHasLastWord(run, i, tree) {
      LastWordStands(run, i, tree);
    }
  }

  lemma OneStepOn(run: seq<State>, i: nat)
    requires Chain(run) && Inv(run[0]) && i + 1 < |run|
    ensures Inv(run[i]) && Inv(run[i+1])
    ensures forall id: nat :: CurrentId(run[i]) == Some(id) ==> id < |run[i].born|
  {
    ChainKeepsInv(run, i);
    ChainKeepsInv(run, i + 1);
  }

  /** An identity once gone never comes back: issued before and seen after, it never left. */
  lemma {:induction false} IdentityNeverReturns(run: seq<State>, i: nat, x: nat, k: nat, id: nat)
    requires Chain(run) && Inv(run[0]) && i <= x <= k < |run|
    requires id < |run[i].born| && CurrentId(run[k]) == Some(id)
    ensures CurrentId(run[x]) == Some(id) && id < |run[x].born| && run[x].born[id] == run[i].born[id]
    decreases k - i
  {
    hide Next, PcOk, LockAgrees, MarkerTells, Follows, Chain, Inv;
    if i < k {
      var p := OneStep(run, i);
      OneStepOn(run, i);
      if i < x {
        IdentityNeverReturns(run, i + 1, x, k, id);
      } else {
        IdentityNeverReturns(run, i + 1, i + 1, k, id);
      }
    }
  }

  /**
   The reader's promise. `ensure` answered with identity `id` at moment `j`; at a later
   moment `k` the marker still has that identity. Then at every moment between, whatever
   any process did, that was the marker and the index held the tree the reader asked for,
   except exactly while the last load was an orphan's of another tree.
   */
  lemma ReaderSawOneIndex(run: seq<State>, p: Pid, j: nat, x: nat, k: nat, seeded: bool, id: nat, tree: Seen)
    requires Run(run) && j <= x <= k < |run|
    requires p in run[j].procs && run[j].procs[p] == Returned(Ensured(seeded, Some(id), tree))
    requires CurrentId(run[k]) == Some(id)
    ensures CurrentId(run[x]) == Some(id) && run[x].marker.value.names == tree
    ensures run[x].index != Holds(tree) <==> OrphanHasLastWord(run, x, tree)
    ensures NoOrphan(run) ==> run[x].index == Holds(tree)
  {
    RunKeepsInv(run, j);
    assert PcOk(run[j], run[j].procs[p]);
    IdentityNeverReturns(run, j, j, k, id);
    IdentityNeverReturns(run, j, x, k, id);
    RunKeepsInv(run, x);
    MarkerLiesExactly(run, x);
    MarkerNeverLies(run, x);
  }

  /**
   The reader's window starts where it read the identity, not where it read the content: had
   anybody seeded in between, the identity at the end would be another.
   */
  lemma ReaderWindowOpensAtIdentity(run: seq<State>, p: Pid, i: nat, j: nat, x: nat, k: nat, id: nat, tree: Seen)
    requires Run(run) && i <= j <= k < |run| && i <= x <= k
    requires p in run[i].procs && run[i].procs[p].HaveId? && run[i].procs[p].id == Some(id)
    requires p in run[j].procs && run[j].procs[p] == Returned(Ensured(false, Some(id), tree))
    requires CurrentId(run[k]) == Some(id)
    ensures CurrentId(run[x]) == Some(id) && run[x].marker.value.names == tree
    ensures run[x].index != Holds(tree) <==> OrphanHasLastWord(run, x, tree)
    ensures NoOrphan(run) ==> run[x].index == Holds(tree)
  {
    RunKeepsInv(run, i);
    assert PcOk(run[i], run[i].procs[p]);
    ReaderSawOneIndex(run, p, j, j, k, false, id, tree);
    IdentityNeverReturns(run, i, x, k, id);
    IdentityNeverReturns(run, i, j, k, id);
    RunKeepsInv(run, j);
    RunKeepsInv(run, x);
    MarkerLiesExactly(run, x);
    MarkerNeverLies(run, x);
  }

  // ---------------------------------------------------------------------------------------
  // What is loaded, and what the ledger says of it
  // ---------------------------------------------------------------------------------------

  /** A seed loads a tree only while the ledger on disk names it, or no ledger is there. */
  lemma SeedsOnlyWhatTheLedgerNames(run: seq<State>, i: nat, p: Pid, t: State)
    requires Run(run) && i < |run|
    requires Steps(run[i], t, p, ReadTree(true)) && t.index.tree.Some?
    ensures run[i].ledger.NoLedger? || run[i].ledger == Names(t.index.tree)
    ensures run[i].lock == Some(p) && run[i].marker.None?
  {
    RunKeepsInv(run, i);
    assert PcOk(run[i], run[i].procs[p]) && LockAgrees(run[i], p);
  }

  /** The step loads a tree although a ledger is there that does not name it. */
  ghost predicate LoadsAgainstLedger(s: State, t: State) {
    Loads(s, t) && t.index.Holds? && !LedgerAllows(s.ledger, t.index.tree)
  }

  /** The step is `q`'s save of a ledger that names `seen`. */
  ghost predicate SavesLedger(s: State, t: State, q: Pid, seen: Seen) {
    Steps(s, t, q, CommitLedger(true)) && t.ledger == Names(seen)
  }

  /** From moment `c`, when it dies with its git at work on `tree`, until `i`, `p` is an orphan. */
  ghost predicate OrphanFrom(run: seq<State>, p: Pid, c: nat, i: nat, tree: Seen) {
    && c < i < |run| && p in run[c].procs && run[c].procs[p].Unmarked?
    && Steps(run[c], run[c+1], p, Crash(true))
    && forall x :: c < x <= i ==> p in run[x].procs && run[x].procs[p] == Orphaned(tree)
  }

  /**
   `p`'s orphan lands at moment `i`. The ledger allowed its tree when its git was left at work,
   at `c`, and at `j` `q` saved the ledger, naming another tree, that is there when it lands.
   */
  ghost predicate LandsReplaced(run: seq<State>, p: Pid, c: nat, j: nat, q: Pid, i: nat, tree: Tree, newer: Seen) {
    && OrphanFrom(run, p, c, i, Some(tree)) && i + 1 < |run| && Steps(run[i], run[i+1], p, Land)
    && LedgerAllows(run[c].ledger, Some(tree))
    && c < j < i && SavesLedger(run[j], run[j+1], q, newer)
    && newer != Some(tree) && run[i].ledger == Names(newer)
  }

  /** A save that works, a fold's or any other, puts a ledger on disk that names its tree. */
  lemma SavePublishes(s: State, t: State, p: Pid, ok: bool)
    requires Steps(s, t, p, CommitLedger(ok))
    ensures p in s.procs && s.procs[p].Committing?
    ensures t.ledger == if ok then Names(s.procs[p].tree) else s.ledger
  {
  }

  /** A marker that is not there is no failure: a seed stops at its removal only where it stays. */
  lemma FailedRemovalLeavesMarker(s: State, t: State, p: Pid)
    requires Steps(s, t, p, RemoveMarker(false))
    ensures s.marker.Some? && t.marker == s.marker && t.index == s.index
  {
  }

  /** Every step leaves the ledger, takes it away, or saves one that names a tree. */
  lemma LedgerStep(s: State, t: State)
    requires Follows(s, t)
    ensures t.ledger == s.ledger || t.ledger.NoLedger?
            || (t.ledger.Names? && exists q :: SavesLedger(s, t, q, t.ledger.seen))
  {
    var p, a :| Steps(s, t, p, a);
    hide AfterDeath, AfterLock, Start, Check, Fresh, LookAtId;
    if a == CommitLedger(true) {
      assert SavesLedger(s, t, p, t.ledger.seen);
    }
  }

  /** A ledger that has stopped allowing a tree was saved since, and names another. */
  lemma {:induction false} SavedSince(run: seq<State>, c: nat, i: nat, tree: Seen) returns (j: nat, q: Pid)
    requires Run(run) && c <= i < |run|
    requires LedgerAllows(run[c].ledger, tree) && !LedgerAllows(run[i].ledger, tree)
    ensures run[i].ledger.Names? && run[i].ledger.seen != tree
    ensures c <= j < i && SavesLedger(run[j], run[j+1], q, run[i].ledger.seen)
    decreases i
  {
    hide Follows, Init, Steps;
    assert Follows(run[i-1], run[i]);
    LedgerStep(run[i-1], run[i]);
    if run[i].ledger == run[i-1].ledger {
      j, q := SavedSince(run, c, i - 1, tree);
    } else {
      j := i - 1;
      q :| SavesLedger(run[i-1], run[i], q, run[i].ledger.seen);
    }
  }

  /** A process becomes an orphan only by dying with its git at work. */
  lemma OrphanStep(s: State, t: State, p: Pid)
    requires Follows(s, t) && p in t.procs && t.procs[p].Orphaned?
    ensures p in s.procs
    ensures s.procs[p] == t.procs[p] || (s.procs[p].Unmarked? && s.procs[p].tree == t.procs[p].tree
                                         && Steps(s, t, p, Crash(true)))
  {
    var q, a :| Steps(s, t, q, a);
    StepMovesOne(s, t, q, a);
    hide AfterLock, Start, Check, Fresh, LookAtId;
  }

  lemma {:induction false} WhenOrphaned(run: seq<State>, p: Pid, i: nat) returns (c: nat)
    requires Run(run) && i < |run| && p in run[i].procs && run[i].procs[p].Orphaned?
    ensures OrphanFrom(run, p, c, i, run[i].procs[p].tree)
    ensures run[c].procs[p].tree == run[i].procs[p].tree
    decreases i
  {
    hide Follows, Steps;
    assert i > 0 && Follows(run[i-1], run[i]);
    OrphanStep(run[i-1], run[i], p);
    if run[i-1].procs[p] == run[i].procs[p] {
      c := WhenOrphaned(run, p, i - 1);
    } else {
      c := i - 1;
    }
  }

  lemma CrashKeepsLedger(s: State, t: State, p: Pid, leaves: bool)
    requires Steps(s, t, p, Crash(leaves))
    ensures t.ledger == s.ledger
  {
  }

  /** An orphan that lands against the ledger was allowed to start, and a save came since. */
  lemma LandsOnNewer(run: seq<State>, i: nat, p: Pid) returns (c: nat, j: nat, q: Pid)
    requires Run(run) && i + 1 < |run| && Steps(run[i], run[i+1], p, Land)
    requires LoadsAgainstLedger(run[i], run[i+1])
    ensures run[i].ledger.Names? && run[i+1].index.Holds? && run[i+1].index.tree.Some?
    ensures LandsReplaced(run, p, c, j, q, i, run[i+1].index.tree.value, run[i].ledger.seen)
  {
    LandEffect(run[i], run[i+1], p);
    hide Follows, Init, Steps, Loads, Inv;
    var tree := run[i].procs[p].tree;
    c := WhenOrphaned(run, p, i);
    RunKeepsInv(run, c);
    AtWorkIsAllowed(run[c], p);
    CrashKeepsLedger(run[c], run[c+1], p, true);
    j, q := SavedSince(run, c + 1, i, tree);
  }

  lemma AtWorkIsAllowed(s: State, p: Pid)
    requires Inv(s) && p in s.procs && s.procs[p].Unmarked?
    ensures LedgerAllows(s.ledger, s.procs[p].tree)
  {
    assert PcOk(s, s.procs[p]);
  }

  /** A load of a live process is of what the ledger allows. */
  lemma SeedLoadIsAllowed(run: seq<State>, i: nat, p: Pid)
    requires Run(run) && i + 1 < |run| && Steps(run[i], run[i+1], p, ReadTree(true))
    ensures run[i+1].index.Holds? && LedgerAllows(run[i].ledger, run[i+1].index.tree)
    ensures run[i].lock == Some(p) && run[i].marker.None?
  {
    RunKeepsInv(run, i);
    assert PcOk(run[i], run[i].procs[p]) && LockAgrees(run[i], p);
  }

  /**
   Orphans and all: a load goes against the ledger on disk exactly when it is an orphan's, of a
   tree the ledger allowed when its git was left at work and another save has since replaced.
   */
  lemma LoadsAgainstLedgerExactly(run: seq<State>, i: nat)
    requires Run(run) && i + 1 < |run|
    ensures LoadsAgainstLedger(run[i], run[i+1])
       <==> exists p, c, j, q, tree, newer :: LandsReplaced(run, p, c, j, q, i, tree, newer)
  {
    hide Follows, Init, Steps, OrphanFrom;
    if LoadsAgainstLedger(run[i], run[i+1]) {
      var p, a :| Steps(run[i], run[i+1], p, a) && (a == ReadTree(true) || a == Land);
      if a == Land {
        var c, j, q := LandsOnNewer(run, i, p);
      } else {
        SeedLoadIsAllowed(run, i, p);
      }
    }
    if p, c, j, q, tree, newer :| LandsReplaced(run, p, c, j, q, i, tree, newer) {
      LandEffect(run[i], run[i+1], p);
      OrphanStays(run, p, c, i, Some(tree));
      assert Loads(run[i], run[i+1]);
    }
  }

  lemma OrphanStays(run: seq<State>, p: Pid, c: nat, i: nat, tree: Seen)
    requires OrphanFrom(run, p, c, i, tree)
    ensures p in run[i].procs && run[i].procs[p] == Orphaned(tree)
  {
  }

  /** Where nobody dies with its git at work, every load is of what the ledger allows, and locked. */
  lemma LoadsOnlyWhatTheLedgerNames(run: seq<State>, i: nat)
    requires Run(run) && NoOrphan(run) && i + 1 < |run| && Loads(run[i], run[i+1])
    ensures run[i+1].index.Holds? && LedgerAllows(run[i].ledger, run[i+1].index.tree)
    ensures run[i].lock.Some? && run[i].marker.None?
  {
    hide Follows, Init, Steps;
    var p, a :| Steps(run[i], run[i+1], p, a) && (a == ReadTree(true) || a == Land);
    if a == Land {
      LandEffect(run[i], run[i+1], p);
      assert false;
    }
    SeedLoadIsAllowed(run, i, p);
  }

  // ---------------------------------------------------------------------------------------
  // What a call that does not seed leaves alone
  // ---------------------------------------------------------------------------------------

  /** Past the lock, before the first step of a seed. */
  predicate BeforeSeed(pc: Pc) {
    HoldsLock(pc) && (pc.Looking? || pc.HaveId? || pc.HaveHeader? || pc.Checking?)
  }

  lemma QuietBeforeSeed(s: State, t: State, p: Pid, q: Pid, a: Action)
    requires Inv(s) && Steps(s, t, p, a)
    requires q in s.procs && BeforeSeed(s.procs[q])
    ensures t.marker == s.marker && (a != Land ==> t.index == s.index)
    ensures t.ledger == s.ledger || t.ledger.NoLedger?
  {
    assert LockAgrees(s, p) && LockAgrees(s, q);
    assert PcOk(s, s.procs[p]);
  }

  /**
   Past the lock on a way that need not touch anything: before the seed, before the save, or
   with a seed (a fold's apart) whose marker is still to be removed or could not be.
   */
  predicate Untouching(pc: Pc) {
    BeforeSeed(pc) || pc.Committing? || ((pc.Seeding? || pc.SeedFailed?) && !pc.call.Fold?)
  }

  /** An answer that is no save's. */
  predicate Declined(pc: Pc) {
    pc.Returned? && !pc.reply.Written?
  }

  lemma QuietOnTheWay(s: State, t: State, p: Pid, q: Pid, a: Action)
    requires Inv(s) && Steps(s, t, p, a)
    requires q in s.procs && Untouching(s.procs[q])
    requires q in t.procs && (Untouching(t.procs[q]) || Declined(t.procs[q]))
    ensures t.marker == s.marker && (a != Land ==> t.index == s.index)
    ensures t.ledger == s.ledger || t.ledger.NoLedger?
  {
    assert LockAgrees(s, p) && LockAgrees(s, q);
    assert PcOk(s, s.procs[p]);
    hide MarkerTells, MarkerBorn, LockAgrees;
  }

  /** No orphan's load lands from moment `a` to moment `b`. */
  ghost predicate NothingLands(run: seq<State>, a: nat, b: nat)
    requires b < |run|
  {
    forall x, y, p :: a <= x && y == x + 1 <= b ==> !Steps(run[x], run[y], p, Land)
  }

  /**
   A call that is past the lock at moment `a` and answers at `b` without having removed the
   marker or saved (the ledger refuses, the save or the removal fails, or a second look finds
   the marker fresh) leaves the marker and the index as they were, but for what an orphan lands
   in the index, the ledger as it was or moved aside by an opener, and the lock not its own.
   */
  lemma {:induction false} RefusalTouchesNothing(run: seq<State>, a: nat, b: nat, q: Pid)
    requires Run(run) && a < b < |run|
    requires forall x :: a <= x < b ==> q in run[x].procs && Untouching(run[x].procs[q])
    requires q in run[b].procs && Declined(run[b].procs[q])
    ensures run[b].marker == run[a].marker
    ensures NothingLands(run, a, b) ==> run[b].index == run[a].index
    ensures run[b].ledger == run[a].ledger || run[b].ledger.NoLedger?
    ensures run[b].lock != Some(q)
  {
    QuietUpTo(run, a, b, q);
    RunKeepsInv(run, b);
    assert LockAgrees(run[b], q);
  }

  lemma {:induction false} QuietUpTo(run: seq<State>, a: nat, b: nat, q: Pid)
    requires Run(run) && a <= b < |run|
    requires forall x :: a <= x <= b ==>
      q in run[x].procs && (Untouching(run[x].procs[q]) || (x == b && Declined(run[x].procs[q])))
    ensures run[b].marker == run[a].marker
    ensures NothingLands(run, a, b) ==> run[b].index == run[a].index
    ensures run[b].ledger == run[a].ledger || run[b].ledger.NoLedger?
    decreases b
  {
    hide Next, Inv, PcOk, LockAgrees, Init, Untouching, Declined;
    if a < b {
      QuietUpTo(run, a, b - 1, q);
      RunKeepsInv(run, b - 1);
      assert Follows(run[b-1], run[b]);
      var p, act :| Steps(run[b-1], run[b], p, act);
      QuietOnTheWay(run[b-1], run[b], p, q, act);
      if NothingLands(run, a, b) {
        assert act != Land && NothingLands(run, a, b - 1);
      }
    }
  }

  /** Whoever has returned, died or not begun does not hold the lock. */
  lemma LockFreeOutsideCalls(run: seq<State>, i: nat, p: Pid)
    requires Run(run) && i < |run| && p in run[i].procs
    requires run[i].procs[p].Returned? || run[i].procs[p].Dead? || run[i].procs[p].Idle?
    ensures run[i].lock != Some(p)
  {
    RunKeepsInv(run, i);
    assert LockAgrees(run[i], p);
  }
}
