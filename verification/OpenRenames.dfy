/**
 What a rename aside takes away, and what a second look finds. The first look's rename holds
 no lock, so a ledger saved between the look and the rename goes in the judged one's place.
 */
module OpenRenames {
  import opened Prelude
  import opened OpenProtocol

  /** The step puts a saved file in place of the ledger. */
  ghost predicate Publishes(s: State, t: State) {
    s.tmp.Some? && exists q :: Steps(s, t, q, CommitTmp(true))
  }

  /** Every step leaves the ledger, takes it away, or publishes the temporary file. */
  lemma LedgerStep(s: State, t: State, p: Pid, a: Action)
    requires Steps(s, t, p, a)
    ensures t.ledger == s.ledger || t.ledger.None? || (Publishes(s, t) && t.ledger == s.tmp)
  {
    hide AfterAside, AfterFailure;
    if a.CommitTmp? && a.ok && s.tmp.Some? {
      assert Steps(s, t, p, CommitTmp(true));
    }
  }

  lemma PublishedIsTmp(s: State, t: State)
    requires Publishes(s, t)
    ensures t.ledger.Some? && t.ledger == s.tmp
  {
    var q :| Steps(s, t, q, CommitTmp(true));
  }

  /** From moment `i` to moment `k` nothing is published. */
  ghost predicate Quiet(run: seq<State>, i: nat, k: nat)
    requires k < |run|
  {
    forall x, y :: i <= x && y == x + 1 <= k ==> !Publishes(run[x], run[y])
  }

  lemma {:induction false} QuietKeepsLedger(run: seq<State>, i: nat, k: nat)
    requires Run(run) && i <= k < |run| && Quiet(run, i, k)
    ensures run[k].ledger == run[i].ledger || run[k].ledger.None?
    decreases k
  {
    hide Steps, Init, Publishes, Inv, Moves;
    if i < k {
      QuietKeepsLedger(run, i, k - 1);
      var p, a := StepAt(run, k - 1);
      assert !Publishes(run[k-1], run[k]);
      LedgerStep(run[k-1], run[k], p, a);
    }
  }

  // ---------------------------------------------------------------------------------------
  // What the rename takes
  // ---------------------------------------------------------------------------------------

  /** From just after its look at moment `i` until moment `k`, `p` is moving aside what it judged. */
  ghost predicate Judges(run: seq<State>, p: Pid, i: nat, k: nat, judged: File) {
    && i < k < |run| && run[i].ledger == Some(judged)
    && forall x :: i < x <= k ==> p in run[x].procs && MovesAside(run[x].procs[p]) && run[x].procs[p].judged == judged
  }

  /** While a process judges a file, no file to be published is that one. */
  lemma JudgedIsNoTmp(run: seq<State>, p: Pid, x: nat, judged: File)
    requires Run(run) && x < |run| && p in run[x].procs
    requires MovesAside(run[x].procs[p]) && run[x].procs[p].judged == judged
    ensures run[x].tmp != Some(judged)
    ensures run[x].procs[p].second.Some? ==> run[x].ledger.None? || run[x].ledger == Some(judged)
  {
    RunKeepsInv(run, x);
    assert PcOk(run[x], run[x].procs[p]);
  }

  /** Once something else has been published, the judged file is not the ledger again. */
  lemma {:induction false} JudgedStaysGone(run: seq<State>, p: Pid, i: nat, j: nat, k: nat, judged: File)
    requires Run(run) && Judges(run, p, i, k, judged) && i < j < k && Publishes(run[j], run[j+1])
    ensures run[k].ledger != Some(judged)
    decreases k
  {
    hide Steps, Init, Publishes, Inv, Moves, MovesAside;
    JudgedIsNoTmp(run, p, k - 1, judged);
    if j + 1 == k {
      PublishedIsTmp(run[j], run[k]);
    } else {
      JudgedStaysGone(run, p, i, j, k - 1, judged);
      var q, a := StepAt(run, k - 1);
      LedgerStep(run[k-1], run[k], q, a);
    }
  }

  lemma OpeningRead(run: seq<State>, p: Pid, i: nat, judged: File)
    requires Run(run) && i + 1 < |run| && Steps(run[i], run[i+1], p, ReadLedger(false))
    requires p in run[i+1].procs && MovesAside(run[i+1].procs[p]) && run[i+1].procs[p].judged == judged
    ensures run[i].ledger == Some(judged) && run[i+1].ledger == Some(judged)
  {
  }

  /**
   A rename aside takes a file other than the one its process judged if and only if a save was
   published between the look and the rename...
   */
  lemma TakesAnotherExactly(run: seq<State>, p: Pid, i: nat, k: nat, judged: File)
    requires Run(run) && Judges(run, p, i, k, judged) && Steps(run[i], run[i+1], p, ReadLedger(false))
    requires k + 1 < |run| && Steps(run[k], run[k+1], p, RenameAside) && run[k].ledger.Some?
    ensures run[k].procs[p].Renaming? && run[k+1].ledger.None?
    ensures run[k+1].asides == run[k].asides[run[k].procs[p].name := run[k].ledger.value]
    ensures run[k].ledger.value != judged <==> exists j :: i < j < k && Publishes(run[j], run[j+1])
  {
    OpeningRead(run, p, i, judged);
    hide Init, Publishes, Inv, MovesAside, Follows;
    if j :| i < j < k && Publishes(run[j], run[j+1]) {
      JudgedStaysGone(run, p, i, j, k, judged);
    } else {
      QuietKeepsLedger(run, i + 1, k);
    }
  }

  /** ...and never when the look and the rename are under the lock. */
  lemma LockedRenameTakesJudged(run: seq<State>, p: Pid, k: nat)
    requires Run(run) && k + 1 < |run| && Steps(run[k], run[k+1], p, RenameAside) && run[k].ledger.Some?
    requires run[k].procs[p].Renaming? && run[k].procs[p].second.Some?
    ensures run[k].ledger == Some(run[k].procs[p].judged)
  {
    JudgedIsNoTmp(run, p, k, run[k].procs[p].judged);
  }

  // ---------------------------------------------------------------------------------------
  // What the second look finds
  // ---------------------------------------------------------------------------------------

  /** The ledger at moment `k` was published at moment `j`, after moment `i`. */
  ghost predicate PublishedBetween(run: seq<State>, i: nat, j: nat, k: nat)
    requires k < |run|
  {
    i <= j < k && Publishes(run[j], run[j+1]) && run[j+1].ledger == run[k].ledger
  }

  lemma {:induction false} FromNothing(run: seq<State>, i: nat, k: nat) returns (j: nat)
    requires Run(run) && i <= k < |run| && run[i].ledger.None? && run[k].ledger.Some?
    ensures PublishedBetween(run, i, j, k)
    decreases k
  {
    hide Steps, Init, Publishes, Inv, Moves;
    var p, a := StepAt(run, k - 1);
    LedgerStep(run[k-1], run[k], p, a);
    if Publishes(run[k-1], run[k]) {
      j := k - 1;
    } else {
      j := FromNothing(run, i, k - 1);
    }
  }

  predicate OtherRootThere(s: State) {
    s.ledger.Some? && s.ledger.value.content.OtherRoot?
  }

  /** The step ends `p`'s first look: it goes for the lock. */
  ghost predicate GoesForLock(s: State, t: State, p: Pid) {
    && p in s.procs && !s.procs[p].WantLock?
    && p in t.procs && t.procs[p].WantLock?
    && exists a :: Steps(s, t, p, a)
  }

  lemma GoesWithoutLedger(s: State, t: State, p: Pid)
    requires GoesForLock(s, t, p)
    ensures t.ledger.None?
  {
    var a :| Steps(s, t, p, a);
  }

  /** Whatever ledger is met at moment `k` was published since the first look ended, at moment `i`. */
  lemma SecondLookMeetsNew(run: seq<State>, p: Pid, i: nat, k: nat) returns (j: nat)
    requires Run(run) && 0 < i <= k < |run| && GoesForLock(run[i-1], run[i], p) && run[k].ledger.Some?
    ensures PublishedBetween(run, i, j, k)
  {
    hide GoesForLock, Steps;
    GoesWithoutLedger(run[i-1], run[i], p);
    j := FromNothing(run, i, k);
  }

  /** At moment `j`, after moment `i`, another root's ledger was published, and it is there at `k`. */
  ghost predicate OtherRootPublished(run: seq<State>, i: nat, j: nat, k: nat)
    requires k < |run|
  {
    PublishedBetween(run, i, j, k) && OtherRootThere(run[j+1])
  }

  /**
   The second look does not compare the recorded root. It meets another root's ledger if and
   only if one was published since the first look ended, and is still there.
   */
  lemma SecondLookMeetsOtherRootExactly(run: seq<State>, p: Pid, i: nat, k: nat)
    requires Run(run) && 0 < i <= k < |run| && GoesForLock(run[i-1], run[i], p)
    requires p in run[k].procs && run[k].procs[p].SecondLook?
    ensures OtherRootThere(run[k]) <==> exists j: nat :: OtherRootPublished(run, i, j, k)
  {
    hide Steps, Init, Publishes, Follows;
    if run[k].ledger.Some? {
      var j := SecondLookMeetsNew(run, p, i, k);
      assert OtherRootThere(run[k]) ==> OtherRootPublished(run, i, j, k);
    }
  }

  // ---------------------------------------------------------------------------------------
  // Runs in which nobody writes another root's ledger
  // ---------------------------------------------------------------------------------------

  ghost predicate OwnRootOnly(run: seq<State>) {
    forall i, j, p :: 0 <= i && j == i + 1 < |run| ==> !Steps(run[i], run[j], p, BeginWrite(OtherRoot))
  }

  /** Past its first look: what it saw there was no other root's ledger, or it moved that aside. */
  predicate PastFirstLook(pc: Pc) {
    && !pc.Start? && !pc.TmpThere? && !pc.TmpLocked? && !pc.FirstLook? && !pc.GaveUp? && !pc.Dead?
    && (MovesAside(pc) ==> pc.second.Some?)
  }

  predicate SavesOtherRoot(pc: Pc) {
    match pc
    case Saving(_, content, _) => content.OtherRoot?
    case TmpWritten(_, file, _) => file.content.OtherRoot?
    case WriterWants(content) => content.OtherRoot?
    case _ => false
  }

  /** While the ledger is another root's nobody is past a first look, and nobody saves another root's. */
  ghost predicate OwnRoot(s: State) {
    forall p :: p in s.procs ==> !SavesOtherRoot(s.procs[p]) && (OtherRootThere(s) ==> !PastFirstLook(s.procs[p]))
  }

  lemma StepSavesOwn(s: State, t: State, p: Pid, a: Action)
    requires p in s.procs && PcOk(s, s.procs[p]) && !SavesOtherRoot(s.procs[p])
    requires Steps(s, t, p, a) && a != BeginWrite(OtherRoot)
    ensures p in t.procs && !SavesOtherRoot(t.procs[p])
    ensures OtherRootThere(t) ==> OtherRootThere(s)
  {
    hide PastFirstLook;
  }

  lemma StepStaysBefore(s: State, t: State, p: Pid, a: Action)
    requires p in s.procs && !PastFirstLook(s.procs[p]) && OtherRootThere(s) && OtherRootThere(t)
    requires Steps(s, t, p, a)
    ensures p in t.procs && !PastFirstLook(t.procs[p])
  {
    hide SavesOtherRoot;
  }

  lemma StepStaysOwn(s: State, t: State, p: Pid, a: Action)
    requires Inv(s) && OwnRoot(s) && Steps(s, t, p, a) && a != BeginWrite(OtherRoot)
    ensures p in t.procs && !SavesOtherRoot(t.procs[p]) && (OtherRootThere(t) ==> !PastFirstLook(t.procs[p]))
    ensures OtherRootThere(t) ==> OtherRootThere(s)
  {
    assert p in s.procs && PcOk(s, s.procs[p]);
    hide Next, PcOk, PastFirstLook, SavesOtherRoot, OtherRootThere;
    StepSavesOwn(s, t, p, a);
    if OtherRootThere(t) {
      StepStaysBefore(s, t, p, a);
    }
  }

  lemma StartIsOwn(s: State)
    requires Init(s)
    ensures OwnRoot(s)
  {
  }

  lemma {:induction false} OwnRunStaysOwn(run: seq<State>, k: nat)
    requires Run(run) && OwnRootOnly(run) && k < |run|
    ensures OwnRoot(run[k])
    decreases k
  {
    hide Next, PastFirstLook, SavesOtherRoot, OtherRootThere, Inv, Init;
    if k == 0 {
      StartIsOwn(run[0]);
    } else {
      OwnRunStaysOwn(run, k - 1);
      var p, a := StepAt(run, k - 1);
      assert a != BeginWrite(OtherRoot);
      StepStaysOwn(run[k-1], run[k], p, a);
    }
  }

  /** So where nobody writes another root's ledger, no second look meets one. */
  lemma SecondLookMeetsOwnRoot(run: seq<State>, k: nat, p: Pid)
    requires Run(run) && OwnRootOnly(run) && k < |run|
    requires p in run[k].procs && run[k].procs[p].SecondLook?
    ensures !OtherRootThere(run[k])
  {
    OwnRunStaysOwn(run, k);
  }
}
