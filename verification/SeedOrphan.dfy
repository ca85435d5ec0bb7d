/**
 The one way a marker comes to lie, as a run: a process dies just after it has started git,
 another seeds and marks a newer tree, and then the orphaned git replaces the index.
 */
module SeedOrphan {
  import opened Prelude
  import opened SeedProtocol
  import opened SeedLaws

  function Last(run: seq<State>): State
    requires |run| > 0
  {
    run[|run|-1]
  }

  /** One more step of a run. */
  lemma Then(run: seq<State>, p: Pid, a: Action) returns (longer: seq<State>)
    requires Run(run) && Next(Last(run), p, a).Some?
    ensures Run(longer) && longer[0] == run[0] && Next(Last(run), p, a) == Some(Last(longer))
    ensures |longer| == |run| + 1 && longer[|run|-1] == Last(run)
  {
    hide Next;
    longer := run + [Next(Last(run), p, a).value];
    forall i, j | 0 <= i && j == i + 1 < |longer|
      ensures Follows(longer[i], longer[j])
    {
      if j == |run| {
        assert Steps(longer[i], longer[j], p, a);
      } else {
        assert Follows(run[i], run[j]);
      }
    }
  }

  /** `p` takes the lock to reseed `a`, which the ledger allows... */
  lemma ReadsLedger(s: State, p: Pid, a: Tree) returns (run: seq<State>)
    requires Init(s) && p in s.procs && LedgerAllows(s.ledger, Some(a))
    ensures Run(run) && run[0] == s
    ensures Last(run) == s.(procs := s.procs[p := Seeding(Reseed, Some(a))], lock := Some(p))
  {
    run := Then([s], p, Begin(Reseed, Some(a)));
    run := Then(run, p, TakeLock);
    run := Then(run, p, ReadLedger(false));
  }

  /** ...and dies once its git is started. */
  lemma DiesLoading(s: State, p: Pid, a: Tree) returns (run: seq<State>)
    requires Init(s) && p in s.procs && LedgerAllows(s.ledger, Some(a))
    ensures Run(run) && run[0] == s
    ensures Last(run) == s.(procs := s.procs[p := Orphaned(Some(a))])
  {
    run := ReadsLedger(s, p, a);
    run := Then(run, p, RemoveMarker(true));
    run := Then(run, p, Crash(true));
    assert Last(run).procs == s.procs[p := Orphaned(Some(a))];
  }

  /** `q` saves the ledger that names `b`... */
  lemma SavesNewer(run: seq<State>, q: Pid, b: Tree) returns (longer: seq<State>)
    requires Run(run) && q in Last(run).procs && Last(run).procs[q].Idle? && Last(run).lock.None?
    ensures Run(longer) && longer[0] == run[0]
    ensures Last(longer) == Last(run).(procs := Last(run).procs[q := Seeding(Fold, Some(b))],
                                       lock := Some(q), ledger := Names(Some(b)))
  {
    longer := Then(run, q, Begin(Fold, Some(b)));
    longer := Then(longer, q, TakeLock);
    longer := Then(longer, q, CommitLedger(true));
  }

  /** ...and seeds it: marker away, load, marker in. */
  lemma SeedsTree(run: seq<State>, q: Pid, b: Tree) returns (longer: seq<State>)
    requires Run(run) && q in Last(run).procs && Last(run).procs[q] == Seeding(Fold, Some(b))
    requires Last(run).lock == Some(q)
    ensures Run(longer) && longer[0] == run[0]
    ensures Last(longer).procs == Last(run).procs[q := Marked(Fold, Some(b))]
    ensures Last(longer).marker.Some? && Last(longer).marker.value.names == Some(b)
    ensures Last(longer).ledger == Last(run).ledger
  {
    longer := Then(run, q, RemoveMarker(true));
    longer := Then(longer, q, ReadTree(true));
    longer := Then(longer, q, WriteMarker(true));
  }

  /**
   The marker and the ledger name `b`, and the index comes to hold `a`: the marker lies, and a
   tree was loaded that the ledger on disk does not name.
   */
  lemma OrphanMakesMarkerLie(s: State, p: Pid, q: Pid, a: Tree, b: Tree) returns (run: seq<State>)
    requires Init(s) && p in s.procs && q in s.procs && p != q && a != b
    requires LedgerAllows(s.ledger, Some(a))
    ensures Run(run) && run[0] == s && |run| > 1
    ensures Last(run).marker.Some? && Last(run).marker.value.names == Some(b)
    ensures Last(run).ledger == Names(Some(b)) && Last(run).index == Holds(Some(a))
    ensures OrphanHasLastWord(run, |run| - 1, Some(b))
    ensures LoadsAgainstLedger(run[|run|-2], run[|run|-1]) && run[|run|-2].marker == Last(run).marker
  {
    run := DiesLoading(s, p, a);
    run := SavesNewer(run, q, b);
    run := SeedsTree(run, q, b);
    run := Then(run, q, Return(true));
    run := Then(run, p, Land);
    assert Steps(run[|run|-2], run[|run|-1], p, Land);
    assert Loads(run[|run|-2], run[|run|-1]);
    MarkerLiesExactly(run, |run| - 1);
  }
}
