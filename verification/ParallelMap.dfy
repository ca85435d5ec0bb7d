/**
 The bounded pool (`parallel_map`): workers pop items off one queue and fill one slot each.
 The scheduler is arbitrary: at every turn any worker that has not finished takes its next
 atomic step, so what is proved of the method holds of every schedule.
 */
module ParallelMap {
  import opened Prelude

  const MAX_PARALLELISM: nat := 8

  /** Where a worker is in its loop. `Panicked` is a worker whose job did not return. */
  datatype Worker<I, T> =
    | Ready
    | Taken(i: nat, item: I)
    | Answer(i: nat, value: T)
    | Stopped
    | Panicked

  /** Where an item is: in the queue, with worker `w`, in its slot, or lost to a panic. */
  datatype Phase = Queued | Running(w: nat) | Computed(w: nat) | Stored | Lost

  predicate Finished<I, T>(w: Worker<I, T>) {
    w.Stopped? || w.Panicked?
  }

  /** `job` answers `None` where the closure panics. */
  ghost predicate AllReturn<I, T>(items: seq<I>, job: I -> Option<T>) {
    forall i :: 0 <= i < |items| ==> job(items[i]).Some?
  }

  /** One value an item, as mapping them one by one gives. */
  ghost predicate Mapped<I, T>(items: seq<I>, job: I -> Option<T>, values: seq<T>) {
    && |values| == |items|
    && forall i :: 0 <= i < |items| ==> job(items[i]) == Some(values[i])
  }

  /** The pool between two steps; `runs[i]` counts the calls of item `i`'s job. */
  datatype Pool<I, T> = Pool(
    queue: seq<(nat, I)>,
    slots: seq<Option<T>>,
    workers: seq<Worker<I, T>>,
    phase: seq<Phase>,
    runs: seq<nat>)

  /** The queue holds the items not handed out yet, last first, so that `pop` takes the first. */
  ghost predicate QueueOk<I, T>(pool: Pool<I, T>, items: seq<I>) {
    && |pool.queue| <= |items| == |pool.slots| == |pool.runs| == |pool.phase|
    && forall k :: 0 <= k < |pool.queue| ==>
                     pool.queue[k].0 == |items| - 1 - k && pool.queue[k].1 == items[|items| - 1 - k]
  }

  ghost predicate ItemOk<I, T>(pool: Pool<I, T>, items: seq<I>, job: I -> Option<T>, i: nat)
    requires QueueOk(pool, items) && i < |items|
  {
    && pool.runs[i] == (if pool.phase[i].Queued? || pool.phase[i].Running? then 0 else 1)
    && (pool.phase[i].Queued? <==> i >= |items| - |pool.queue|)
    && (pool.phase[i].Stored? <==> pool.slots[i].Some?)
    && match pool.phase[i]
       case Queued => true
       case Running(w) => w < |pool.workers| && pool.workers[w] == Taken(i, items[i])
       case Computed(w) =>
         w < |pool.workers| && pool.workers[w].Answer? && pool.workers[w].i == i
         && job(items[i]) == Some(pool.workers[w].value)
       case Stored => job(items[i]) == pool.slots[i]
       case Lost => job(items[i]).None? && exists w :: 0 <= w < |pool.workers| && pool.workers[w].Panicked?
  }

  ghost predicate WorkerOk<I, T>(pool: Pool<I, T>, items: seq<I>, w: nat)
    requires QueueOk(pool, items) && w < |pool.workers|
  {
    match pool.workers[w]
    case Ready => true
    case Taken(i, _) => i < |items| && pool.phase[i] == Running(w)
    case Answer(i, _) => i < |items| && pool.phase[i] == Computed(w)
    case Stopped => pool.queue == []
    case Panicked => exists i :: 0 <= i < |items| && pool.phase[i].Lost?
  }

  ghost predicate Inv<I, T>(pool: Pool<I, T>, items: seq<I>, job: I -> Option<T>) {
    && QueueOk(pool, items)
    && (forall i :: 0 <= i < |items| ==> ItemOk(pool, items, job, i))
    && (forall w :: 0 <= w < |pool.workers| ==> WorkerOk(pool, items, w))
  }

  /** What worker `w` does next, in one atomic step. */
  function Step<I, T>(pool: Pool<I, T>, job: I -> Option<T>, w: nat): Pool<I, T>
    requires w < |pool.workers| && |pool.slots| == |pool.runs| == |pool.phase|
    requires forall k :: 0 <= k < |pool.queue| ==> pool.queue[k].0 < |pool.slots|
    requires (pool.workers[w].Taken? || pool.workers[w].Answer?) ==> pool.workers[w].i < |pool.slots|
  {
    match pool.workers[w]
    case Ready =>
      if pool.queue == [] then
        pool.(workers := pool.workers[w := Stopped])
      else
        var (i, item) := pool.queue[|pool.queue|-1];
        pool.(queue := pool.queue[..|pool.queue|-1],
        workers := pool.workers[w := Taken(i, item)],
        phase := pool.phase[i := Running(w)])
    case Taken(i, item) =>
      var value := job(item);
      pool.(workers := pool.workers[w := if value.Some? then Answer(i, value.value) else Panicked],
      phase := pool.phase[i := if value.Some? then Computed(w) else Lost],
      runs := pool.runs[i := pool.runs[i] + 1])
    case Answer(i, value) =>
      pool.(slots := pool.slots[i := Some(value)],
      workers := pool.workers[w := Ready],
      phase := pool.phase[i := Stored])
    case Stopped => pool
    case Panicked => pool
  }

  lemma StepKeepsInv<I, T>(pool: Pool<I, T>, items: seq<I>, job: I -> Option<T>, w: nat)
    requires Inv(pool, items, job) && w < |pool.workers| && WorkerOk(pool, items, w)
    ensures Inv(Step(pool, job, w), items, job)
  {
    var next := Step(pool, job, w);
    assert QueueOk(next, items);
    // The one item this step moves, and where it was.
    var worker := pool.workers[w];
    var touched := if worker.Taken? || worker.Answer? then worker.i else |items| - |pool.queue|;
    assert 0 <= touched < |items| ==> ItemOk(pool, items, job, touched);
    forall i | 0 <= i < |items|
      ensures ItemOk(next, items, job, i)
    {
      assert ItemOk(pool, items, job, i);
      if pool.phase[i].Lost? {
        var v :| 0 <= v < |pool.workers| && pool.workers[v].Panicked?;
        assert next.workers[v].Panicked?;
      }
      if next.phase[i].Lost? && !pool.phase[i].Lost? {
        assert next.workers[w].Panicked?;
      }
    }
    forall v | 0 <= v < |next.workers|
      ensures WorkerOk(next, items, v)
    {
      assert WorkerOk(pool, items, v);
      if next.workers[v].Panicked? && !pool.workers[v].Panicked? {
        assert next.phase[touched].Lost?;
      } else if next.workers[v].Panicked? {
        var i :| 0 <= i < |items| && pool.phase[i].Lost?;
        assert next.phase[i].Lost?;
      }
    }
  }

  // ---------------------------------------------------------------------------------------
  // Every schedule ends
  // ---------------------------------------------------------------------------------------

  function Rank<I, T>(w: Worker<I, T>): nat {
    match w
    case Taken(_, _) => 3
    case Answer(_, _) => 2
    case Ready => 1
    case _ => 0
  }

  function Ranks<I, T>(workers: seq<Worker<I, T>>): nat {
    if workers == [] then 0 else Rank(workers[0]) + Ranks(workers[1..])
  }

  lemma {:induction false} RanksUpdate<I, T>(workers: seq<Worker<I, T>>, w: nat, x: Worker<I, T>)
    requires w < |workers|
    ensures Ranks(workers[w := x]) == Ranks(workers) - Rank(workers[w]) + Rank(x)
  {
    if w > 0 {
      RanksUpdate(workers[1..], w - 1, x);
      assert workers[w := x][1..] == workers[1..][w - 1 := x];
    } else {
      assert workers[w := x][1..] == workers[1..];
    }
  }

  /** Each step uses up some of this, so no schedule is longer than it. */
  function Work<I, T>(pool: Pool<I, T>): nat {
    3 * |pool.queue| + Ranks(pool.workers)
  }

  lemma StepUsesWork<I, T>(pool: Pool<I, T>, items: seq<I>, job: I -> Option<T>, w: nat)
    requires Inv(pool, items, job) && w < |pool.workers| && WorkerOk(pool, items, w)
    requires !Finished(pool.workers[w])
    ensures Work(Step(pool, job, w)) < Work(pool)
  {
    RanksUpdate(pool.workers, w, Step(pool, job, w).workers[w]);
  }

  /** When all have finished and none panicked, every slot holds its own item's answer. */
  lemma AllStored<I, T>(pool: Pool<I, T>, items: seq<I>, job: I -> Option<T>)
    requires Inv(pool, items, job) && |pool.workers| > 0
    requires forall w :: 0 <= w < |pool.workers| ==> pool.workers[w].Stopped?
    ensures forall i :: 0 <= i < |items| ==>
                          pool.slots[i].Some? && pool.slots[i] == job(items[i]) && pool.runs[i] == 1
  {
    assert WorkerOk(pool, items, 0);
    forall i | 0 <= i < |items|
      ensures pool.slots[i].Some? && pool.slots[i] == job(items[i]) && pool.runs[i] == 1
    {
      assert ItemOk(pool, items, job, i);
    }
  }

  // ---------------------------------------------------------------------------------------
  // The method
  // ---------------------------------------------------------------------------------------

  /** Result `i` is item `i`'s, whoever worked on it; `None` stands for a panic. */
  method Map<I, T>(items: seq<I>, width: nat, job: I -> Option<T>)
    returns (r: Option<seq<T>>, ghost runs: seq<nat>, ghost crew: nat)
    ensures r.Some? <==> AllReturn(items, job)
    ensures r.Some? ==> Mapped(items, job, r.value)
    ensures |runs| == |items|
    ensures forall i :: 0 <= i < |items| ==> runs[i] <= 1 && (r.Some? ==> runs[i] == 1)
    // As many workers as were asked for, but one at least, no more than the bound, nor than items.
    ensures crew <= |items| && crew <= MAX_PARALLELISM && crew <= Max(1, width)
    ensures crew == |items| || crew == MAX_PARALLELISM || crew == Max(1, width)
  {
    var n := |items|;
    if n == 0 {
      return Some([]), [], 0;
    }
    var threads := Min(Max(1, Min(width, MAX_PARALLELISM)), n);
    if threads == 1 {
      r, runs := Inline(items, job);
      crew := 1;
      return;
    }
    var pool := Pool(
      seq(n, k requires 0 <= k < n => (n - 1 - k, items[n - 1 - k])),
      seq(n, _ => None),
      seq(threads, _ => Ready),
      seq(n, _ => Queued),
      seq(n, _ => 0));
    while exists w :: 0 <= w < |pool.workers| && !Finished(pool.workers[w])
      invariant Inv(pool, items, job) && |pool.workers| == threads
      decreases Work(pool)
    {
      var w :| 0 <= w < |pool.workers| && !Finished(pool.workers[w]);
      assert WorkerOk(pool, items, w);
      StepKeepsInv(pool, items, job, w);
      StepUsesWork(pool, items, job, w);
      pool := Step(pool, job, w);
    }
    runs, crew := pool.runs, |pool.workers|;
    forall i | 0 <= i < n
      ensures runs[i] <= 1
    {
      assert ItemOk(pool, items, job, i);
    }
    if exists w :: 0 <= w < |pool.workers| && pool.workers[w].Panicked? {
      // A panic in a worker comes out of the scope once every worker has ended.
      ghost var w :| 0 <= w < |pool.workers| && pool.workers[w].Panicked?;
      assert WorkerOk(pool, items, w);
      ghost var i :| 0 <= i < |items| && pool.phase[i].Lost?;
      assert ItemOk(pool, items, job, i);
      return None, runs, crew;
    }
    AllStored(pool, items, job);
    return Some(seq(n, i requires 0 <= i < n && pool.slots[i].Some? => pool.slots[i].value)), runs, crew;
  }

  /** Width one: the same job on the calling thread, one item after another. */
  method Inline<I, T>(items: seq<I>, job: I -> Option<T>) returns (r: Option<seq<T>>, ghost runs: seq<nat>)
    ensures r.Some? <==> AllReturn(items, job)
    ensures r.Some? ==> Mapped(items, job, r.value)
    ensures |runs| == |items|
    ensures forall i :: 0 <= i < |items| ==> runs[i] <= 1 && (r.Some? ==> runs[i] == 1)
  {
    var out: seq<T> := [];
    runs := seq(|items|, _ => 0);
    for k := 0 to |items|
      invariant |out| == k && |runs| == |items|
      invariant forall i :: 0 <= i < k ==> job(items[i]) == Some(out[i]) && runs[i] == 1
      invariant forall i :: k <= i < |items| ==> runs[i] == 0
    {
      var value := job(items[k]);
      runs := runs[k := 1];
      if value.None? {
        return None, runs;
      }
      out := out + [value.value];
    }
    return Some(out), runs;
  }
}
