/**
 The seen marks over many scans that share one cache: how long a tree is held, how often it is
 listed, and when the marks of listings taken earlier are those of listings taken now.
 */
module SeenRuns {
  import opened Prelude
  import opened StoreTypes
  import opened Seen

  // ---------------------------------------------------------------------------------------
  // Cached listings and today's
  // ---------------------------------------------------------------------------------------

  /** What matching sees of a path in a tree. */
  function Entry(tree: TreeEntries, filemode: bool, path: Path): Option<(Mode, Oid)> {
    if path in tree then Some((Norm(filemode, tree[path].0), tree[path].1)) else None
  }

  /** Record `k`, not in force, leaves `path` to its tree. */
  predicate LeavesToTree(ledger: Ledger, k: nat, path: Path)
    requires k < |Records(ledger)|
  {
    && ledger.seenBranch != Some(Records(ledger)[k].0)
    && path !in Records(ledger)[k].1.overrides && Records(ledger)[k].1.seenTree.Some?
  }

  /** At `path`, the tree record `k` would read is now as `view` has it. */
  predicate SameAt(ledger: Ledger, view: Oid -> TreeEntries, now: Oid -> TreeEntries, filemode: bool,
                   k: nat, path: Path)
    requires k < |Records(ledger)|
  {
    LeavesToTree(ledger, k, path) ==>
      var t := Records(ledger)[k].1.seenTree.value;
      Entry(view(t), filemode, path) == Entry(now(t), filemode, path)
  }

  lemma SameAtSameMark(ledger: Ledger, view: Oid -> TreeEntries, now: Oid -> TreeEntries, filemode: bool, row: Row,
                       k: nat, n: Name)
    requires k < |Records(ledger)| && SameAt(ledger, view, now, filemode, k, row.path)
    ensures Marks(ledger, view, filemode, row, k, n) <==> Marks(ledger, now, filemode, row, k, n)
  {
    NormExactly(filemode);
  }

  /** A row's marks hold by today's listings too where the trees have not changed at its path. */
  lemma SameTreesSameMarks(ledger: Ledger, view: Oid -> TreeEntries, now: Oid -> TreeEntries, filemode: bool, row: Row)
    requires forall k :: 0 <= k < |Records(ledger)| ==> SameAt(ledger, view, now, filemode, k, row.path)
    ensures forall n :: MarkedBy(ledger, view, filemode, row, |Records(ledger)|, n)
                        <==> MarkedBy(ledger, now, filemode, row, |Records(ledger)|, n)
    ensures RightlyMarked(ledger, view, filemode, row) <==> RightlyMarked(ledger, now, filemode, row)
  {
    forall n, k | 0 <= k < |Records(ledger)|
      ensures Marks(ledger, view, filemode, row, k, n) <==> Marks(ledger, now, filemode, row, k, n)
    {
      SameAtSameMark(ledger, view, now, filemode, row, k, n);
    }
    forall n
      ensures AcceptedElsewhere(ledger, view, filemode, row, n) <==> AcceptedElsewhere(ledger, now, filemode, row, n)
    {
      MarkedExactly(ledger, view, filemode, row, n);
      MarkedExactly(ledger, now, filemode, row, n);
    }
  }

  /** Where a tree has changed at a path, some content there would be marked otherwise. */
  lemma ChangedTreeOtherMark(ledger: Ledger, view: Oid -> TreeEntries, now: Oid -> TreeEntries, filemode: bool,
                             k: nat, path: Path)
    returns (row: Row)
    requires k < |Records(ledger)| && !SameAt(ledger, view, now, filemode, k, path)
    ensures row.path == path && Candidate(row)
    ensures var n := Records(ledger)[k].0;
            Marks(ledger, view, filemode, row, k, n) != Marks(ledger, now, filemode, row, k, n)
  {
    NormExactly(filemode);
    var t := Records(ledger)[k].1.seenTree.value;
    var entry := if path in view(t) then view(t)[path] else now(t)[path];
    row := Row(path, Some(entry), false, []);
  }

  /**
   A record marks every row by cached listings as it would by today's, whatever the row holds,
   exactly when it leaves no path to a tree that has changed there since it was listed.
   */
  lemma StaleExactly(ledger: Ledger, view: Oid -> TreeEntries, now: Oid -> TreeEntries, filemode: bool, k: nat)
    requires k < |Records(ledger)|
    ensures (forall row, n :: Candidate(row) ==>
                                (Marks(ledger, view, filemode, row, k, n) <==> Marks(ledger, now, filemode, row, k, n)))
       <==> forall path :: SameAt(ledger, view, now, filemode, k, path)
  {
    hide SameAt, Marks, Candidate;
    if path :| !SameAt(ledger, view, now, filemode, k, path) {
      var row := ChangedTreeOtherMark(ledger, view, now, filemode, k, path);
    } else {
      forall row, n
        ensures Marks(ledger, view, filemode, row, k, n) <==> Marks(ledger, now, filemode, row, k, n)
      {
        SameAtSameMark(ledger, view, now, filemode, row, k, n);
      }
    }
  }

  // ---------------------------------------------------------------------------------------
  // Whole runs of scans over one cache
  // ---------------------------------------------------------------------------------------

  ghost predicate ScanRun(scans: seq<Scan>) {
    && (forall i :: 0 <= i < |scans| ==> FairScan(scans[i]))
    && (forall i, j :: 0 <= i && j == i + 1 < |scans| ==> scans[j].before == scans[i].after)
  }

  /** Held once, a tree stays held while every scan's records name it. */
  lemma {:induction false} HeldWhileNamed(scans: seq<Scan>, i: nat, j: nat, t: Oid)
    requires ScanRun(scans) && i < j < |scans|
    requires forall k :: i <= k < j ==> t in scans[k].named
    requires t in scans[i].after
    ensures t in scans[j].before
    decreases j
  {
    if i + 1 < j {
      HeldWhileNamed(scans, i, j - 1, t);
    }
  }

  /** While records keep naming it, a tree is listed successfully at most once, over any scans. */
  lemma ListedAtMostOnce(scans: seq<Scan>, i: nat, j: nat, t: Oid)
    requires ScanRun(scans) && i < j < |scans|
    requires forall k :: i <= k <= j ==> t in scans[k].named
    requires t in Fetched(scans[i])
    ensures t !in scans[j].listed
  {
    assert t in scans[i].after;
    HeldWhileNamed(scans, i, j, t);
  }

  /** What one scan brings: its rows, its ledger, and how listing answers this time. */
  datatype Input = Input(rows: seq<Row>, ledger: Ledger, filemode: bool, list: Oid -> Option<TreeEntries>)

  /** Tree `t` was listed in scan `l`, with what it holds in scan `i`, and named ever since. */
  ghost predicate CachedIn(inputs: seq<Input>, scans: seq<Scan>, l: nat, i: nat, t: Oid, entries: TreeEntries)
    requires |scans| <= |inputs|
  {
    && l <= i < |scans| && t in Fetched(scans[l]) && inputs[l].list(t) == Some(entries)
    && forall k :: l <= k <= i ==> t in scans[k].named
  }

  /** In scan `i` every tree some row reads is as an earlier scan listed it, or as this one did. */
  ghost predicate AsCached(inputs: seq<Input>, scans: seq<Scan>, i: nat, view: Oid -> TreeEntries)
    requires i < |scans| <= |inputs|
  {
    forall t :: Reads(inputs[i].ledger, inputs[i].rows, |Records(inputs[i].ledger)|, t) ==>
                  exists l: nat :: CachedIn(inputs, scans, l, i, t, view(t))
  }

  /** What the cache holds after scan `i` was listed by that scan or an earlier one. */
  ghost predicate HoldsListed(inputs: seq<Input>, scans: seq<Scan>, i: nat, trees: map<Oid, TreeEntries>)
    requires i < |scans| <= |inputs|
  {
    forall t :: t in trees ==> exists l: nat :: CachedIn(inputs, scans, l, i, t, trees[t])
  }

  lemma CachedLonger(inputs: seq<Input>, scans: seq<Scan>, scan: Scan, l: nat, t: Oid, entries: TreeEntries)
    requires |scans| < |inputs| && |scans| > 0 && CachedIn(inputs, scans, l, |scans| - 1, t, entries)
    requires t in scan.named
    ensures CachedIn(inputs, scans + [scan], l, |scans|, t, entries)
  {
    var longer := scans + [scan];
    assert longer[l] == scans[l];
    assert forall k :: 0 <= k < |scans| ==> longer[k] == scans[k];
  }

  /** A tree held after a scan is named by it, and was held before or listed by it. */
  lemma HeldOrListed(scan: Scan, t: Oid)
    requires FairScan(scan) && t in scan.after
    ensures t in scan.named && (t in Fetched(scan) <==> t !in scan.before)
  {
  }

  lemma ListedNow(inputs: seq<Input>, scans: seq<Scan>, scan: Scan, t: Oid, entries: TreeEntries)
    requires |scans| < |inputs| && t in Fetched(scan) && t in scan.named
    requires inputs[|scans|].list(t) == Some(entries)
    ensures CachedIn(inputs, scans + [scan], |scans|, |scans|, t, entries)
  {
  }

  /** One scan more: what the cache holds was held before, or is listed now. */
  lemma OneScanMore(inputs: seq<Input>, scans: seq<Scan>, scan: Scan, before: map<Oid, TreeEntries>,
                    trees: map<Oid, TreeEntries>)
    requires |scans| < |inputs| && FairScan(scan) && scan.before == before.Keys && scan.after == trees.Keys
    requires if |scans| == 0 then before == map[] else HoldsListed(inputs, scans, |scans| - 1, before)
    requires Faithful(trees, View(before, inputs[|scans|].list))
    requires AllListed(inputs[|scans|].list, Fetched(scan))
    ensures HoldsListed(inputs, scans + [scan], |scans|, trees)
  {
    hide FairScan, CachedIn, Fetched;
    var i, longer := |scans|, scans + [scan];
    forall t | t in trees
      ensures exists l: nat :: CachedIn(inputs, longer, l, i, t, trees[t])
    {
      HeldOrListed(scan, t);
      if t in before {
        var l: nat :| CachedIn(inputs, scans, l, i - 1, t, before[t]);
        CachedLonger(inputs, scans, scan, l, t, before[t]);
      } else {
        ListedNow(inputs, scans, scan, t, trees[t]);
      }
    }
  }

  /** Scan `i` marked every row as if no cache were there and trees listed as `view` has them. */
  ghost predicate MarkedAs(inputs: seq<Input>, scans: seq<Scan>, i: nat, view: Oid -> TreeEntries, rows: seq<Row>)
    requires i < |scans| <= |inputs|
  {
    && SameButMarks(inputs[i].rows, rows) && AsCached(inputs, scans, i, view)
    && forall r :: 0 <= r < |rows| ==> RightlyMarked(inputs[i].ledger, view, inputs[i].filemode, rows[r])
  }

  lemma LaterScans(inputs: seq<Input>, scans: seq<Scan>, scan: Scan, i: nat, view: Oid -> TreeEntries, rows: seq<Row>)
    requires i < |scans| < |inputs| && MarkedAs(inputs, scans, i, view, rows)
    ensures MarkedAs(inputs, scans + [scan], i, view, rows)
  {
    hide RightlyMarked, SameButMarks;
    var longer := scans + [scan];
    forall t | Reads(inputs[i].ledger, inputs[i].rows, |Records(inputs[i].ledger)|, t)
      ensures exists l: nat :: CachedIn(inputs, longer, l, i, t, view(t))
    {
      var l: nat :| CachedIn(inputs, scans, l, i, t, view(t));
      assert longer[l] == scans[l];
      assert CachedIn(inputs, longer, l, i, t, view(t));
    }
  }

  /** What a scan has read is what it holds afterwards. */
  lemma ReadAsHeld(inputs: seq<Input>, scans: seq<Scan>, i: nat, view: Oid -> TreeEntries, trees: map<Oid, TreeEntries>)
    requires i < |scans| <= |inputs| && HoldsListed(inputs, scans, i, trees) && Faithful(trees, view)
    requires forall t :: Reads(inputs[i].ledger, inputs[i].rows, |Records(inputs[i].ledger)|, t) ==> t in trees
    ensures AsCached(inputs, scans, i, view)
  {
    hide CachedIn, Reads;
  }

  /** What the cache holds after some scans was listed by one of them. */
  ghost predicate CacheOf(trees: map<Oid, TreeEntries>, inputs: seq<Input>, scans: seq<Scan>)
    requires |scans| <= |inputs|
  {
    if |scans| == 0 then trees == map[]
    else scans[|scans|-1].after == trees.Keys && HoldsListed(inputs, scans, |scans| - 1, trees)
  }

  /** The next scan over the cache. */
  method ScanOne(cache: SeenCache, inputs: seq<Input>, i: nat, ghost scans: seq<Scan>)
    returns (result: Option<seq<Row>>, ghost scan: Scan, ghost view: Oid -> TreeEntries)
    requires i == |scans| < |inputs| && CacheOf(cache.trees, inputs, scans)
    modifies cache
    ensures FairScan(scan) && scan.named == Named(inputs[i].ledger) && scan.before == old(cache.trees.Keys)
    ensures CacheOf(cache.trees, inputs, scans + [scan])
    ensures result.Some? ==> MarkedAs(inputs, scans + [scan], i, view, result.value)
  {
    hide RightlyMarked, Reads, FairScan, HoldsListed, AsCached, Faithful, AllListed;
    var pile := new Pile(inputs[i].rows);
    ghost var before := cache.trees;
    var failed, listed := cache.Mark(pile, inputs[i].ledger, inputs[i].filemode, inputs[i].list);
    scan := Scan(before.Keys, Named(inputs[i].ledger), listed, failed, cache.trees.Keys);
    view := View(before, inputs[i].list);
    OneScanMore(inputs, scans, scan, before, cache.trees);
    if failed {
      return None, scan, view;
    }
    ReadAsHeld(inputs, scans + [scan], i, view, cache.trees);
    result := Some(pile.rows);
  }

  /** The results are those of fair scans over one cache, each marked as its view of the trees has it. */
  ghost predicate OneCache(inputs: seq<Input>, results: seq<Option<seq<Row>>>, scans: seq<Scan>,
                           views: seq<Oid -> TreeEntries>)
  {
    && |results| == |scans| == |views| <= |inputs| && ScanRun(scans)
    && (forall i :: 0 <= i < |scans| ==> scans[i].named == Named(inputs[i].ledger))
    && (forall i :: 0 <= i < |scans| && results[i].Some? ==> MarkedAs(inputs, scans, i, views[i], results[i].value))
  }

  /**
   Any scans with any ledgers over one cache, and any listings: each scan that does not fail is
   marked as if there were no cache and every tree it reads still listed as it did when cached.
   */
  method ScanMany(inputs: seq<Input>) returns (results: seq<Option<seq<Row>>>)
    ensures |results| == |inputs| && exists scans, views :: OneCache(inputs, results, scans, views)
  {
    var cache := new SeenCache();
    results := [];
    ghost var scans, views := [], [];
    for i := 0 to |inputs|
      invariant fresh(cache) && |results| == i
      invariant OneCache(inputs, results, scans, views) && CacheOf(cache.trees, inputs, scans)
    {
      var result;
      ghost var scan, view;
      result, scan, view := ScanOne(cache, inputs, i, scans);
      OneResultMore(inputs, results, scans, views, result, scan, view);
      scans, views := scans + [scan], views + [view];
      results := results + [result];
    }
  }

  lemma OneResultMore(inputs: seq<Input>, results: seq<Option<seq<Row>>>, scans: seq<Scan>,
                      views: seq<Oid -> TreeEntries>, result: Option<seq<Row>>, scan: Scan, view: Oid -> TreeEntries)
    requires OneCache(inputs, results, scans, views) && |scans| < |inputs|
    requires FairScan(scan) && scan.named == Named(inputs[|scans|].ledger)
    requires |scans| > 0 ==> scan.before == scans[|scans|-1].after
    requires result.Some? ==> MarkedAs(inputs, scans + [scan], |scans|, view, result.value)
    ensures OneCache(inputs, results + [result], scans + [scan], views + [view])
  {
    hide FairScan, MarkedAs;
    forall k | 0 <= k < |scans| && results[k].Some?
      ensures MarkedAs(inputs, scans + [scan], k, views[k], results[k].value)
    {
      LaterScans(inputs, scans, scan, k, views[k], results[k].value);
    }
  }
}
