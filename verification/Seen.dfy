/**
 The seen-on-another-branch marks (`seen::mark`): each row against every parked and retired
 record, with tree listings cached between scans and fetched only when some row reads them.
 */
module Seen {
  import opened Prelude
  import opened Order
  import opened StoreTypes

  type Name = Bytes

  /** A parked or retired record: what matching reads of it. */
  datatype Record = Record(seenTree: Option<Oid>, overrides: Overrides)

  /** Parked records then retired ones, each in name order, and the branch in force. */
  datatype Ledger = Ledger(branches: seq<(Name, Record)>, retired: seq<(Name, Record)>, seenBranch: Option<Name>)

  datatype Row = Row(path: Path, current: Option<(Mode, Oid)>, annotated: bool, seenOn: seq<Name>)

  function Records(ledger: Ledger): seq<(Name, Record)> {
    ledger.branches + ledger.retired
  }

  // ---------------------------------------------------------------------------------------
  // The uncached specification
  // ---------------------------------------------------------------------------------------

  function Norm(filemode: bool, mode: Mode): Mode {
    if !filemode && mode == Executable then Regular else mode
  }

  /** Modes that count as one: with `core.filemode` off, the executable bit is no difference. */
  ghost predicate SameMode(filemode: bool, a: Mode, b: Mode) {
    a == b || (!filemode && {a, b} <= {Regular, Executable})
  }

  lemma NormExactly(filemode: bool)
    ensures forall a, b :: Norm(filemode, a) == Norm(filemode, b) <==> SameMode(filemode, a, b)
  {
  }

  /** What a record says of a path, every tree listed afresh. */
  function Accepted(record: Record, listing: Oid -> TreeEntries, path: Path): Option<(Mode, Oid)> {
    if path in record.overrides then
      var o := record.overrides[path];
      match o.blob
      case Some(Some(oid)) => Some((if o.mode.Some? then o.mode.value else Regular, oid))
      case _ => None
    else if record.seenTree.Some? && path in listing(record.seenTree.value) then
      Some(listing(record.seenTree.value)[path])
    else None
  }

  predicate Candidate(row: Row) {
    row.current.Some? && !row.annotated
  }

  ghost predicate Matches(record: Record, listing: Oid -> TreeEntries, filemode: bool, row: Row) {
    var accepted := Accepted(record, listing, row.path);
    && row.current.Some? && accepted.Some?
    && accepted.value.1 == row.current.value.1
    && SameMode(filemode, accepted.value.0, row.current.value.0)
  }

  /** One of the first `r` records marks the row with `name`. */
  ghost predicate MarkedBy(ledger: Ledger, listing: Oid -> TreeEntries, filemode: bool, row: Row, r: nat, name: Name)
    requires r <= |Records(ledger)|
  {
    exists k :: 0 <= k < r && Marks(ledger, listing, filemode, row, k, name)
  }

  ghost predicate Marks(ledger: Ledger, listing: Oid -> TreeEntries, filemode: bool, row: Row, k: nat, name: Name)
    requires k < |Records(ledger)|
  {
    && Records(ledger)[k].0 == name && ledger.seenBranch != Some(name)
    && Matches(Records(ledger)[k].1, listing, filemode, row)
  }

  /** A parked or a retired record of that name. */
  ghost predicate Keeps(ledger: Ledger, name: Name, record: Record) {
    (name, record) in ledger.branches || (name, record) in ledger.retired
  }

  /** Some record of that name, which is not the branch in force, accepted what the row holds. */
  ghost predicate AcceptedElsewhere(ledger: Ledger, listing: Oid -> TreeEntries, filemode: bool, row: Row, name: Name) {
    && ledger.seenBranch != Some(name)
    && exists record :: Keeps(ledger, name, record) && Matches(record, listing, filemode, row)
  }

  /**
   The row's marks are the ascending list of exactly the names that match it; a row with nothing
   on its current side, or with an upstream label, has none.
   */
  ghost predicate RightlyMarked(ledger: Ledger, listing: Oid -> TreeEntries, filemode: bool, row: Row) {
    if row.current.Some? && !row.annotated then
      && Ascending(row.seenOn)
      && forall n :: n in row.seenOn <==> AcceptedElsewhere(ledger, listing, filemode, row, n)
    else row.seenOn == []
  }

  lemma InRecords(ledger: Ledger, name: Name, record: Record)
    ensures Keeps(ledger, name, record)
       <==> exists k :: 0 <= k < |Records(ledger)| && Records(ledger)[k] == (name, record)
  {
    var all := Records(ledger);
    assert Keeps(ledger, name, record) <==> (name, record) in all;
  }

  /** Record by record or by name, the same rows are marked. */
  lemma MarkedExactly(ledger: Ledger, listing: Oid -> TreeEntries, filemode: bool, row: Row, name: Name)
    ensures MarkedBy(ledger, listing, filemode, row, |Records(ledger)|, name)
       <==> AcceptedElsewhere(ledger, listing, filemode, row, name)
  {
    hide Matches, Keeps, Records;
    if k :| 0 <= k < |Records(ledger)| && Marks(ledger, listing, filemode, row, k, name) {
      InRecords(ledger, name, Records(ledger)[k].1);
    }
    if record :| Keeps(ledger, name, record) && Matches(record, listing, filemode, row) {
      InRecords(ledger, name, record);
      if ledger.seenBranch != Some(name) {
        var k :| 0 <= k < |Records(ledger)| && Records(ledger)[k] == (name, record);
        assert Marks(ledger, listing, filemode, row, k, name);
      }
    }
  }

  // ---------------------------------------------------------------------------------------
  // The cached walk
  // ---------------------------------------------------------------------------------------

  predicate NamesTree(ledger: Ledger, t: Oid) {
    exists k :: 0 <= k < |Records(ledger)| && Records(ledger)[k].1.seenTree == Some(t)
  }

  ghost function Named(ledger: Ledger): iset<Oid> {
    iset t: Oid | NamesTree(ledger, t)
  }

  /** The first `r` records make the walk read tree `t`: one of them, not in force, for some row. */
  predicate Reads(ledger: Ledger, rows: seq<Row>, r: nat, t: Oid)
    requires r <= |Records(ledger)|
  {
    exists k :: 0 <= k < r && ReadsAt(ledger, rows, k, t)
  }

  predicate ReadsAt(ledger: Ledger, rows: seq<Row>, k: nat, t: Oid)
    requires k < |Records(ledger)|
  {
    && Records(ledger)[k].1.seenTree == Some(t) && ledger.seenBranch != Some(Records(ledger)[k].0)
    && NeedsTree(rows, Records(ledger)[k].1)
  }

  predicate NeedsTree(rows: seq<Row>, record: Record) {
    exists i :: 0 <= i < |rows| && Candidate(rows[i]) && rows[i].path !in record.overrides
  }

  /** What is listed is what some record not in force leaves to its tree for some row to be marked. */
  lemma ReadsExactly(ledger: Ledger, rows: seq<Row>, t: Oid)
    ensures Reads(ledger, rows, |Records(ledger)|, t) <==>
      exists name, record, row ::
        && Keeps(ledger, name, record) && ledger.seenBranch != Some(name) && record.seenTree == Some(t)
        && row in rows && row.current.Some? && !row.annotated && row.path !in record.overrides
  {
    if k :| 0 <= k < |Records(ledger)| && ReadsAt(ledger, rows, k, t) {
      var (name, record) := Records(ledger)[k];
      InRecords(ledger, name, record);
      var i :| 0 <= i < |rows| && Candidate(rows[i]) && rows[i].path !in record.overrides;
      assert rows[i] in rows;
    }
    if name, record, row :|
      && Keeps(ledger, name, record) && ledger.seenBranch != Some(name) && record.seenTree == Some(t)
      && row in rows && row.current.Some? && !row.annotated && row.path !in record.overrides
    {
      InRecords(ledger, name, record);
      var k :| 0 <= k < |Records(ledger)| && Records(ledger)[k] == (name, record);
      var i :| 0 <= i < |rows| && rows[i] == row;
      assert Candidate(rows[i]);
      assert ReadsAt(ledger, rows, k, t);
    }
  }

  /** What stays cached is what some record names, in force or not. */
  lemma NamesExactly(ledger: Ledger, t: Oid)
    ensures NamesTree(ledger, t) <==> exists name, record :: Keeps(ledger, name, record) && record.seenTree == Some(t)
  {
    if k :| 0 <= k < |Records(ledger)| && Records(ledger)[k].1.seenTree == Some(t) {
      InRecords(ledger, Records(ledger)[k].0, Records(ledger)[k].1);
    }
    if name, record :| Keeps(ledger, name, record) && record.seenTree == Some(t) {
      InRecords(ledger, name, record);
    }
  }

  predicate SameButMarks(a: seq<Row>, b: seq<Row>) {
    |a| == |b| && forall i :: 0 <= i < |a| ==> b[i] == a[i].(seenOn := b[i].seenOn)
  }

  ghost predicate Faithful(trees: map<Oid, TreeEntries>, listing: Oid -> TreeEntries) {
    forall t :: t in trees ==> trees[t] == listing(t)
  }

  /** What a scan reads of a tree: what the cache holds, or else what listing it now gives. */
  function View(trees: map<Oid, TreeEntries>, list: Oid -> Option<TreeEntries>): Oid -> TreeEntries {
    t => if t in trees then trees[t] else if list(t).Some? then list(t).value else map[]
  }

  class Pile {
    var rows: seq<Row>

    constructor (rows: seq<Row>)
      ensures this.rows == rows
    {
      this.rows := rows;
    }

    method ClearMarks()
      modifies this
      ensures SameButMarks(old(rows), rows)
      ensures forall i :: 0 <= i < |rows| ==> rows[i].seenOn == []
    {
      for i := 0 to |rows|
        invariant SameButMarks(old(rows), rows)
        invariant forall k :: 0 <= k < i ==> rows[k].seenOn == []
      {
        rows := rows[i := rows[i].(seenOn := [])];
      }
    }

    method SortMarks()
      requires forall i :: 0 <= i < |rows| ==> Distinct(rows[i].seenOn)
      modifies this
      ensures SameButMarks(old(rows), rows)
      ensures forall i :: 0 <= i < |rows| && Candidate(rows[i]) ==>
                            Ascending(rows[i].seenOn) && forall n :: n in rows[i].seenOn <==> n in old(rows)[i].seenOn
      ensures forall i :: 0 <= i < |rows| && !Candidate(rows[i]) ==> rows[i] == old(rows)[i]
    {
      for i := 0 to |rows|
        invariant SameButMarks(old(rows), rows)
        invariant forall k :: 0 <= k < i && Candidate(rows[k]) ==>
                                Ascending(rows[k].seenOn)
                                && forall n :: n in rows[k].seenOn <==> n in old(rows)[k].seenOn
        invariant forall k :: 0 <= k < |rows| && (k >= i || !Candidate(rows[k])) ==> rows[k] == old(rows)[k]
      {
        if Candidate(rows[i]) {
          SortIsAscending(rows[i].seenOn);
          rows := rows[i := rows[i].(seenOn := Sort(rows[i].seenOn))];
        }
      }
    }
  }

  /** What a scan did to the cache, for whole runs of scans. */
  datatype Scan = Scan(before: set<Oid>, named: iset<Oid>, listed: seq<Oid>, failed: bool, after: set<Oid>)

  /** Of the trees asked for, those that were listed: a failure is the last one's. */
  function Got(listed: seq<Oid>, failed: bool): seq<Oid> {
    if failed && listed != [] then listed[..|listed|-1] else listed
  }

  function Fetched(scan: Scan): seq<Oid> {
    Got(scan.listed, scan.failed)
  }

  predicate AllListed(list: Oid -> Option<TreeEntries>, got: seq<Oid>) {
    forall t :: t in got ==> list(t).Some?
  }

  /** No tree twice, none already held, all named; what was fetched is held afterwards. */
  ghost predicate FairScan(scan: Scan) {
    && (forall i, j :: 0 <= i < j < |scan.listed| ==> scan.listed[i] != scan.listed[j])
    && (forall t :: t in scan.listed ==> t in scan.named && t !in scan.before)
    && (forall t :: t in scan.after <==> (t in scan.before && t in scan.named) || t in Fetched(scan))
  }

  class SeenCache {
    var trees: map<Oid, TreeEntries>

    constructor ()
      ensures trees == map[]
    {
      trees := map[];
    }

    /** What stays is what the records name. */
    method Prune(ledger: Ledger)
      modifies this
      ensures forall t :: t in trees <==> t in old(trees) && NamesTree(ledger, t)
      ensures forall t :: t in trees ==> trees[t] == old(trees)[t]
    {
      trees := map t | t in trees && NamesTree(ledger, t) :: trees[t];
    }

    /** Fetch what record `r` reads, unless the cache holds it or no row needs it. */
    method Fetch(rows: seq<Row>, ledger: Ledger, r: nat, list: Oid -> Option<TreeEntries>, listed: seq<Oid>,
                 ghost listing: Oid -> TreeEntries, ghost before: set<Oid>)
      returns (failed: bool, more: seq<Oid>)
      requires forall t :: NamesTree(ledger, t) && t !in trees && list(t).Some? ==> list(t).value == listing(t)
      requires r < |Records(ledger)| && ledger.seenBranch != Some(Records(ledger)[r].0)
      requires Fetching(trees, rows, ledger, listing, r, before, listed) && AllListed(list, listed)
      modifies this
      ensures !failed ==> Fetching(trees, rows, ledger, listing, r + 1, before, more)
      ensures old(trees).Keys <= trees.Keys && AllListed(list, Got(more, failed))
      ensures failed ==> FetchFailed(trees, rows, ledger, listing, before, more) && list(more[|more|-1]).None?
    {
      var record := Records(ledger)[r].1;
      if NeedsTree(rows, record) && record.seenTree.Some? && record.seenTree.value !in trees {
        var t := record.seenTree.value;
        var entries := list(t);
        more := listed + [t];
        ListingOne(trees, rows, ledger, listing, r, before, listed);
        if entries.None? {
          return true, more;
        }
        trees := trees[t := entries.value];
        return false, more;
      }
      NothingToList(trees, rows, ledger, listing, r, before, listed);
      return false, listed;
    }

    /**
     Mark every row a record already accepted. `list` lists one tree or fails; on a failure
     every mark is taken back. The marks are those of the trees as the cache holds them, and
     as `list` gives them where it does not.
     */
    method Mark(pile: Pile, ledger: Ledger, filemode: bool, list: Oid -> Option<TreeEntries>)
      returns (failed: bool, listed: seq<Oid>)
      modifies this, pile
      ensures Faithful(trees, View(old(trees), list)) && SameButMarks(old(pile.rows), pile.rows)
      ensures !failed ==> forall i :: 0 <= i < |pile.rows| ==>
                                        RightlyMarked(ledger, View(old(trees), list), filemode, pile.rows[i])
      ensures failed ==> forall i :: 0 <= i < |pile.rows| ==> pile.rows[i].seenOn == []
      ensures FairScan(Scan(old(trees).Keys, Named(ledger), listed, failed, trees.Keys))
      ensures failed ==> listed != [] && list(listed[|listed|-1]).None?
      ensures AllListed(list, Got(listed, failed))
      // What is listed is what some row reads and the cache did not hold.
      ensures forall t :: t in listed ==> Reads(ledger, old(pile.rows), |Records(ledger)|, t)
      ensures !failed ==> forall t :: Reads(ledger, old(pile.rows), |Records(ledger)|, t) ==> t in trees
    {
      ghost var rows, before, listing := pile.rows, trees.Keys, View(trees, list);
      Prune(ledger);
      pile.ClearMarks();
      failed, listed := false, [];
      if exists i :: 0 <= i < |pile.rows| && Candidate(pile.rows[i]) {
        SameRowsSameReads(rows, pile.rows, ledger);
        failed, listed := MarkRecords(pile, ledger, filemode, list, listing, before);
      } else {
        NobodyReads(rows, ledger);
      }
    }

    /** Every record in turn, then each row's names in order; on a failure every mark is taken back. */
    method MarkRecords(pile: Pile, ledger: Ledger, filemode: bool, list: Oid -> Option<TreeEntries>,
                       ghost listing: Oid -> TreeEntries, ghost before: set<Oid>)
      returns (failed: bool, listed: seq<Oid>)
      requires forall t :: NamesTree(ledger, t) && t !in trees && list(t).Some? ==> list(t).value == listing(t)
      requires Fetching(trees, pile.rows, ledger, listing, 0, before, [])
      requires MarkedSoFar(pile.rows, ledger, listing, filemode, 0)
      modifies this, pile
      ensures SameButMarks(old(pile.rows), pile.rows)
      ensures !failed ==> Fetching(trees, old(pile.rows), ledger, listing, |Records(ledger)|, before, listed)
      ensures failed ==> FetchFailed(trees, old(pile.rows), ledger, listing, before, listed)
                         && list(listed[|listed|-1]).None?
      ensures AllListed(list, Got(listed, failed))
      ensures !failed ==> forall i :: 0 <= i < |pile.rows| ==>
                                        RightlyMarked(ledger, listing, filemode, pile.rows[i])
      ensures failed ==> forall i :: 0 <= i < |pile.rows| ==> pile.rows[i].seenOn == []
    {
      ghost var rows := pile.rows;
      var records := Records(ledger);
      failed, listed := false, [];
      for r := 0 to |records|
        invariant SameButMarks(rows, pile.rows) && old(trees).Keys <= trees.Keys
        invariant MarkedSoFar(pile.rows, ledger, listing, filemode, r)
        invariant Fetching(trees, rows, ledger, listing, r, before, listed) && AllListed(list, listed)
      {
        if ledger.seenBranch != Some(records[r].0) {
          SameRowsSameReads(rows, pile.rows, ledger);
          failed, listed := Fetch(pile.rows, ledger, r, list, listed, listing, before);
          if failed {
            pile.ClearMarks();
            return;
          }
          MarkRecord(pile, ledger, filemode, r, listing);
        } else {
          RecordInForce(pile.rows, ledger, listing, filemode, r);
        }
      }
      ghost var marked := pile.rows;
      pile.SortMarks();
      forall i | 0 <= i < |pile.rows|
        ensures RightlyMarked(ledger, listing, filemode, pile.rows[i])
      {
        SortedIsRight(marked[i], pile.rows[i], ledger, listing, filemode);
      }
    }

    /** One record against every candidate row. */
    method MarkRecord(pile: Pile, ledger: Ledger, filemode: bool, r: nat, ghost listing: Oid -> TreeEntries)
      requires Faithful(trees, listing) && r < |Records(ledger)|
      requires ledger.seenBranch != Some(Records(ledger)[r].0)
      requires MarkedSoFar(pile.rows, ledger, listing, filemode, r)
      requires forall t :: ReadsAt(ledger, pile.rows, r, t) ==> t in trees
      modifies pile
      ensures SameButMarks(old(pile.rows), pile.rows)
      ensures MarkedSoFar(pile.rows, ledger, listing, filemode, r + 1)
    {
      var (branch, record) := Records(ledger)[r];
      NormExactly(filemode);
      for i := 0 to |pile.rows|
        invariant SameButMarks(old(pile.rows), pile.rows)
        invariant forall k :: 0 <= k < i ==> RowSoFar(pile.rows[k], ledger, listing, filemode, r + 1)
        invariant forall k :: i <= k < |pile.rows| ==> pile.rows[k] == old(pile.rows)[k]
      {
        var row := pile.rows[i];
        assert RowSoFar(row, ledger, listing, filemode, r);
        if Candidate(row) {
          var cur := row.current.value;
          var baseline: Option<(Mode, Oid)> := None;
          if row.path in record.overrides {
            var o := record.overrides[row.path];
            match o.blob {
              case Some(Some(oid)) => baseline := Some((if o.mode.Some? then o.mode.value else Regular, oid));
              case _ =>
            }
          } else if record.seenTree.Some? {
            assert NeedsTree(old(pile.rows), record) by {
              assert old(pile.rows)[i] == row;
            }
            assert ReadsAt(ledger, old(pile.rows), r, record.seenTree.value);
            var tree := trees[record.seenTree.value];
            if row.path in tree {
              baseline := Some(tree[row.path]);
            }
          }
          assert baseline == Accepted(record, listing, row.path);
          var matched := baseline.Some? && baseline.value.1 == cur.1
                         && Norm(filemode, baseline.value.0) == Norm(filemode, cur.0);
          if matched && branch !in row.seenOn {
            pile.rows := pile.rows[i := row.(seenOn := row.seenOn + [branch])];
          }
        }
        OneRecordMore(row, pile.rows[i], ledger, listing, filemode, r);
      }
    }
  }

  /** Before record `r`: what was listed was read by an earlier record, and all those read are held. */
  ghost predicate Fetching(trees: map<Oid, TreeEntries>, rows: seq<Row>, ledger: Ledger, listing: Oid -> TreeEntries,
                           r: nat, before: set<Oid>, listed: seq<Oid>)
    requires r <= |Records(ledger)|
  {
    && Faithful(trees, listing)
    && FairScan(Scan(before, Named(ledger), listed, false, trees.Keys))
    && (forall t :: t in listed ==> Reads(ledger, rows, r, t))
    && (forall t :: Reads(ledger, rows, r, t) ==> t in trees)
  }

  ghost predicate FetchFailed(trees: map<Oid, TreeEntries>, rows: seq<Row>, ledger: Ledger, listing: Oid -> TreeEntries,
                              before: set<Oid>, listed: seq<Oid>)
  {
    && Faithful(trees, listing) && listed != []
    && FairScan(Scan(before, Named(ledger), listed, true, trees.Keys))
    && (forall t :: t in listed ==> Reads(ledger, rows, |Records(ledger)|, t))
  }

  lemma NothingToList(trees: map<Oid, TreeEntries>, rows: seq<Row>, ledger: Ledger, listing: Oid -> TreeEntries,
                      r: nat, before: set<Oid>, listed: seq<Oid>)
    requires r < |Records(ledger)| && Fetching(trees, rows, ledger, listing, r, before, listed)
    requires forall t :: ReadsAt(ledger, rows, r, t) ==> t in trees
    ensures Fetching(trees, rows, ledger, listing, r + 1, before, listed)
  {
    assert forall t :: Reads(ledger, rows, r + 1, t) <==> Reads(ledger, rows, r, t) || ReadsAt(ledger, rows, r, t);
  }

  lemma ListingOne(trees: map<Oid, TreeEntries>, rows: seq<Row>, ledger: Ledger, listing: Oid -> TreeEntries,
                   r: nat, before: set<Oid>, listed: seq<Oid>)
    requires r < |Records(ledger)| && Fetching(trees, rows, ledger, listing, r, before, listed)
    requires var record := Records(ledger)[r].1;
             && ledger.seenBranch != Some(Records(ledger)[r].0)
             && NeedsTree(rows, record) && record.seenTree.Some? && record.seenTree.value !in trees
    ensures var t := Records(ledger)[r].1.seenTree.value;
            && FetchFailed(trees, rows, ledger, listing, before, listed + [t])
            && Fetching(trees[t := listing(t)], rows, ledger, listing, r + 1, before, listed + [t])
  {
    var t := Records(ledger)[r].1.seenTree.value;
    OneReadMore(rows, ledger, r, t);
    FaithfulOneMore(trees, listing, t);
    FairWithOneMore(Scan(before, Named(ledger), listed, false, trees.Keys), t);
    hide Reads, ReadsAt, NeedsTree, NamesTree, FairScan, Faithful, Named;
    assert trees[t := listing(t)].Keys == trees.Keys + {t};
    ListedAre(rows, ledger, r, t, listed);
  }

  lemma ListedAre(rows: seq<Row>, ledger: Ledger, r: nat, t: Oid, listed: seq<Oid>)
    requires r < |Records(ledger)| && Records(ledger)[r].1.seenTree == Some(t)
    requires ledger.seenBranch != Some(Records(ledger)[r].0) && NeedsTree(rows, Records(ledger)[r].1)
    requires forall x :: x in listed ==> Reads(ledger, rows, r, x)
    ensures forall x :: x in listed + [t] ==>
      Reads(ledger, rows, r + 1, x) && Reads(ledger, rows, |Records(ledger)|, x)
  {
    OneReadMore(rows, ledger, r, t);
    hide Reads, NeedsTree, Named;
    forall x | x in listed + [t]
      ensures Reads(ledger, rows, r + 1, x) && Reads(ledger, rows, |Records(ledger)|, x)
    {
      assert Reads(ledger, rows, r + 1, x) <==> Reads(ledger, rows, r, x) || x == t;
    }
  }

  /** Record `r` reads its tree and no other, and a tree once read is read by all the records. */
  lemma OneReadMore(rows: seq<Row>, ledger: Ledger, r: nat, t: Oid)
    requires r < |Records(ledger)| && Records(ledger)[r].1.seenTree == Some(t)
    requires ledger.seenBranch != Some(Records(ledger)[r].0) && NeedsTree(rows, Records(ledger)[r].1)
    ensures forall x :: Reads(ledger, rows, r + 1, x) <==> Reads(ledger, rows, r, x) || x == t
    ensures forall x :: Reads(ledger, rows, r + 1, x) ==> Reads(ledger, rows, |Records(ledger)|, x)
    ensures t in Named(ledger)
  {
    assert ReadsAt(ledger, rows, r, t) && NamesTree(ledger, t);
    assert forall x :: Reads(ledger, rows, r + 1, x) <==> Reads(ledger, rows, r, x) || ReadsAt(ledger, rows, r, x);
  }

  lemma FaithfulOneMore(trees: map<Oid, TreeEntries>, listing: Oid -> TreeEntries, t: Oid)
    requires Faithful(trees, listing)
    ensures Faithful(trees[t := listing(t)], listing)
  {
  }

  lemma FairWithOneMore(scan: Scan, t: Oid)
    requires FairScan(scan) && !scan.failed && t in scan.named && t !in scan.after
    ensures FairScan(scan.(listed := scan.listed + [t], failed := true))
    ensures FairScan(scan.(listed := scan.listed + [t], after := scan.after + {t}))
  {
    assert (scan.listed + [t])[..|scan.listed|] == scan.listed;
  }

  /** Marks change nothing about what the walk reads. */
  lemma SameRowsSameReads(a: seq<Row>, b: seq<Row>, ledger: Ledger)
    requires SameButMarks(a, b)
    ensures forall r: nat, t :: r <= |Records(ledger)| ==> (Reads(ledger, a, r, t) <==> Reads(ledger, b, r, t))
  {
    forall record: Record
      ensures NeedsTree(a, record) <==> NeedsTree(b, record)
    {
      assert forall i :: 0 <= i < |a| ==>
                           (Candidate(a[i]) && a[i].path !in record.overrides <==>
                              Candidate(b[i]) && b[i].path !in record.overrides);
    }
    assert forall k, t :: 0 <= k < |Records(ledger)| ==> (ReadsAt(ledger, a, k, t) <==> ReadsAt(ledger, b, k, t));
  }

  lemma NobodyReads(rows: seq<Row>, ledger: Ledger)
    requires !exists i :: 0 <= i < |rows| && Candidate(rows[i])
    ensures forall t :: !Reads(ledger, rows, |Records(ledger)|, t)
  {
  }

  lemma RecordInForce(rows: seq<Row>, ledger: Ledger, listing: Oid -> TreeEntries, filemode: bool, r: nat)
    requires r < |Records(ledger)| && ledger.seenBranch == Some(Records(ledger)[r].0)
    requires MarkedSoFar(rows, ledger, listing, filemode, r)
    ensures MarkedSoFar(rows, ledger, listing, filemode, r + 1)
    ensures forall t :: Reads(ledger, rows, r + 1, t) <==> Reads(ledger, rows, r, t)
  {
    forall i | 0 <= i < |rows|
      ensures RowSoFar(rows[i], ledger, listing, filemode, r + 1)
    {
      assert RowSoFar(rows[i], ledger, listing, filemode, r);
      OneRecordMore(rows[i], rows[i], ledger, listing, filemode, r);
    }
  }

  /** Each candidate row carries, once each, the names the first `r` records mark it with. */
  ghost predicate MarkedSoFar(rows: seq<Row>, ledger: Ledger, listing: Oid -> TreeEntries, filemode: bool, r: nat)
    requires r <= |Records(ledger)|
  {
    forall i :: 0 <= i < |rows| ==> RowSoFar(rows[i], ledger, listing, filemode, r)
  }

  ghost predicate RowSoFar(row: Row, ledger: Ledger, listing: Oid -> TreeEntries, filemode: bool, r: nat)
    requires r <= |Records(ledger)|
  {
    && Distinct(row.seenOn) && (!Candidate(row) ==> row.seenOn == [])
    && forall n :: n in row.seenOn <==> Candidate(row) && MarkedBy(ledger, listing, filemode, row, r, n)
  }

  lemma SortedIsRight(marked: Row, sorted: Row, ledger: Ledger, listing: Oid -> TreeEntries, filemode: bool)
    requires RowSoFar(marked, ledger, listing, filemode, |Records(ledger)|)
    requires sorted == marked.(seenOn := sorted.seenOn)
    requires if Candidate(marked) then
               Ascending(sorted.seenOn) && forall n :: n in sorted.seenOn <==> n in marked.seenOn
             else sorted == marked
    ensures RightlyMarked(ledger, listing, filemode, sorted)
  {
    forall n
      ensures MarkedBy(ledger, listing, filemode, sorted, |Records(ledger)|, n)
         <==> AcceptedElsewhere(ledger, listing, filemode, sorted, n)
    {
      MarkedExactly(ledger, listing, filemode, sorted, n);
    }
    assert forall k, n :: 0 <= k < |Records(ledger)| ==>
      (Marks(ledger, listing, filemode, marked, k, n) <==> Marks(ledger, listing, filemode, sorted, k, n));
  }

  lemma OneRecordMore(before: Row, after: Row, ledger: Ledger, listing: Oid -> TreeEntries, filemode: bool, r: nat)
    requires r < |Records(ledger)| && RowSoFar(before, ledger, listing, filemode, r)
    requires after == before.(seenOn := after.seenOn)
    requires var name := Records(ledger)[r].0;
             after.seenOn == if Candidate(before) && Marks(ledger, listing, filemode, before, r, name)
                                && name !in before.seenOn
                             then before.seenOn + [name] else before.seenOn
    ensures RowSoFar(after, ledger, listing, filemode, r + 1)
  {
    var name := Records(ledger)[r].0;
    forall n
      ensures MarkedBy(ledger, listing, filemode, after, r + 1, n)
              <==> MarkedBy(ledger, listing, filemode, before, r, n)
                   || Marks(ledger, listing, filemode, before, r, n)
    {
      assert forall k :: 0 <= k < |Records(ledger)| ==>
        (Marks(ledger, listing, filemode, after, k, n) <==> Marks(ledger, listing, filemode, before, k, n));
    }
  }
}
