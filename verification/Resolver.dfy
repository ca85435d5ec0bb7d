/**
 Baselines for one scan (`BaselineResolver`): the objects all candidate paths could need are
 looked up in one batch, and each path is then answered from the batch.
 */
module Resolver {
  import opened Prelude
  import opened StoreTypes

  datatype Baseline = Present(oid: Oid, mode: Mode) | Absent | Empty

  datatype Notice = OverrideMissing(oid: Oid, path: Path) | TreeMissing(oid: Oid, path: Path)

  /** `None` is an object the store lacks; of one it holds, the size may not be known. */
  type Store = Oid -> Option<Option<nat>>

  // ---------------------------------------------------------------------------------------
  // One path at a time, each object looked up on its own
  // ---------------------------------------------------------------------------------------

  /** What the record's own overrides say of a path: an object, absence, or nothing about its content. */
  datatype Word = Named(oid: Oid, mode: Mode) | Gone | Silent

  ghost function WordOn(overrides: Overrides, path: Path): Word {
    if path !in overrides then Silent
    else
      match overrides[path]
      case Override(Some(Some(oid)), Some(mode)) => Named(oid, mode)
      case Override(Some(Some(oid)), None) => Named(oid, Regular)
      case Override(Some(None), _) => Gone
      case Override(None, _) => Silent
  }

  ghost predicate InTree(tree: TreeEntries, store: Store, path: Path) {
    path in tree && store(tree[path].1).Some?
  }

  /** The rules tried in turn: a rule whose object is missing does not apply. */
  ghost function Direct(overrides: Overrides, tree: TreeEntries, store: Store, path: Path): Baseline {
    var word := WordOn(overrides, path);
    if word.Named? && store(word.oid).Some? then Present(word.oid, word.mode)
    else if word.Gone? then Absent
    else if InTree(tree, store, path) then Present(tree[path].1, tree[path].0)
    else Empty
  }

  /** What is said about the objects that are missing on the way. */
  ghost function DirectNotices(overrides: Overrides, tree: TreeEntries, store: Store, path: Path): seq<Notice> {
    match WordOn(overrides, path)
    case Gone => []
    case Silent => TreeNotice(tree, store, path)
    case Named(oid, _) =>
      if store(oid).Some? then [] else [OverrideMissing(oid, path)] + TreeNotice(tree, store, path)
  }

  ghost function TreeNotice(tree: TreeEntries, store: Store, path: Path): seq<Notice> {
    if path in tree && !InTree(tree, store, path) then [TreeMissing(tree[path].1, path)] else []
  }

  // ---------------------------------------------------------------------------------------
  // The batch
  // ---------------------------------------------------------------------------------------

  function OverrideBlob(overrides: Overrides, path: Path): Option<Oid> {
    if path in overrides && overrides[path].blob.Some? then overrides[path].blob.value else None
  }

  predicate SeenAbsent(overrides: Overrides, path: Path) {
    path in overrides && overrides[path].blob == Some(None)
  }

  function Insert(o: Oid, sorted: seq<Oid>): seq<Oid> {
    if sorted == [] || o < sorted[0] then [o] + sorted
    else if o == sorted[0] then sorted
    else [sorted[0]] + Insert(o, sorted[1..])
  }

  /** `sort` then `dedup`. */
  function SortDedup(s: seq<Oid>): seq<Oid> {
    if s == [] then [] else Insert(s[0], SortDedup(s[1..]))
  }

  predicate Ascending(s: seq<Oid>) {
    forall i, j :: 0 <= i < j < |s| ==> s[i] < s[j]
  }

  lemma {:induction false} InsertIn(o: Oid, sorted: seq<Oid>)
    requires Ascending(sorted)
    ensures Ascending(Insert(o, sorted))
    ensures forall x :: x in Insert(o, sorted) <==> x == o || x in sorted
  {
    if sorted != [] && o > sorted[0] {
      InsertIn(o, sorted[1..]);
      assert sorted == [sorted[0]] + sorted[1..];
    }
  }

  lemma {:induction false} SortDedupSame(s: seq<Oid>)
    ensures Ascending(SortDedup(s))
    ensures forall x :: x in SortDedup(s) <==> x in s
  {
    if s != [] {
      SortDedupSame(s[1..]);
      InsertIn(s[0], SortDedup(s[1..]));
      assert s == [s[0]] + s[1..];
    }
  }

  /** The object is one that answering `path` can ask for. */
  ghost predicate Asks(overrides: Overrides, tree: TreeEntries, path: Path, o: Oid) {
    (path in overrides && overrides[path].blob == Some(Some(o))) || (path in tree && tree[path].1 == o)
  }

  /** A batch lookup answers each object as it would alone, in order. */
  ghost predicate AnswersInOrder(sizes: seq<Oid> -> seq<Option<Option<nat>>>, store: Store) {
    forall want: seq<Oid> :: |sizes(want)| == |want| && forall i :: 0 <= i < |want| ==> sizes(want)[i] == store(want[i])
  }

  /** The batch's table holds what the store holds, of what it asked for. */
  ghost predicate Agrees(present: map<Oid, Option<nat>>, store: Store, asked: set<Oid>) {
    forall o :: o in present <==> o in asked && store(o).Some?
  }

  /** Every object the paths can ask for, in order and once each. */
  method Wanted(overrides: Overrides, tree: TreeEntries, paths: seq<Path>) returns (want: seq<Oid>)
    ensures Ascending(want)
    ensures forall o :: o in want <==> exists p :: p in paths && Asks(overrides, tree, p, o)
  {
    want := [];
    for i := 0 to |paths|
      invariant forall o :: o in want <==> exists p :: p in paths[..i] && Asks(overrides, tree, p, o)
    {
      var p := paths[i];
      ghost var before := want;
      assert paths[..i + 1] == paths[..i] + [p];
      var blob := OverrideBlob(overrides, p);
      if blob.Some? {
        want := want + [blob.value];
      }
      if p in tree {
        want := want + [tree[p].1];
      }
      assert forall o :: o in want <==> o in before || Asks(overrides, tree, p, o);
    }
    assert paths[..|paths|] == paths;
    SortDedupSame(want);
    want := SortDedup(want);
  }

  /** The objects the batch found: each answer beside what was asked. */
  method Found(want: seq<Oid>, answers: seq<Option<Option<nat>>>, ghost store: Store)
    returns (table: map<Oid, Option<nat>>)
    requires |answers| == |want| && forall i :: 0 <= i < |want| ==> answers[i] == store(want[i])
    ensures forall o :: o in table <==> o in want && store(o).Some?
    ensures forall o :: o in table ==> store(o) == Some(table[o])
  {
    table := map[];
    for k := 0 to |want|
      invariant forall o :: o in table <==> o in want[..k] && store(o).Some?
      invariant forall o :: o in table ==> store(o) == Some(table[o])
    {
      assert want[..k + 1] == want[..k] + [want[k]];
      if answers[k].Some? {
        table := table[want[k] := answers[k].value];
      }
    }
    assert want[..|want|] == want;
  }

  class BaselineResolver {
    const overrides: Overrides
    const tree: TreeEntries
    var present: map<Oid, Option<nat>>
    var notices: seq<Notice>
    ghost const store: Store
    ghost const asked: set<Oid>

    ghost predicate Valid()
      reads this
    {
      Agrees(present, store, asked)
      && forall o :: o in present ==> store(o) == Some(present[o])
    }

    /** Every object the path can need was in the batch. */
    ghost predicate Covers(path: Path) {
      forall o :: Asks(overrides, tree, path, o) ==> o in asked
    }

    constructor (overrides: Overrides, tree: TreeEntries, sizes: seq<Oid> -> seq<Option<Option<nat>>>,
                 paths: seq<Path>, ghost store: Store)
      requires AnswersInOrder(sizes, store)
      ensures this.overrides == overrides && this.tree == tree && this.store == store
      ensures Valid() && notices == []
      ensures forall p :: p in paths ==> Covers(p)
    {
      var want := Wanted(overrides, tree, paths);
      var table := Found(want, sizes(want), store);
      this.overrides := overrides;
      this.tree := tree;
      this.present := table;
      this.notices := [];
      this.store := store;
      this.asked := set o | o in want;
    }

    /** The baseline of one path, answered from the batch. */
    method Baseline(path: Path) returns (b: Baseline)
      requires Valid()
      modifies this`notices
      ensures Valid()
      ensures Covers(path) ==>
                b == Direct(overrides, tree, store, path)
                && notices == old(notices) + DirectNotices(overrides, tree, store, path)
      // Whatever path is asked for, an object named is one the store holds.
      ensures b.Present? ==> store(b.oid).Some?
    {
      var blob := OverrideBlob(overrides, path);
      if blob.Some? {
        assert Asks(overrides, tree, path, blob.value);
        if blob.value in present {
          return Present(blob.value, if overrides[path].mode.Some? then overrides[path].mode.value else Regular);
        }
        notices := notices + [OverrideMissing(blob.value, path)];
      } else if SeenAbsent(overrides, path) {
        return Absent;
      }
      if path in tree {
        var o := tree[path].1;
        assert Asks(overrides, tree, path, o);
        if o in present {
          return Present(o, tree[path].0);
        }
        notices := notices + [TreeMissing(o, path)];
      }
      return Empty;
    }

    /** What the batch learned of an object's size. */
    method SizeOf(o: Oid) returns (size: Option<nat>)
      requires Valid()
      ensures size == if o in asked && store(o).Some? then store(o).value else None
    {
      return if o in present then present[o] else None;
    }
  }

  /** A whole scan: the batch, then every candidate path, against each path on its own. */
  method ResolveAll(overrides: Overrides, tree: TreeEntries, sizes: seq<Oid> -> seq<Option<Option<nat>>>,
                    paths: seq<Path>, ghost store: Store)
    returns (baselines: seq<Baseline>, notices: seq<Notice>)
    requires AnswersInOrder(sizes, store)
    ensures |baselines| == |paths|
    ensures forall i :: 0 <= i < |paths| ==> baselines[i] == Direct(overrides, tree, store, paths[i])
    ensures notices == AllNotices(overrides, tree, store, paths)
  {
    hide Direct, DirectNotices, Agrees, AllNotices;
    NoNotices(overrides, tree, store);
    assert paths[..0] == [];
    var resolver := new BaselineResolver(overrides, tree, sizes, paths, store);
    baselines := [];
    for i := 0 to |paths|
      invariant fresh(resolver) && resolver.Valid()
      invariant |baselines| == i
      invariant forall k :: 0 <= k < i ==> baselines[k] == Direct(overrides, tree, store, paths[k])
      invariant resolver.notices == AllNotices(overrides, tree, store, paths[..i])
    {
      assert paths[i] in paths;
      NoticesStep(overrides, tree, store, paths, i);
      var b := resolver.Baseline(paths[i]);
      baselines := baselines + [b];
    }
    assert paths[..|paths|] == paths;
    notices := resolver.notices;
  }

  lemma NoNotices(overrides: Overrides, tree: TreeEntries, store: Store)
    ensures AllNotices(overrides, tree, store, []) == []
  {
  }

  lemma NoticesStep(overrides: Overrides, tree: TreeEntries, store: Store, paths: seq<Path>, i: nat)
    requires i < |paths|
    ensures AllNotices(overrides, tree, store, paths[..i+1])
         == AllNotices(overrides, tree, store, paths[..i]) + DirectNotices(overrides, tree, store, paths[i])
  {
    assert paths[..i+1][..i] == paths[..i];
  }

  ghost function AllNotices(overrides: Overrides, tree: TreeEntries, store: Store, paths: seq<Path>): seq<Notice> {
    if paths == [] then []
    else AllNotices(overrides, tree, store, paths[..|paths|-1])
         + DirectNotices(overrides, tree, store, paths[|paths|-1])
  }
}
