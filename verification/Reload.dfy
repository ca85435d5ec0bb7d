/**
 Adopting a ledger another process wrote (`RootState::reload_ledger_if_changed`). The file
 is looked at twice with no lock, once for its identity and once for its content, and other
 processes may replace it, or move it aside, before, between and after.
 */
module Reload {
  import opened Prelude

  type Tree = nat
  type Path = nat
  type Listing = map<Path, nat>

  /** Everything in a ledger but the seen tree is `rest`. */
  datatype Record = Record(seenTree: Option<Tree>, rest: nat)

  /** A ledger file: its identity, and its record unless it does not parse. */
  datatype File = File(stamp: nat, content: Option<Record>)

  /** `ledger.json` at each moment so far. */
  type History = seq<Option<File>>

  function StampAt(h: History, i: nat): Option<nat>
    requires i < |h|
  {
    if h[i].None? then None else Some(h[i].value.stamp)
  }

  /** A stat of the ledger at moment `i`: one that fails answers what a missing file does. */
  function Stat(h: History, i: nat, ok: bool): Option<nat>
    requires i < |h|
  {
    if ok then StampAt(h, i) else None
  }

  /**
   How the file system and the store answer one reload: the stat and the read may fail, the
   store may lack the tree by now or fail to list it.
   */
  datatype Answers = Answers(stats: bool, readable: bool, present: bool, lists: bool)

  /**
   Writes are renames: a moment either keeps the file, has none, or has a file of an
   identity never seen before.
   */
  ghost predicate Atomic(h: History) {
    forall i, j :: 0 <= i < j < |h| && h[i].Some? && h[j].Some? && h[i].value.stamp == h[j].value.stamp ==>
                     h[i] == h[j] && forall k :: i <= k <= j ==> h[k] == h[i]
  }

  /** What memory may hold for a file's record: it, or it with the seen tree dropped. */
  predicate Adopted(memory: Record, file: Record) {
    memory == file || memory == file.(seenTree := None)
  }

  /** The seen tree in memory after a ledger that names `file` is taken where `memory` was. */
  predicate SeenTreeAfter(after: Option<Tree>, memory: Option<Tree>, file: Option<Tree>, canBeHad: bool) {
    if file.None? || file == memory || canBeHad then after == file else after.None?
  }

  /** The store: trees are content-addressed, so a tree always lists the same. */
  class Store {
    const listing: Tree -> Listing

    constructor (listing: Tree -> Listing)
      ensures this.listing == listing
    {
      this.listing := listing;
    }
  }

  function Listed(store: Store, tree: Option<Tree>): Listing {
    if tree.None? then map[] else store.listing(tree.value)
  }

  class RootState {
    const store: Store
    var ledger: Record
    var tree: Listing
    var ledgerStamp: Option<nat>

    constructor (store: Store, ledger: Record)
      ensures this.store == store && this.ledger == ledger && ledgerStamp == None
      ensures tree == Listed(store, ledger.seenTree)
    {
      this.store := store;
      this.ledger := ledger;
      this.tree := Listed(store, ledger.seenTree);
      this.ledgerStamp := None;
    }

    /** The cached tree is the listing of the seen tree in memory. */
    predicate TreeMatches()
      reads this
    {
      tree == Listed(store, ledger.seenTree)
    }

    /** The stored stamp is one a file has had, by moment `now`. */
    ghost predicate StampKnown(h: History, now: nat)
      reads this
      requires now < |h|
    {
      ledgerStamp.Some? ==> exists i: nat :: i <= now && StampAt(h, i) == ledgerStamp
    }

    /** A stored stamp equal to the file's means memory holds that file's record. */
    predicate StampTells(h: History, now: nat)
      reads this
      requires now < |h|
    {
      h[now].Some? && ledgerStamp == Some(h[now].value.stamp) ==>
        h[now].value.content.Some? && Adopted(ledger, h[now].value.content.value)
    }

    ghost predicate Inv(h: History, now: nat)
      reads this
    {
      && now < |h| && Atomic(h)
      && TreeMatches() && StampKnown(h, now) && StampTells(h, now)
    }

    /** Time passing changes nothing: whatever others write carries a stamp never stored here. */
    lemma TimePasses(h: History, now: nat, later: nat)
      requires Inv(h, now) && now <= later < |h|
      ensures Inv(h, later)
    {
      if h[later].Some? && ledgerStamp == Some(h[later].value.stamp) {
        var i: nat :| i <= now && StampAt(h, i) == ledgerStamp;
        assert h[i].value.stamp == h[later].value.stamp;
        if i < later {
          assert h[i] == h[later] && h[now] == h[i];
        }
      }
    }

    /**
     One reload: the stamp is taken at moment `i`, the bytes are read at moment `j`. A stamp
     that could not be taken makes the reload read, and leaves no stamp stored.
     */
    method ReloadLedgerIfChanged(h: History, i: nat, j: nat, f: Answers)
      requires i <= j < |h| && Inv(h, i)
      modifies this
      ensures Inv(h, j)
      // Whatever came between the two looks, what was read is adopted whole, but for a seen tree
      // that is not the one in memory and cannot be had: that one is dropped.
      ensures var took := old(ledgerStamp) != Stat(h, i, f.stats) && f.readable
                          && h[j].Some? && h[j].value.content.Some?;
              if took then
                && ledgerStamp == Stat(h, i, f.stats)
                && ledger.rest == h[j].value.content.value.rest
                && SeenTreeAfter(ledger.seenTree, old(ledger.seenTree), h[j].value.content.value.seenTree,
                                 f.present && f.lists)
              else unchanged(this)
    {
      TimePasses(h, i, j);
      var now := Stat(h, i, f.stats);
      if now == ledgerStamp {
        return;
      }
      if !f.readable || h[j].None? {
        return;
      }
      if h[j].value.content.None? {
        return;
      }
      var adopted := h[j].value.content.value;
      ledgerStamp := now;
      if adopted.seenTree != ledger.seenTree {
        match adopted.seenTree {
          case Some(t) =>
            if f.present && f.lists {
              tree := store.listing(t);
            } else {
              adopted := adopted.(seenTree := None);
              tree := map[];
            }
          case None =>
            tree := map[];
        }
      }
      ledger := adopted;
      StampStored(h, i, j, f.stats);
    }

    /** The stamp is stored over content read later, and still tells the truth. */
    lemma StampStored(h: History, i: nat, j: nat, stats: bool)
      requires i <= j < |h| && Atomic(h) && TreeMatches()
      requires ledgerStamp == Stat(h, i, stats)
      requires h[j].Some? && h[j].value.content.Some? && Adopted(ledger, h[j].value.content.value)
      ensures Inv(h, j)
    {
      assert stats ==> StampAt(h, i) == ledgerStamp;
    }

    /**
     Any number of reloads at any moments, with any writes between them: `looks[k]` holds
     the two moments of the k-th reload, in order.
     */
    method ReloadMany(h: History, looks: seq<(nat, nat)>, answers: seq<Answers>)
      requires Inv(h, 0) && |looks| == |answers|
      requires forall k :: 0 <= k < |looks| ==> looks[k].0 <= looks[k].1 < |h|
      requires forall k, l :: 0 <= k < l < |looks| ==> looks[k].1 <= looks[l].0
      modifies this
      ensures Inv(h, |h| - 1)
      ensures forall now :: (if |looks| == 0 then 0 else looks[|looks|-1].1) <= now < |h| ==> StampTells(h, now)
    {
      var now := 0;
      for k := 0 to |looks|
        invariant now == (if k == 0 then 0 else looks[k-1].1) && Inv(h, now)
      {
        TimePasses(h, now, looks[k].0);
        ReloadLedgerIfChanged(h, looks[k].0, looks[k].1, answers[k]);
        now := looks[k].1;
      }
      forall later | now <= later < |h|
        ensures StampTells(h, later)
      {
        TimePasses(h, now, later);
      }
      TimePasses(h, now, |h| - 1);
    }
  }
}
