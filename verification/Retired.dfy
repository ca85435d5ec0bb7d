/** Retired branch records and the undo stack: how long each is kept. */
module Retired {
  import opened Prelude
  import opened Order
  import opened Iso8601

  const RETIRED_CAP: nat := 20
  const RETIRED_DAYS: nat := 30
  const UNDO_CAP: nat := 20

  type Name = Bytes

  /** What a retired record keeps for matching is `content`. */
  datatype Record = Record(retiredAt: Bytes, content: nat)

  type Records = map<Name, Record>

  /** The instant a record is ordered by: 1970 when its text is not a date. */
  function StampOf(r: Record): int {
    match ParseIso(r.retiredAt)
    case Some(t) => t
    case None => 0
  }

  /** The order of eviction: by stamp, ties by name. */
  predicate Older(m: Records, a: Name, b: Name)
    requires a in m && b in m
  {
    StampOf(m[a]) < StampOf(m[b]) || (StampOf(m[a]) == StampOf(m[b]) && Less(a, b))
  }

  ghost predicate Oldest(m: Records, n: Name) {
    n in m && forall k :: k in m && k != n ==> Older(m, n, k)
  }

  lemma OldestIsUnique(m: Records, a: Name, b: Name)
    requires Oldest(m, a) && Oldest(m, b)
    ensures a == b
  {
    hide ParseIso;
    if a != b {
      assert Older(m, a, b) && Older(m, b, a);
      LessIrreflexive(a);
      LessTransitive(a, b, a);
    }
  }

  method FindOldest(m: Records) returns (oldest: Name)
    requires |m| > 0
    ensures Oldest(m, oldest)
  {
    var left := m.Keys;
    oldest :| oldest in left;
    left := left - {oldest};
    while left != {}
      invariant left <= m.Keys && oldest in m && oldest !in left
      invariant forall k :: k in m && k !in left && k != oldest ==> Older(m, oldest, k)
      decreases left
    {
      var k :| k in left;
      left := left - {k};
      LessTotal(k, oldest);
      if Older(m, k, oldest) {
        forall j | j in m && j !in left && j != k
          ensures Older(m, k, j)
        {
          if j != oldest && Less(k, oldest) && Less(oldest, j) {
            LessTransitive(k, oldest, j);
          }
        }
        oldest := k;
      }
    }
  }

  // ---------------------------------------------------------------------------------------
  // The two operations, as functions of the records
  // ---------------------------------------------------------------------------------------

  lemma OldestExists(m: Records)
    requires |m| > 0
    ensures exists n :: Oldest(m, n)
  {
    hide ParseIso;
    assert m.Keys != {};
    var n := OldestAmong(m, m.Keys);
    assert Oldest(m, n);
  }

  lemma {:induction false} OldestAmong(m: Records, keys: set<Name>) returns (n: Name)
    requires keys <= m.Keys && keys != {}
    ensures n in keys && forall k :: k in keys && k != n ==> Older(m, n, k)
    decreases keys
  {
    hide ParseIso;
    var x :| x in keys;
    if keys == {x} {
      return x;
    }
    var y := OldestAmong(m, keys - {x});
    LessTotal(x, y);
    if Older(m, x, y) {
      forall k | k in keys && k != x
        ensures Older(m, x, k)
      {
        if k != y {
          assert k in keys - {x} && Older(m, y, k);
          if Less(x, y) && Less(y, k) {
            LessTransitive(x, y, k);
          }
        }
      }
      return x;
    }
    return y;
  }

  /** Drop the oldest until the cap holds. */
  ghost function Evicted(m: Records): (r: Records)
    ensures |r| <= RETIRED_CAP
    decreases |m|
  {
    if |m| <= RETIRED_CAP then m
    else
      OldestExists(m);
      var n :| Oldest(m, n);
      assert (m - {n}).Keys == m.Keys - {n};
      Evicted(m - {n})
  }

  /** What is kept is the youngest records, unchanged: as many as the cap lets stay. */
  lemma {:induction false} EvictedAreOldest(m: Records)
    ensures |Evicted(m)| == Min(|m|, RETIRED_CAP)
    ensures forall n :: n in Evicted(m) ==> n in m && Evicted(m)[n] == m[n]
    ensures forall kept, gone :: kept in Evicted(m) && gone in m && gone !in Evicted(m) ==> Older(m, gone, kept)
    decreases |m|
  {
    hide Older, Oldest;
    if |m| > RETIRED_CAP {
      OldestExists(m);
      var o :| Oldest(m, o) && Evicted(m) == Evicted(m - {o});
      assert o in m by {
        OldestIsOlder(m, o, o);
      }
      assert (m - {o}).Keys == m.Keys - {o};
      EvictedAreOldest(m - {o});
      forall kept, gone | kept in Evicted(m) && gone in m && gone !in Evicted(m)
        ensures Older(m, gone, kept)
      {
        if gone == o {
          OldestIsOlder(m, o, kept);
        } else {
          OlderInMore(m, o, gone, kept);
        }
      }
    }
  }

  lemma OldestIsOlder(m: Records, o: Name, k: Name)
    requires Oldest(m, o)
    ensures o in m && (k in m && k != o ==> Older(m, o, k))
  {
    hide Older;
  }

  lemma OlderInMore(m: Records, o: Name, a: Name, b: Name)
    requires a in m && b in m && a != o && b != o && Older(m - {o}, a, b)
    ensures Older(m, a, b)
  {
    hide StampOf, Less;
  }

  ghost function Retire(m: Records, name: Name, record: Record): Records {
    Evicted(m[name := record])
  }

  /** Whether a stamp is still in its window: it parses, it is not ahead, it is not too old. */
  predicate InWindow(stamp: Bytes, now: int) {
    match ParseIso(stamp)
    case Some(t) => 0 <= now - t <= RETIRED_DAYS * DAY * SECOND
    case None => false
  }

  /** Its stamp is the text of some instant, which `now` is thirty days past at most. */
  ghost predicate StillKept(r: Record, now: int) {
    exists t :: ParseIso(r.retiredAt) == Some(t) && t <= now <= t + RETIRED_DAYS * DAY * SECOND
  }

  function Expire(m: Records, now: int): Records {
    map n | n in m && InWindow(m[n].retiredAt, now) :: m[n]
  }

  /** The records `Expire` leaves, one by one: nothing else satisfies what an expiry promises. */
  lemma ExpireExactly(m: Records, now: int, r: Records)
    ensures r == Expire(m, now) <==>
      && (forall n :: n in r <==> n in m && StillKept(m[n], now))
      && (forall n :: n in r ==> r[n] == m[n])
  {
    hide ParseIso;
    var e := Expire(m, now);
    assert forall n :: n in e <==> n in m && StillKept(m[n], now);
    if (forall n :: n in r <==> n in m && StillKept(m[n], now)) && (forall n :: n in r ==> r[n] == m[n]) {
      assert r.Keys == e.Keys;
    }
  }

  class Ledger {
    var retired: Records
    var undo: seq<nat>

    constructor ()
      ensures retired == map[] && undo == []
    {
      retired, undo := map[], [];
    }

    method RetireRecord(name: Name, content: nat, now: int)
      modifies this`retired
      ensures retired == Retire(old(retired), name, Record(Iso(now), content))
    {
      retired := retired[name := Record(Iso(now), content)];
      ghost var goal := Evicted(retired);
      while |retired| > RETIRED_CAP
        invariant Evicted(retired) == goal
        decreases |retired|
      {
        var oldest := FindOldest(retired);
        assert forall n :: Oldest(retired, n) ==> n == oldest by {
          forall n | Oldest(retired, n)
            ensures n == oldest
          {
            OldestIsUnique(retired, n, oldest);
          }
        }
        assert (retired - {oldest}).Keys == retired.Keys - {oldest};
        retired := retired - {oldest};
      }
    }

    method ExpireRetired(now: int)
      modifies this`retired
      ensures forall n :: n in retired <==> n in old(retired) && StillKept(old(retired)[n], now)
      ensures forall n :: n in retired ==> retired[n] == old(retired)[n]
    {
      retired := map n | n in retired && InWindow(retired[n].retiredAt, now) :: retired[n];
    }

    /** At most twenty entries stay, the newest ones. */
    method PushUndo(entry: nat)
      modifies this`undo
      ensures undo == Newest(old(undo) + [entry])
    {
      undo := undo + [entry];
      ghost var all := undo;
      while |undo| > UNDO_CAP
        invariant |undo| <= |all| && undo == all[|all| - |undo|..]
        invariant |all| >= UNDO_CAP ==> |undo| >= UNDO_CAP
        invariant |all| < UNDO_CAP ==> undo == all
      {
        undo := undo[1..];
      }
    }
  }

  function Newest(entries: seq<nat>): seq<nat> {
    if |entries| <= UNDO_CAP then entries else entries[|entries| - UNDO_CAP..]
  }

  // ---------------------------------------------------------------------------------------
  // One call
  // ---------------------------------------------------------------------------------------

  /**
   A retire within the cap drops nothing; at the cap, a new name drops exactly one record,
   the oldest of all (which may be the new one), and no other record changes.
   */
  lemma RetireDropsOldest(m: Records, name: Name, record: Record)
    requires |m| <= RETIRED_CAP
    ensures var added := m[name := record];
            var r := Retire(m, name, record);
            if name in m || |m| < RETIRED_CAP then r == added
            else exists n :: Oldest(added, n) && r == added - {n}
  {
    hide ParseIso;
    var added := m[name := record];
    if name in m {
      assert added.Keys == m.Keys;
    } else {
      assert added.Keys == m.Keys + {name};
      if |m| == RETIRED_CAP {
        EvictOne(added);
      }
    }
  }

  lemma EvictOne(m: Records)
    requires |m| == RETIRED_CAP + 1
    ensures exists n :: Oldest(m, n) && Evicted(m) == m - {n}
  {
    hide ParseIso;
    OldestExists(m);
    var n :| Oldest(m, n) && Evicted(m) == Evicted(m - {n});
    assert n in m.Keys && (m - {n}).Keys == m.Keys - {n};
    assert |m - {n}| == |(m - {n}).Keys| == RETIRED_CAP;
    assert Evicted(m - {n}) == m - {n};
  }

  // ---------------------------------------------------------------------------------------
  // Whole runs
  // ---------------------------------------------------------------------------------------

  datatype Event = Retired(name: Name, record: Record) | Expired(now: int)

  ghost function Apply(m: Records, e: Event): Records {
    match e
    case Retired(name, record) => Retire(m, name, record)
    case Expired(now) => Expire(m, now)
  }

  ghost function Replay(m: Records, run: seq<Event>): Records
    decreases |run|
  {
    if run == [] then m else Replay(Apply(m, run[0]), run[1..])
  }

  /** At most the cap, after any run from a ledger within it. */
  lemma {:induction false} NeverOverCap(m: Records, run: seq<Event>)
    requires |m| <= RETIRED_CAP
    ensures |Replay(m, run)| <= RETIRED_CAP
    decreases |run|
  {
    hide ParseIso;
    if run != [] {
      if run[0].Expired? {
        ExpireShrinks(m, run[0].now);
      }
      NeverOverCap(Apply(m, run[0]), run[1..]);
    }
  }

  lemma {:induction false} FewerKeys(a: set<Name>, b: set<Name>)
    requires a <= b
    ensures |a| <= |b|
    decreases a
  {
    hide ParseIso;
    if a != {} {
      var x :| x in a;
      FewerKeys(a - {x}, b - {x});
    }
  }

  lemma ExpireShrinks(m: Records, now: int)
    ensures |Expire(m, now)| <= |m|
  {
    FewerKeys(Expire(m, now).Keys, m.Keys);
  }

  /** Event `k` of the run evicts `n`. */
  ghost predicate Evicts(m: Records, run: seq<Event>, k: nat, n: Name)
    requires k < |run|
  {
    var before := Replay(m, run[..k]);
    run[k].Retired? && n in before && n !in Apply(before, run[k])
  }

  /** Whether a record comes through every expiry of the run. */
  predicate OutlivesExpiries(stamp: Bytes, run: seq<Event>) {
    forall k :: 0 <= k < |run| && run[k].Expired? ==> InWindow(stamp, run[k].now)
  }

  lemma {:induction false} EvictedKeepsRest(m: Records, n: Name)
    ensures n in Evicted(m) ==> n in m && Evicted(m)[n] == m[n]
    decreases |m|
  {
    hide ParseIso;
    if |m| > RETIRED_CAP {
      OldestExists(m);
      var o :| Oldest(m, o) && Evicted(m) == Evicted(m - {o});
      assert (m - {o}).Keys == m.Keys - {o};
      EvictedKeepsRest(m - {o}, n);
    }
  }

  /**
   A record that is neither evicted nor replaced is there at the end of a run, unchanged,
   exactly when it outlives every expiry of the run.
   */
  lemma {:induction false} KeptExactly(m: Records, run: seq<Event>, n: Name)
    requires n in m
    requires forall k :: 0 <= k < |run| ==> !(run[k].Retired? && run[k].name == n)
    requires forall k :: 0 <= k < |run| ==> !Evicts(m, run, k, n)
    ensures n in Replay(m, run) <==> OutlivesExpiries(m[n].retiredAt, run)
    ensures n in Replay(m, run) ==> Replay(m, run)[n] == m[n]
    decreases |run|
  {
    hide ParseIso;
    if run != [] {
      var next := Apply(m, run[0]);
      assert run[..0] == [];
      assert !Evicts(m, run, 0, n);
      if run[0].Retired? {
        EvictedKeepsRest(m[run[0].name := run[0].record], n);
      }
      if n in next {
        forall k | 0 <= k < |run| - 1
          ensures !Evicts(next, run[1..], k, n)
        {
          assert run[..k+1][1..] == run[1..][..k];
          assert !Evicts(m, run, k + 1, n);
        }
        assert forall k :: 0 <= k < |run| - 1 ==> run[1..][k] == run[k+1];
        KeptExactly(next, run[1..], n);
        OutlivesHead(m[n].retiredAt, run);
      } else {
        GoneStaysGone(next, run[1..], n);
        OutlivesHead(m[n].retiredAt, run);
      }
    }
  }

  lemma OutlivesHead(stamp: Bytes, run: seq<Event>)
    requires run != []
    ensures OutlivesExpiries(stamp, run)
            <==> (run[0].Expired? ==> InWindow(stamp, run[0].now)) && OutlivesExpiries(stamp, run[1..])
  {
    hide ParseIso;
    if OutlivesExpiries(stamp, run) {
      forall k | 0 <= k < |run[1..]| && run[1..][k].Expired?
        ensures InWindow(stamp, run[1..][k].now)
      {
        assert run[1..][k] == run[k+1];
      }
    }
    if (run[0].Expired? ==> InWindow(stamp, run[0].now)) && OutlivesExpiries(stamp, run[1..]) {
      forall k | 0 <= k < |run| && run[k].Expired?
        ensures InWindow(stamp, run[k].now)
      {
        if k > 0 {
          assert run[k] == run[1..][k-1];
        }
      }
    }
  }

  lemma {:induction false} GoneStaysGone(m: Records, run: seq<Event>, n: Name)
    requires n !in m
    requires forall k :: 0 <= k < |run| ==> !(run[k].Retired? && run[k].name == n)
    ensures n !in Replay(m, run)
    decreases |run|
  {
    hide ParseIso;
    if run != [] {
      if run[0].Retired? {
        EvictedKeepsRest(m[run[0].name := run[0].record], n);
      }
      GoneStaysGone(Apply(m, run[0]), run[1..], n);
    }
  }

  // ---------------------------------------------------------------------------------------
  // The window, through the text of the date
  // ---------------------------------------------------------------------------------------

  /** A record retired at `t` is in its window at `u`: counted from the whole second of `t`. */
  lemma WindowThroughText(t: int, u: int)
    ensures InWindow(Iso(t), u)
            <==> Seconds(t) < YEAR_10000
                 && Seconds(t) * SECOND <= u <= Seconds(t) * SECOND + RETIRED_DAYS * DAY * SECOND
  {
    TextRoundTrip(t);
  }

  /** Eviction goes by the dates as written, to the second; ties go by name. */
  lemma OlderThroughText(m: Records, a: Name, b: Name, t: int, u: int)
    requires a in m && b in m && m[a].retiredAt == Iso(t) && m[b].retiredAt == Iso(u)
    requires Seconds(t) < YEAR_10000 && Seconds(u) < YEAR_10000
    ensures Older(m, a, b) <==> Seconds(t) < Seconds(u) || (Seconds(t) == Seconds(u) && Less(a, b))
  {
    hide ParseIso, Iso, Seconds, Less;
    TextRoundTrip(t);
    TextRoundTrip(u);
  }

  /** A record whose date cannot be read goes before any that was retired after the epoch's first second. */
  lemma UnreadableGoesFirst(m: Records, a: Name, b: Name, u: int)
    requires a in m && b in m && ParseIso(m[a].retiredAt).None? && m[b].retiredAt == Iso(u)
    requires 0 < Seconds(u) < YEAR_10000
    ensures Older(m, a, b)
  {
    hide ParseIso, Iso, Seconds, Less;
    TextRoundTrip(u);
  }

  /**
   So "retired at t, kept from t to t plus thirty days" is what happens at every instant
   exactly when `t` is a whole second from 1970 through the year 9999.
   */
  lemma ThirtyDaysExactly(t: int)
    ensures (forall u :: InWindow(Iso(t), u) <==> t <= u <= t + RETIRED_DAYS * DAY * SECOND)
            <==> t >= 0 && t % SECOND == 0 && Seconds(t) < YEAR_10000
  {
    WindowThroughText(t, t);
    WindowThroughText(t, Seconds(t) * SECOND);
    forall u
      ensures t >= 0 && t % SECOND == 0 && Seconds(t) < YEAR_10000 ==>
                (InWindow(Iso(t), u) <==> t <= u <= t + RETIRED_DAYS * DAY * SECOND)
    {
      WindowThroughText(t, u);
    }
  }

  /** Through whole runs: retired at `t`, neither evicted nor replaced, kept exactly while in the window. */
  lemma KeptThroughTheWindow(m: Records, run: seq<Event>, n: Name, t: int)
    requires n in m && m[n].retiredAt == Iso(t) && Seconds(t) < YEAR_10000
    requires forall k :: 0 <= k < |run| ==> !(run[k].Retired? && run[k].name == n)
    requires forall k :: 0 <= k < |run| ==> !Evicts(m, run, k, n)
    ensures n in Replay(m, run) <==>
      forall k :: 0 <= k < |run| && run[k].Expired? ==>
        Seconds(t) * SECOND <= run[k].now <= Seconds(t) * SECOND + RETIRED_DAYS * DAY * SECOND
  {
    hide InWindow, Iso, Seconds;
    KeptExactly(m, run, n);
    forall u
      ensures InWindow(Iso(t), u) <==>
        Seconds(t) * SECOND <= u <= Seconds(t) * SECOND + RETIRED_DAYS * DAY * SECOND
    {
      WindowThroughText(t, u);
    }
  }
}
