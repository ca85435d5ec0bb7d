/** Names in byte order, and the one sorted list a set of names has. */
module Order {
  import opened Prelude

  predicate Less(a: Bytes, b: Bytes) {
    if b == [] then false
    else if a == [] then true
    else a[0] < b[0] || (a[0] == b[0] && Less(a[1..], b[1..]))
  }

  lemma {:induction false} LessIrreflexive(a: Bytes)
    ensures !Less(a, a)
  {
    if a != [] {
      LessIrreflexive(a[1..]);
    }
  }

  lemma {:induction false} LessTransitive(a: Bytes, b: Bytes, c: Bytes)
    requires Less(a, b) && Less(b, c)
    ensures Less(a, c)
  {
    if a != [] && a[0] == b[0] && b[0] == c[0] {
      LessTransitive(a[1..], b[1..], c[1..]);
    }
  }

  lemma {:induction false} LessTotal(a: Bytes, b: Bytes)
    ensures Less(a, b) || a == b || Less(b, a)
  {
    if a != [] && b != [] && a[0] == b[0] {
      LessTotal(a[1..], b[1..]);
      assert a == [a[0]] + a[1..] && b == [b[0]] + b[1..];
    }
  }

  /** `a` has the lower byte at `i`, the first place where the two differ. */
  predicate LowerAt(a: Bytes, b: Bytes, i: int) {
    0 <= i < |a| && i < |b| && a[..i] == b[..i] && a[i] < b[i]
  }

  /** Byte order: a proper beginning comes first, else the lower byte at the first difference. */
  lemma {:induction false} LessExactly(a: Bytes, b: Bytes)
    ensures Less(a, b) <==> a < b || exists i :: LowerAt(a, b, i)
  {
    if a != [] && b != [] && a[0] == b[0] {
      LessExactly(a[1..], b[1..]);
      assert a == [a[0]] + a[1..] && b == [b[0]] + b[1..];
      assert a < b <==> a[1..] < b[1..];
      if i :| LowerAt(a, b, i) {
        assert a[..i][1..] == a[1..][..i-1] && b[..i][1..] == b[1..][..i-1];
        assert LowerAt(a[1..], b[1..], i - 1);
      }
      if i :| LowerAt(a[1..], b[1..], i) {
        assert a[..i+1] == [a[0]] + a[1..][..i] && b[..i+1] == [b[0]] + b[1..][..i];
        assert LowerAt(a, b, i + 1);
      }
    } else if a != [] && b != [] && a[0] < b[0] {
      assert LowerAt(a, b, 0);
    }
  }

  /** Strictly ascending: sorted, and no name twice. */
  predicate Ascending(names: seq<Bytes>) {
    forall i, j :: 0 <= i < j < |names| ==> Less(names[i], names[j])
  }

  lemma FirstIsLeast(a: seq<Bytes>, b: seq<Bytes>)
    requires Ascending(a) && Ascending(b) && a != [] && b != []
    requires forall n :: n in a <==> n in b
    ensures a[0] == b[0]
  {
    assert a[0] in b && b[0] in a;
    LessIrreflexive(a[0]);
    if a[0] != b[0] {
      LessTransitive(a[0], b[0], a[0]);
    }
  }

  /** A set of names has one ascending list. */
  lemma {:induction false} AscendingIsUnique(a: seq<Bytes>, b: seq<Bytes>)
    requires Ascending(a) && Ascending(b)
    requires forall n :: n in a <==> n in b
    ensures a == b
  {
    if b != [] {
      assert b[0] in b;
    }
    if a != [] {
      assert a[0] in b;
      FirstIsLeast(a, b);
      forall n
        ensures n in a[1..] <==> n in b[1..]
      {
        TailWithout(a, n);
        TailWithout(b, n);
      }
      AscendingIsUnique(a[1..], b[1..]);
      assert a == [a[0]] + a[1..] && b == [b[0]] + b[1..];
    }
  }

  lemma TailWithout(a: seq<Bytes>, n: Bytes)
    requires Ascending(a) && a != []
    ensures n in a[1..] <==> n in a && n != a[0]
  {
    LessIrreflexive(a[0]);
    assert a == [a[0]] + a[1..];
  }

  function Insert(n: Bytes, sorted: seq<Bytes>): seq<Bytes> {
    if sorted == [] || !Less(sorted[0], n) then [n] + sorted
    else [sorted[0]] + Insert(n, sorted[1..])
  }

  /** `sort`. */
  function Sort(names: seq<Bytes>): seq<Bytes> {
    if names == [] then [] else Insert(names[0], Sort(names[1..]))
  }

  lemma {:induction false} InsertKeepsAscending(n: Bytes, sorted: seq<Bytes>)
    requires Ascending(sorted) && n !in sorted
    ensures Ascending(Insert(n, sorted))
    ensures forall x :: x in Insert(n, sorted) <==> x == n || x in sorted
  {
    if sorted != [] {
      LessTotal(sorted[0], n);
      if Less(sorted[0], n) {
        InsertKeepsAscending(n, sorted[1..]);
        assert sorted == [sorted[0]] + sorted[1..];
        assert forall x :: x in sorted[1..] ==> Less(sorted[0], x);
      } else {
        forall i | 0 <= i < |sorted|
          ensures Less(n, sorted[i])
        {
          if i > 0 {
            LessTransitive(n, sorted[0], sorted[i]);
          }
        }
      }
    }
  }

  predicate Distinct(names: seq<Bytes>) {
    forall i, j :: 0 <= i < j < |names| ==> names[i] != names[j]
  }

  lemma {:induction false} SortIsAscending(names: seq<Bytes>)
    requires Distinct(names)
    ensures Ascending(Sort(names))
    ensures forall n :: n in Sort(names) <==> n in names
  {
    if names != [] {
      SortIsAscending(names[1..]);
      assert names == [names[0]] + names[1..];
      InsertKeepsAscending(names[0], Sort(names[1..]));
    }
  }
}
