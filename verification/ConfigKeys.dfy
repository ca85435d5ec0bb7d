/** A `config --list -z` reading and git's own key comparison (`ConfigList`, `normalize_config_key`). */
module ConfigKeys {
  import opened Prelude
  import opened Fields
  import Utf8

  const DOT: Byte := 46

  function Lower(b: Byte): Byte {
    if 65 <= b <= 90 then b + 32 else b
  }

  predicate Capital(b: Byte) {
    65 <= b <= 90
  }

  /** Two bytes fold alike when they are the same byte, or one Latin letter in its two cases. */
  lemma LowerExactly(a: Byte, b: Byte)
    ensures Lower(a) == Lower(b) <==> a == b || (Capital(a) && b == a + 32) || (Capital(b) && a == b + 32)
  {
  }

  /** `to_ascii_lowercase`. */
  function Fold(s: Bytes): (r: Bytes)
    ensures |r| == |s|
  {
    seq(|s|, i requires 0 <= i < |s| => Lower(s[i]))
  }

  /** `rfind`. */
  function FindLast(s: Bytes, sep: Byte): (i: nat)
    requires sep in s
    ensures i < |s| && s[i] == sep && forall k :: i < k < |s| ==> s[k] != sep
  {
    var last := |s| - 1;
    if s[last] == sep then last
    else
      assert s == s[..last] + [s[last]];
      FindLast(s[..last], sep)
  }

  /** All folded but what lies from `first` to `last`. */
  function FoldAround(key: Bytes, first: nat, last: nat): (r: Bytes)
    requires first <= last < |key|
    ensures |r| == |key|
  {
    Fold(key[..first]) + key[first..last + 1] + Fold(key[last + 1..])
  }

  /** Section and variable folded; the subsection between the first dot and the last is kept. */
  function Normalize(key: Bytes): (r: Bytes)
    ensures |r| == |key|
  {
    if DOT in key && Find(key, DOT) < FindLast(key, DOT) then
      FoldAround(key, Find(key, DOT), FindLast(key, DOT))
    else Fold(key)
  }

  /** Some dot before `i` and some dot after it. */
  ghost predicate InSubsection(key: Bytes, i: int) {
    0 <= i < |key| && (exists j :: 0 <= j < i && key[j] == DOT) && (exists k :: i < k < |key| && key[k] == DOT)
  }

  /** git's key comparison: case counts only between two dots. */
  ghost predicate SameKey(a: Bytes, b: Bytes) {
    && |a| == |b|
    && (forall i :: 0 <= i < |a| ==> Lower(a[i]) == Lower(b[i]))
    && (forall i :: InSubsection(a, i) ==> a[i] == b[i])
  }

  lemma SubsectionIsBetween(key: Bytes, i: int)
    requires 0 <= i < |key|
    ensures InSubsection(key, i) <==> DOT in key && Find(key, DOT) < i < FindLast(key, DOT)
  {
    if InSubsection(key, i) {
      var j :| 0 <= j < i && key[j] == DOT;
      var k :| i < k < |key| && key[k] == DOT;
      assert Find(key, DOT) <= j && k <= FindLast(key, DOT);
    }
  }

  lemma FoldAroundAt(key: Bytes, first: nat, last: nat, i: nat)
    requires first <= last < |key| && i < |key|
    ensures FoldAround(key, first, last)[i] == if first <= i <= last then key[i] else Lower(key[i])
  {
    hide Fold, Lower;
    if i < first {
      FoldAt(key[..first], i);
    } else if i > last {
      FoldAt(key[last + 1..], i - last - 1);
    }
  }

  lemma NormalizedByte(key: Bytes, i: int)
    requires 0 <= i < |key|
    ensures Normalize(key)[i] == if InSubsection(key, i) then key[i] else Lower(key[i])
  {
    SubsectionIsBetween(key, i);
    if DOT in key && Find(key, DOT) < FindLast(key, DOT) {
      NormalizedAround(key, i);
    } else {
      hide InSubsection, Lower, Fold, Find, FindLast;
      FoldAt(key, i);
    }
  }

  lemma NormalizedAround(key: Bytes, i: int)
    requires 0 <= i < |key| && DOT in key && Find(key, DOT) < FindLast(key, DOT)
    ensures Normalize(key)[i] == if Find(key, DOT) < i < FindLast(key, DOT) then key[i] else Lower(key[i])
  {
    hide Lower, Fold, FoldAround, Find, FindLast;
    var first, last := Find(key, DOT), FindLast(key, DOT);
    assert Normalize(key) == FoldAround(key, first, last);
    FoldAroundAt(key, first, last, i);
    DotStays();
  }

  lemma FoldAt(s: Bytes, i: int)
    requires 0 <= i < |s|
    ensures Fold(s)[i] == Lower(s[i])
  {
  }

  lemma DotStays()
    ensures Lower(DOT) == DOT
  {
  }

  /** Each byte is folded unless a dot stands on either side of it. */
  lemma NormalizeByte(key: Bytes)
    ensures forall i :: 0 <= i < |key| ==>
      Normalize(key)[i] == if InSubsection(key, i) then key[i] else Lower(key[i])
  {
    forall i | 0 <= i < |key|
      ensures Normalize(key)[i] == if InSubsection(key, i) then key[i] else Lower(key[i])
    {
      NormalizedByte(key, i);
    }
  }

  lemma LowerKeepsDots(s: Bytes, t: Bytes, i: int)
    requires |s| == |t| && forall k :: 0 <= k < |s| ==> Lower(s[k]) == Lower(t[k])
    ensures InSubsection(s, i) <==> InSubsection(t, i)
  {
    assert forall b: Byte :: Lower(b) == DOT <==> b == DOT;
    assert forall k :: 0 <= k < |s| ==> (s[k] == DOT <==> Lower(s[k]) == DOT);
    assert forall k :: 0 <= k < |s| ==> (t[k] == DOT <==> Lower(t[k]) == DOT);
  }

  /** Two keys are stored under one name exactly when git takes them for the same key. */
  lemma NormalizeExactly(a: Bytes, b: Bytes)
    ensures Normalize(a) == Normalize(b) <==> SameKey(a, b)
  {
    NormalizeByte(a);
    NormalizeByte(b);
    if Normalize(a) == Normalize(b) {
      forall i | 0 <= i < |a|
        ensures Lower(a[i]) == Lower(b[i])
      {
        assert Normalize(a)[i] == Normalize(b)[i];
      }
      forall i | InSubsection(a, i)
        ensures a[i] == b[i]
      {
        LowerKeepsDots(a, b, i);
        assert Normalize(a)[i] == Normalize(b)[i];
      }
    }
    if SameKey(a, b) {
      forall i | 0 <= i < |a|
        ensures Normalize(a)[i] == Normalize(b)[i]
      {
        LowerKeepsDots(a, b, i);
      }
    }
  }

  // ---------------------------------------------------------------------------------------
  // `ConfigList`
  // ---------------------------------------------------------------------------------------

  /** What comes before any line feed. */
  function KeyOf(rec: Bytes): Bytes {
    if NL in rec then rec[..Find(rec, NL)] else rec
  }

  /** What comes after it, or nothing. */
  function ValueOf(rec: Bytes): Bytes {
    if NL in rec then rec[Find(rec, NL) + 1..] else []
  }

  /** A record sets `key`; one whose own key is not UTF-8 sets nothing. */
  ghost predicate Sets(rec: Bytes, key: Bytes) {
    Utf8.Valid(KeyOf(rec)) && SameKey(KeyOf(rec), key)
  }

  /** The last record that sets `key`. */
  ghost predicate LastSets(recs: seq<Bytes>, key: Bytes, i: int) {
    0 <= i < |recs| && Sets(recs[i], key) && forall j :: i < j < |recs| ==> !Sets(recs[j], key)
  }

  /** What `raw` answers after some records: the last value under git's own comparison, or nothing. */
  ghost predicate Answers(entries: map<Bytes, Bytes>, recs: seq<Bytes>, lossy: Bytes -> Bytes) {
    forall key :: match Raw(entries, key)
                  case Some(v) => exists i :: LastSets(recs, key, i) && v == lossy(ValueOf(recs[i]))
                  case None => forall i :: 0 <= i < |recs| ==> !Sets(recs[i], key)
  }

  function Raw(entries: map<Bytes, Bytes>, key: Bytes): Option<Bytes> {
    if Normalize(key) in entries then Some(entries[Normalize(key)]) else None
  }

  lemma OneMore(entries: map<Bytes, Bytes>, recs: seq<Bytes>, rec: Bytes, lossy: Bytes -> Bytes)
    requires Answers(entries, recs, lossy)
    ensures Utf8.Valid(KeyOf(rec))
        ==> Answers(entries[Normalize(KeyOf(rec)) := lossy(ValueOf(rec))], recs + [rec], lossy)
    ensures !Utf8.Valid(KeyOf(rec)) ==> Answers(entries, recs + [rec], lossy)
  {
    var more := recs + [rec];
    var valid := Utf8.Valid(KeyOf(rec));
    var entries' := if valid then entries[Normalize(KeyOf(rec)) := lossy(ValueOf(rec))] else entries;
    forall key
      ensures match Raw(entries', key)
              case Some(v) => exists i :: LastSets(more, key, i) && v == lossy(ValueOf(more[i]))
              case None => forall i :: 0 <= i < |more| ==> !Sets(more[i], key)
    {
      NormalizeExactly(KeyOf(rec), key);
      if valid && Normalize(KeyOf(rec)) == Normalize(key) {
        assert LastSets(more, key, |recs|);
      } else {
        assert !Sets(rec, key);
        assert Raw(entries', key) == Raw(entries, key);
        if Raw(entries, key).Some? {
          var i :| LastSets(recs, key, i) && Raw(entries, key).value == lossy(ValueOf(recs[i]));
          assert LastSets(more, key, i);
        }
      }
    }
  }

  /** `lossy` stands for the replacement of bytes that are not UTF-8. */
  method Parse(bytes: Bytes, lossy: Bytes -> Bytes) returns (entries: map<Bytes, Bytes>)
    ensures Answers(entries, SplitNul(bytes), lossy)
  {
    var recs := SplitNul(bytes);
    entries := map[];
    for i := 0 to |recs|
      invariant Answers(entries, recs[..i], lossy)
    {
      assert recs[..i + 1] == recs[..i] + [recs[i]];
      OneMore(entries, recs[..i], recs[i], lossy);
      if Utf8.Valid(KeyOf(recs[i])) {
        entries := entries[Normalize(KeyOf(recs[i])) := lossy(ValueOf(recs[i]))];
      }
    }
    assert recs[..|recs|] == recs;
  }

  /** A key without a line feed and any value at all, `=` and line feeds included, come apart again. */
  lemma KeyThenValue(key: Bytes, value: Bytes)
    requires NL !in key
    ensures KeyOf(key + [NL] + value) == key && ValueOf(key + [NL] + value) == value
    ensures KeyOf(key) == key && ValueOf(key) == []
  {
    FirstOf(key, NL, value);
  }
}
