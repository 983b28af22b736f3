/** What both engines share once the per-application scores are known:
    the insertion-ordered set of keys of a JavaScript record, the sum of a
    record's values, the conversion of scores into percentage entries, and
    the in-place sort of those entries by percentage, descending. */
module Distributions {
  import opened Types

  predicate Distinct<T(==)>(s: seq<T>) {
    forall i, j :: 0 <= i < j < |s| ==> s[i] != s[j]
  }

  /** The keys of a record filled by inserting `s` in order: every element
      once, at the place of its first occurrence. */
  function Dedup<T(==)>(s: seq<T>): (r: seq<T>)
    ensures forall x <- r :: x in s
    ensures forall x <- s :: x in r
    ensures Distinct(r)
    ensures |r| <= |s|
  {
    if s == [] then []
    else
      var r' := Dedup(s[..|s| - 1]);
      if s[|s| - 1] in r' then r' else r' + [s[|s| - 1]]
  }

  lemma DedupSnoc<T>(s: seq<T>, x: T)
    ensures Dedup(s + [x]) == if x in s then Dedup(s) else Dedup(s) + [x]
  {
    assert (s + [x])[..|s|] == s;
  }

  /** A sequence without repetitions is its own set of keys. */
  lemma {:induction false} DedupOfDistinct<T>(s: seq<T>)
    requires Distinct(s)
    ensures Dedup(s) == s
  {
    if s != [] {
      var s' := s[..|s| - 1];
      assert s == s' + [s[|s| - 1]];
      DedupOfDistinct(s');
    }
  }

  /** `Object.values(record).reduce((sum, v) => sum + v, 0)` over the keys `keys`. */
  function SumValues(keys: seq<string>, values: map<string, real>): real
    requires forall k <- keys :: k in values
  {
    if keys == [] then 0.0
    else SumValues(keys[..|keys| - 1], values) + values[keys[|keys| - 1]]
  }

  /** Two records that agree on the keys have the same sum. */
  lemma {:induction false} SumValuesAgree(keys: seq<string>, v: map<string, real>, w: map<string, real>)
    requires forall k <- keys :: k in v && k in w && v[k] == w[k]
    ensures SumValues(keys, v) == SumValues(keys, w)
  {
    if keys != [] {
      SumValuesAgree(keys[..|keys| - 1], v, w);
    }
  }

  /** A record whose every value is `c` sums to `c` times its size. */
  lemma {:induction false} SumValuesConstant(keys: seq<string>, v: map<string, real>, c: real)
    requires forall k <- keys :: k in v && v[k] == c
    ensures SumValues(keys, v) == |keys| as real * c
  {
    if keys != [] {
      SumValuesConstant(keys[..|keys| - 1], v, c);
    }
  }

  lemma {:induction false} SumValuesZero(keys: seq<string>, v: map<string, real>)
    requires forall k <- keys :: k in v && v[k] == 0.0
    ensures SumValues(keys, v) == 0.0
  {
    if keys != [] {
      SumValuesZero(keys[..|keys| - 1], v);
    }
  }

  /** Dividing every value by `total` and multiplying by 100 scales the sum alike. */
  lemma {:induction false} SumValuesScaled(keys: seq<string>, v: map<string, real>, w: map<string, real>, total: real)
    requires total != 0.0
    requires forall k <- keys :: k in v && k in w && w[k] == v[k] / total * 100.0
    ensures SumValues(keys, w) == SumValues(keys, v) / total * 100.0
  {
    if keys != [] {
      var keys', k := keys[..|keys| - 1], keys[|keys| - 1];
      SumValuesScaled(keys', v, w, total);
      calc {
        SumValues(keys, w);
        SumValues(keys', v) / total * 100.0 + v[k] / total * 100.0;
        (SumValues(keys', v) + v[k]) / total * 100.0;
      }
    }
  }

  lemma DivSelfCancel(x: real)
    requires x != 0.0
    ensures x / x * 100.0 == 100.0
  {
  }

  /** `count` equal shares of `100 / count` add up to 100. */
  lemma SumValuesEqualSplit(keys: seq<string>, v: map<string, real>)
    requires keys != []
    requires forall k <- keys :: k in v && v[k] == 100.0 / |keys| as real
    ensures SumValues(keys, v) == 100.0
  {
    var n := |keys| as real;
    SumValuesConstant(keys, v, 100.0 / n);
    MulDivCancel(n);
  }

  lemma MulDivCancel(n: real)
    requires n != 0.0
    ensures n * (100.0 / n) == 100.0
  {
  }

  function SumPercentages(ds: seq<Distribution>): real {
    if ds == [] then 0.0
    else SumPercentages(ds[..|ds| - 1]) + ds[|ds| - 1].distributionPercentage
  }

  lemma {:induction false} SumPercentagesAppend(a: seq<Distribution>, b: seq<Distribution>)
    ensures SumPercentages(a + b) == SumPercentages(a) + SumPercentages(b)
  {
    if b == [] {
      assert a + b == a;
    } else {
      var b', y := b[..|b| - 1], b[|b| - 1];
      assert (a + b)[..|a + b| - 1] == a + b';
      assert (a + b)[|a + b| - 1] == y;
      SumPercentagesAppend(a, b');
    }
  }

  /** Taking entry `j` out of `t` removes its percentage from the sum. */
  lemma SumPercentagesRemove(t: seq<Distribution>, j: nat)
    requires j < |t|
    ensures SumPercentages(t) == SumPercentages(t[..j] + t[j + 1..]) + t[j].distributionPercentage
  {
    assert t == t[..j] + ([t[j]] + t[j + 1..]);
    SumPercentagesAppend(t[..j], [t[j]] + t[j + 1..]);
    SumPercentagesAppend([t[j]], t[j + 1..]);
    SumPercentagesAppend(t[..j], t[j + 1..]);
    assert [t[j]][..0] == [];
  }

  lemma MultisetRemove(t: seq<Distribution>, j: nat)
    requires j < |t|
    ensures multiset(t[..j] + t[j + 1..]) == multiset(t) - multiset{t[j]}
  {
    assert t == t[..j] + [t[j]] + t[j + 1..];
  }

  /** Reordering the entries does not change the sum of their percentages. */
  lemma {:induction false} SumPercentagesPermutation(s: seq<Distribution>, t: seq<Distribution>)
    requires multiset(s) == multiset(t)
    ensures SumPercentages(s) == SumPercentages(t)
    decreases |s|
  {
    if s == [] {
      assert |t| == |multiset(t)| == 0;
    } else {
      var x, s' := s[|s| - 1], s[..|s| - 1];
      assert s == s' + [x];
      assert multiset(s') == multiset(s) - multiset{x};
      assert x in multiset(t);
      var j :| 0 <= j < |t| && t[j] == x;
      MultisetRemove(t, j);
      SumPercentagesPermutation(s', t[..j] + t[j + 1..]);
      SumPercentagesRemove(t, j);
    }
  }

  function AppIds(ds: seq<Distribution>): (ids: seq<string>)
    ensures |ids| == |ds|
  {
    seq(|ds|, k requires 0 <= k < |ds| => ds[k].alloApplicationId)
  }

  /** In entries with pairwise different ids no entry occurs twice. */
  lemma {:induction false} DistinctIdsOccurOnce(s: seq<Distribution>, x: Distribution)
    requires Distinct(AppIds(s))
    ensures multiset(s)[x] <= 1
  {
    if s != [] {
      var s' := s[..|s| - 1];
      assert s == s' + [s[|s| - 1]];
      assert AppIds(s') == AppIds(s)[..|s| - 1];
      DistinctIdsOccurOnce(s', x);
      if s[|s| - 1] == x {
        assert x !in s' by {
          forall i | 0 <= i < |s'| ensures s'[i] != x {
            assert AppIds(s)[i] != AppIds(s)[|s| - 1];
          }
        }
      }
    }
  }

  /** Reordering entries keeps their ids pairwise different. */
  lemma DistinctIdsPermutation(s: seq<Distribution>, t: seq<Distribution>)
    requires multiset(s) == multiset(t)
    requires Distinct(AppIds(s))
    ensures Distinct(AppIds(t))
  {
    forall i, j | 0 <= i < j < |t| ensures AppIds(t)[i] != AppIds(t)[j] {
      if t[i].alloApplicationId == t[j].alloApplicationId {
        if t[i] == t[j] {
          assert t == t[..j] + t[j..];
          assert t[i] in t[..j] && t[j] in t[j..];
          assert multiset(t)[t[i]] >= 2;
          DistinctIdsOccurOnce(s, t[i]);
        } else {
          assert t[i] in multiset(s) && t[j] in multiset(s);
          var p :| 0 <= p < |s| && s[p] == t[i];
          var q :| 0 <= q < |s| && s[q] == t[j];
          assert AppIds(s)[p] == AppIds(s)[q];
        }
      }
    }
  }

  /** `Object.entries(record).map(...)`: one entry per key, in key order,
      carrying the percentage the record `pct` gives that key. */
  function Entries(ids: seq<string>, pct: map<string, real>): (r: seq<Distribution>)
    requires forall id <- ids :: id in pct
    ensures |r| == |ids|
    ensures AppIds(r) == ids
    ensures forall d <- r :: d.alloApplicationId in pct && d.distributionPercentage == pct[d.alloApplicationId]
  {
    seq(|ids|, k requires 0 <= k < |ids| => Distribution(ids[k], pct[ids[k]]))
  }

  /** The entries' percentages add up to the record's values. */
  lemma {:induction false} EntriesSum(ids: seq<string>, pct: map<string, real>)
    requires forall id <- ids :: id in pct
    ensures SumPercentages(Entries(ids, pct)) == SumValues(ids, pct)
  {
    if ids != [] {
      var ids' := ids[..|ids| - 1];
      var r := Entries(ids, pct);
      assert r[..|r| - 1] == Entries(ids', pct);
      EntriesSum(ids', pct);
    }
  }

  predicate SortedDesc(s: seq<Distribution>) {
    forall i, j :: 0 <= i < j < |s| ==> s[i].distributionPercentage >= s[j].distributionPercentage
  }

  /** `r` is what sorting `entries` by percentage, descending, can produce. */
  predicate Ranked(entries: seq<Distribution>, r: seq<Distribution>) {
    SortedDesc(r) && multiset(r) == multiset(entries)
  }

  /** `distributions.sort((a, b) => b.pct - a.pct)`: an insertion sort that
      moves each entry left past every entry with a strictly smaller percentage. */
  method SortByPercentage(a: array<Distribution>)
    modifies a
    ensures SortedDesc(a[..])
    ensures multiset(a[..]) == multiset(old(a[..]))
  {
    var i := 0;
    while i < a.Length
      invariant 0 <= i <= a.Length
      invariant SortedDesc(a[..i])
      invariant multiset(a[..]) == multiset(old(a[..]))
    {
      InsertLeft(a, i);
      i := i + 1;
    }
  }

  /** Moves `a[i]` left into the descending prefix `a[..i]`. */
  method InsertLeft(a: array<Distribution>, i: nat)
    requires i < a.Length
    requires SortedDesc(a[..i])
    modifies a
    ensures SortedDesc(a[..i + 1])
    ensures multiset(a[..]) == multiset(old(a[..]))
  {
    var j := i;
    while 0 < j && a[j - 1].distributionPercentage < a[j].distributionPercentage
      invariant 0 <= j <= i
      invariant forall p, q :: 0 <= p < q <= i && p != j && q != j ==>
        a[p].distributionPercentage >= a[q].distributionPercentage
      invariant forall q :: j < q <= i ==>
        a[j].distributionPercentage >= a[q].distributionPercentage
      invariant multiset(a[..]) == multiset(old(a[..]))
    {
      Swap(a, j - 1, j);
      j := j - 1;
    }
  }

  method Swap(a: array<Distribution>, i: nat, j: nat)
    requires i < j < a.Length
    modifies a
    ensures a[..] == old(a[..])[i := old(a[j])][j := old(a[i])]
    ensures multiset(a[..]) == multiset(old(a[..]))
  {
    a[i], a[j] := a[j], a[i];
  }

  /** Copies the entries into an array, sorts it in place and returns it. */
  method Rank(entries: seq<Distribution>) returns (r: seq<Distribution>)
    ensures Ranked(entries, r)
  {
    var a := new Distribution[|entries|](k requires 0 <= k < |entries| => entries[k]);
    assert a[..] == entries;
    SortByPercentage(a);
    r := a[..];
  }

  /** What a ranking keeps of the entries: their number, their sum, each
      entry itself and the distinctness of their ids. */
  lemma RankedKeeps(entries: seq<Distribution>, r: seq<Distribution>)
    requires Ranked(entries, r)
    ensures |r| == |entries|
    ensures SumPercentages(r) == SumPercentages(entries)
    ensures forall d :: d in r <==> d in entries
    ensures Distinct(AppIds(entries)) ==> Distinct(AppIds(r))
  {
    assert |r| == |multiset(r)| == |multiset(entries)| == |entries|;
    SumPercentagesPermutation(entries, r);
    forall d ensures d in r <==> d in entries {
      assert d in r <==> d in multiset(r);
      assert d in entries <==> d in multiset(entries);
    }
    if Distinct(AppIds(entries)) {
      DistinctIdsPermutation(entries, r);
    }
  }

  /** Ranking keeps the set of application ids. */
  lemma RankedIds(entries: seq<Distribution>, r: seq<Distribution>)
    requires Ranked(entries, r)
    ensures forall id :: id in AppIds(r) <==> id in AppIds(entries)
  {
    RankedKeeps(entries, r);
    forall id ensures id in AppIds(r) <==> id in AppIds(entries) {
      if id in AppIds(r) {
        var k :| 0 <= k < |r| && AppIds(r)[k] == id;
        assert r[k] in entries;
        var k' :| 0 <= k' < |entries| && entries[k'] == r[k];
        assert AppIds(entries)[k'] == id;
      }
      if id in AppIds(entries) {
        var k :| 0 <= k < |entries| && AppIds(entries)[k] == id;
        assert entries[k] in r;
        var k' :| 0 <= k' < |r| && r[k'] == entries[k];
        assert AppIds(r)[k'] == id;
      }
    }
  }
}
