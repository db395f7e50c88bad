/**
 * The figures the dashboard derives from the tables: filtering a listing,
 * counting the rows that satisfy a condition, and the per-category tally of
 * products. Everything here is a pure function of the listed rows.
 */
module Reports {
  import opened Schema
  import opened OrderedMaps

  // ---------------------------------------------------------------- filtering

  /** `array.filter(p)`: the elements satisfying `p`, in their order. */
  function Filter<T(!new)>(s: seq<T>, p: T -> bool): (r: seq<T>)
    ensures |r| <= |s|
    ensures forall x :: x in r <==> x in s && p(x)
  {
    if s == [] then []
    else
      var init, last := s[..|s| - 1], s[|s| - 1];
      assert s == init + [last];
      var r := Filter(init, p);
      if p(last) then r + [last] else r
  }

  /** The filter keeps the order of the listing it filters. */
  lemma {:induction false} FilterKeepsOrder<T(!new)>(s: seq<T>, p: T -> bool, i: int, j: int)
    requires 0 <= i < j < |Filter(s, p)|
    ensures exists a, b :: 0 <= a < b < |s| && s[a] == Filter(s, p)[i] && s[b] == Filter(s, p)[j]
  {
    var init, last := s[..|s| - 1], s[|s| - 1];
    var r := Filter(init, p);
    if j < |r| {
      FilterKeepsOrder(init, p, i, j);
      var a, b :| 0 <= a < b < |init| && init[a] == r[i] && init[b] == r[j];
      assert s[a] == init[a] && s[b] == init[b];
    } else {
      assert Filter(s, p)[j] == last && Filter(s, p)[i] == r[i];
      assert r[i] in init;
      var a :| 0 <= a < |init| && init[a] == r[i];
      assert s[a] == init[a] && s[|s| - 1] == last;
    }
  }

  /** The keys among the first `n` of the key order whose value satisfies `p`. */
  ghost function MatchingKeys<K(!new), V>(m: OrderedMap<K, V>, p: V -> bool, n: nat): set<K>
    requires n <= |m.keys|
  {
    set k | k in m.vals && k in m.keys[..n] && p(m.vals[k])
  }

  /** The keys of the map whose value satisfies `p`. */
  ghost function KeysWhere<K(!new), V>(m: OrderedMap<K, V>, p: V -> bool): set<K> {
    set k | k in m.vals && p(m.vals[k])
  }

  /**
   * Counting the listed values that satisfy `p` counts the entries of the
   * map whose value satisfies it.
   */
  lemma CountMatching<K(!new), V(!new)>(m: OrderedMap<K, V>, p: V -> bool)
    requires Valid(m)
    ensures |Filter(Values(m), p)| == |KeysWhere(m, p)|
  {
    var n := |m.keys|;
    CountMatchingPrefix(m, p, n);
    assert Values(m)[..n] == Values(m);
    assert m.keys[..n] == m.keys;
    assert MatchingKeys(m, p, n) == KeysWhere(m, p);
  }

  lemma {:induction false} CountMatchingPrefix<K(!new), V(!new)>(m: OrderedMap<K, V>, p: V -> bool, n: nat)
    requires Valid(m) && n <= |m.keys|
    ensures |Filter(Values(m)[..n], p)| == |MatchingKeys(m, p, n)|
  {
    if n > 0 {
      CountMatchingPrefix(m, p, n - 1);
      FilterPrefixStep(Values(m), p, n);
      MatchingKeysStep(m, p, n);
    }
  }

  lemma FilterPrefixStep<T(!new)>(s: seq<T>, p: T -> bool, n: nat)
    requires 0 < n <= |s|
    ensures |Filter(s[..n], p)| == |Filter(s[..n - 1], p)| + if p(s[n - 1]) then 1 else 0
  {
    assert s[..n][..n - 1] == s[..n - 1];
  }

  lemma MatchingKeysStep<K(!new), V(!new)>(m: OrderedMap<K, V>, p: V -> bool, n: nat)
    requires Valid(m) && 0 < n <= |m.keys|
    ensures |MatchingKeys(m, p, n)| ==
      |MatchingKeys(m, p, n - 1)| + if p(Values(m)[n - 1]) then 1 else 0
  {
    var x := m.keys[n - 1];
    assert x !in MatchingKeys(m, p, n - 1) by {
      assert forall j :: 0 <= j < n - 1 ==> m.keys[j] != m.keys[n - 1];
      assert x !in m.keys[..n - 1];
    }
    assert m.keys[..n] == m.keys[..n - 1] + [x];
    if p(m.vals[x]) {
      assert MatchingKeys(m, p, n) == MatchingKeys(m, p, n - 1) + {x};
    } else {
      assert MatchingKeys(m, p, n) == MatchingKeys(m, p, n - 1);
    }
  }

  // -------------------------------------------------------------- the tallies

  /** How many times `c` occurs in `cs`. */
  function CountOf(cs: seq<string>, c: string): (n: nat)
    ensures n <= |cs|
    ensures n > 0 <==> c in cs
  {
    if cs == [] then 0
    else
      var init, last := cs[..|cs| - 1], cs[|cs| - 1];
      assert cs == init + [last];
      CountOf(init, c) + if last == c then 1 else 0
  }

  /** The distinct elements of `cs`, in the order they first occur. */
  function FirstOccurrences(cs: seq<string>): (ds: seq<string>)
    ensures forall c :: c in ds <==> c in cs
    ensures NoDuplicates(ds)
  {
    if cs == [] then []
    else
      var init, last := cs[..|cs| - 1], cs[|cs| - 1];
      assert cs == init + [last];
      var ds := FirstOccurrences(init);
      if last in ds then ds else ds + [last]
  }

  /** Extending the listing by one element updates the first occurrences and the counts. */
  lemma PrefixStep(cs: seq<string>, i: nat)
    requires i < |cs|
    ensures FirstOccurrences(cs[..i + 1]) ==
      if cs[i] in FirstOccurrences(cs[..i]) then FirstOccurrences(cs[..i]) else FirstOccurrences(cs[..i]) + [cs[i]]
    ensures forall x :: CountOf(cs[..i + 1], x) == CountOf(cs[..i], x) + if x == cs[i] then 1 else 0
  {
    assert cs[..i + 1][..i] == cs[..i];
  }

  /** One category of the breakdown with the number of products in it. */
  datatype CategoryCount = CategoryCount(category: string, count: nat)

  /** For each of `ds`, in order, the number of its occurrences in `cs`. */
  function Tally(ds: seq<string>, cs: seq<string>): (r: seq<CategoryCount>)
    ensures |r| == |ds|
    ensures forall j :: 0 <= j < |r| ==> r[j] == CategoryCount(ds[j], CountOf(cs, ds[j]))
  {
    seq(|ds|, j requires 0 <= j < |ds| => CategoryCount(ds[j], CountOf(cs, ds[j])))
  }

  /** The category breakdown of a listing of categories: one entry per category. */
  function CategoryBreakdown(cs: seq<string>): seq<CategoryCount> {
    Tally(FirstOccurrences(cs), cs)
  }

  /**
   * `counts` is the dictionary of category counts built from `cs`: its keys
   * in first-occurrence order, each with its number of occurrences.
   */
  ghost predicate IsTallyOf(counts: OrderedMap<string, nat>, cs: seq<string>) {
    && Valid(counts)
    && counts.keys == FirstOccurrences(cs)
    && forall c :: c in counts.vals ==> counts.vals[c] == CountOf(cs, c)
  }

  /** `counts[c] = (counts[c] || 0) + 1` for the next element keeps the dictionary a tally. */
  lemma TallyStep(counts: OrderedMap<string, nat>, cs: seq<string>, i: nat)
    requires i < |cs| && IsTallyOf(counts, cs[..i])
    ensures IsTallyOf(Set(counts, cs[i], (if cs[i] in counts.vals then counts.vals[cs[i]] else 0) + 1), cs[..i + 1])
  {
    var c := cs[i];
    var next := Set(counts, c, (if c in counts.vals then counts.vals[c] else 0) + 1);
    PrefixStep(cs, i);
    assert c in counts.vals <==> c in FirstOccurrences(cs[..i]);
    assert next.keys == FirstOccurrences(cs[..i + 1]);
    forall x | x in next.vals
      ensures next.vals[x] == CountOf(cs[..i + 1], x)
    {
      if x != c {
        assert next.vals[x] == counts.vals[x];
      }
    }
  }

  /** `Object.entries(counts).map(...)`: the dictionary's entries in key order. */
  function Entries(counts: OrderedMap<string, nat>): (r: seq<CategoryCount>)
    requires Valid(counts)
    ensures |r| == |counts.keys|
    ensures forall j :: 0 <= j < |r| ==> r[j] == CategoryCount(counts.keys[j], counts.vals[counts.keys[j]])
  {
    seq(|counts.keys|, j requires 0 <= j < |counts.keys| => CategoryCount(counts.keys[j], counts.vals[counts.keys[j]]))
  }

  /** The entries of a tally are the category breakdown. */
  lemma TallyEntries(counts: OrderedMap<string, nat>, cs: seq<string>)
    requires IsTallyOf(counts, cs)
    ensures Entries(counts) == CategoryBreakdown(cs)
  {
  }

  function TotalCount(r: seq<CategoryCount>): nat {
    if r == [] then 0 else TotalCount(r[..|r| - 1]) + r[|r| - 1].count
  }

  /**
   * The breakdown lists every category that occurs, and only those, each
   * once, with the number of its occurrences; the counts add up to the
   * number of products.
   */
  lemma CategoryBreakdownCorrect(cs: seq<string>)
    ensures forall j :: 0 <= j < |CategoryBreakdown(cs)| ==>
      CategoryBreakdown(cs)[j].count == CountOf(cs, CategoryBreakdown(cs)[j].category)
    ensures forall j :: 0 <= j < |CategoryBreakdown(cs)| ==> CategoryBreakdown(cs)[j].count > 0
    ensures forall c :: c in cs <==>
      exists j :: 0 <= j < |CategoryBreakdown(cs)| && CategoryBreakdown(cs)[j].category == c
    ensures forall i, j :: 0 <= i < j < |CategoryBreakdown(cs)| ==>
      CategoryBreakdown(cs)[i].category != CategoryBreakdown(cs)[j].category
    ensures TotalCount(CategoryBreakdown(cs)) == |cs|
  {
    var ds := FirstOccurrences(cs);
    var r := CategoryBreakdown(cs);
    forall c | c in cs
      ensures exists j :: 0 <= j < |r| && r[j].category == c
    {
      var j :| 0 <= j < |ds| && ds[j] == c;
      assert r[j].category == c;
    }
    TallyTotal(cs);
  }

  /** The counts of the breakdown add up to the length of the listing. */
  lemma {:induction false} TallyTotal(cs: seq<string>)
    ensures TotalCount(Tally(FirstOccurrences(cs), cs)) == |cs|
  {
    if cs != [] {
      var init, last := cs[..|cs| - 1], cs[|cs| - 1];
      assert cs == init + [last];
      var ds := FirstOccurrences(init);
      TallyTotal(init);
      TallyShift(ds, init, last);
      assert cs == init + [last];
      if last in ds {
        OccursOnce(ds, last);
      } else {
        assert CountOf(ds, last) == 0;
        TallyAppend(ds, last, cs);
        assert CountOf(init, last) == 0;
        assert CountOf(cs, last) == 1;
      }
    }
  }

  /** Adding one more element to the listing raises the total by its occurrences in `ds`. */
  lemma {:induction false} TallyShift(ds: seq<string>, cs: seq<string>, x: string)
    ensures TotalCount(Tally(ds, cs + [x])) == TotalCount(Tally(ds, cs)) + CountOf(ds, x)
  {
    if ds != [] {
      var init, last := ds[..|ds| - 1], ds[|ds| - 1];
      TallyShift(init, cs, x);
      TallyPrefix(ds, cs + [x]);
      TallyPrefix(ds, cs);
      assert (cs + [x])[..|cs|] == cs;
      assert CountOf(cs + [x], last) == CountOf(cs, last) + if x == last then 1 else 0;
    }
  }

  /** The tally of a longer `ds` extends the tally of its prefix. */
  lemma TallyPrefix(ds: seq<string>, cs: seq<string>)
    requires ds != []
    ensures Tally(ds, cs)[..|ds| - 1] == Tally(ds[..|ds| - 1], cs)
    ensures TotalCount(Tally(ds, cs)) ==
      TotalCount(Tally(ds[..|ds| - 1], cs)) + CountOf(cs, ds[|ds| - 1])
  {
    assert Tally(ds, cs)[..|ds| - 1] == Tally(ds[..|ds| - 1], cs);
  }

  lemma TallyAppend(ds: seq<string>, x: string, cs: seq<string>)
    ensures TotalCount(Tally(ds + [x], cs)) == TotalCount(Tally(ds, cs)) + CountOf(cs, x)
  {
    TallyPrefix(ds + [x], cs);
    assert (ds + [x])[..|ds|] == ds;
  }

  /** In a sequence without duplicates, an element that occurs occurs once. */
  lemma {:induction false} OccursOnce(ds: seq<string>, x: string)
    requires NoDuplicates(ds) && x in ds
    ensures CountOf(ds, x) == 1
  {
    var init, last := ds[..|ds| - 1], ds[|ds| - 1];
    assert ds == init + [last];
    assert NoDuplicates(init);
    if last == x {
      assert x !in init by {
        forall j | 0 <= j < |init| ensures init[j] != x {
          assert ds[j] != ds[|ds| - 1];
        }
      }
    } else {
      OccursOnce(init, x);
    }
  }
}
