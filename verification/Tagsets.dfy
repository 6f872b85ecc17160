/** The dynamic tagsets of the test data: every choice of some tags and a listed value for each, once. */
module Tagsets {

  datatype Tag<N, V> = Tag(name: N, values: seq<V>)

  /** A choice for one tag. */
  type Choice<N, V> = (N, V)

  // ----- sequences

  function Prepend<T>(x: T, lists: seq<seq<T>>): (r: seq<seq<T>>)
    ensures |r| == |lists| && forall i :: 0 <= i < |lists| ==> r[i] == [x] + lists[i]
  {
    if lists == [] then [] else [[x] + lists[0]] + Prepend(x, lists[1..])
  }

  /** itertools.product. */
  function Product<T>(lists: seq<seq<T>>): seq<seq<T>>
    decreases |lists|, 0
  {
    if lists == [] then [[]] else PrependEach(lists[0], Product(lists[1..]))
  }

  function PrependEach<T>(xs: seq<T>, lists: seq<seq<T>>): seq<seq<T>> {
    if xs == [] then [] else Prepend(xs[0], lists) + PrependEach(xs[1..], lists)
  }

  /** itertools.combinations. */
  function Combinations<T>(s: seq<T>, r: nat): seq<seq<T>> {
    if r == 0 then [[]]
    else if s == [] then []
    else Prepend(s[0], Combinations(s[1..], r - 1)) + Combinations(s[1..], r)
  }

  /** The combinations of each size below `n`. */
  function CombinationsBelow<T>(s: seq<T>, n: nat): seq<seq<T>> {
    if n == 0 then [] else CombinationsBelow(s, n - 1) + Combinations(s, n - 1)
  }

  /** compute_power_set. */
  function PowerSet<T>(s: seq<T>): seq<seq<T>> {
    CombinationsBelow(s, |s| + 1)
  }

  /** The elements of `s` that `keep` selects. */
  function Kept<T>(s: seq<T>, keep: seq<bool>): seq<T>
    requires |keep| == |s|
  {
    if s == [] then [] else (if keep[0] then [s[0]] else []) + Kept(s[1..], keep[1..])
  }

  lemma {:induction false} KeptSize<T>(s: seq<T>, keep: seq<bool>)
    requires |keep| == |s|
    ensures |Kept(s, keep)| <= |s|
  {
    if s != [] { KeptSize(s[1..], keep[1..]); }
  }

  lemma PrependHas<T>(x: T, lists: seq<seq<T>>, c: seq<T>)
    ensures c in Prepend(x, lists) <==> c != [] && c[0] == x && c[1..] in lists
  {
    var r := Prepend(x, lists);
    hide Prepend;
    if c in r {
      var i :| 0 <= i < |r| && r[i] == c;
      assert c[1..] == lists[i];
    }
    if c != [] && c[0] == x && c[1..] in lists {
      var i :| 0 <= i < |lists| && lists[i] == c[1..];
      assert r[i] == c;
    }
  }

  /** A combination is empty, starts with the first element, or does without it. */
  lemma CombinationsHave<T>(s: seq<T>, r: nat, c: seq<T>)
    ensures c in Combinations(s, r) <==>
            if r == 0 then c == []
            else s != [] && ((c != [] && c[0] == s[0] && c[1..] in Combinations(s[1..], r - 1)) || c in Combinations(s[1..], r))
  {
    if r > 0 && s != [] { PrependHas(s[0], Combinations(s[1..], r - 1), c); }
    hide Prepend;
  }

  lemma {:induction false} KeptCombined<T>(s: seq<T>, keep: seq<bool>)
    requires |keep| == |s|
    ensures Kept(s, keep) in Combinations(s, |Kept(s, keep)|)
  {
    hide Combinations;
    var c := Kept(s, keep);
    CombinationsHave(s, |c|, c);
    if s != [] && c != [] {
      KeptCombined(s[1..], keep[1..]);
      if keep[0] { assert c[1..] == Kept(s[1..], keep[1..]); } else { assert c == Kept(s[1..], keep[1..]); }
    }
  }

  lemma {:induction false} CombinedKept<T>(s: seq<T>, r: nat, c: seq<T>) returns (keep: seq<bool>)
    requires c in Combinations(s, r)
    ensures |keep| == |s| && Kept(s, keep) == c
  {
    hide Combinations;
    CombinationsHave(s, r, c);
    if r == 0 {
      keep := seq(|s|, i => false);
      KeepNothing(s, keep);
    } else {
      var taken := c != [] && c[0] == s[0] && c[1..] in Combinations(s[1..], r - 1);
      var rest := if taken then c[1..] else c;
      var front := CombinedKept(s[1..], if taken then r - 1 else r, rest);
      keep := [taken] + front;
      assert keep[1..] == front;
    }
  }

  lemma {:induction false} KeepNothing<T>(s: seq<T>, keep: seq<bool>)
    requires |keep| == |s| && forall i :: 0 <= i < |keep| ==> !keep[i]
    ensures Kept(s, keep) == []
  {
    if s != [] { KeepNothing(s[1..], keep[1..]); }
  }

  lemma {:induction false} BelowIn<T>(s: seq<T>, n: nat, r: nat, c: seq<T>)
    requires r < n && c in Combinations(s, r)
    ensures c in CombinationsBelow(s, n)
  {
    hide Combinations;
    if r < n - 1 { BelowIn(s, n - 1, r, c); }
  }

  lemma {:induction false} BelowFrom<T>(s: seq<T>, n: nat, c: seq<T>) returns (r: nat)
    requires c in CombinationsBelow(s, n)
    ensures r < n && c in Combinations(s, r)
  {
    hide Combinations;
    if c in Combinations(s, n - 1) { r := n - 1; } else { r := BelowFrom(s, n - 1, c); }
  }

  /** The power set holds exactly the selections. */
  lemma PowerSetKept<T>(s: seq<T>, c: seq<T>)
    ensures c in PowerSet(s) <==> exists keep: seq<bool> :: |keep| == |s| && Kept(s, keep) == c
  {
    hide CombinationsBelow, Combinations;
    if c in PowerSet(s) {
      var r := BelowFrom(s, |s| + 1, c);
      var keep := CombinedKept(s, r, c);
    }
    if keep: seq<bool> :| |keep| == |s| && Kept(s, keep) == c {
      KeptCombined(s, keep);
      KeptSize(s, keep);
      BelowIn(s, |s| + 1, |c|, c);
    }
  }

  lemma {:induction false} EachHas<T>(xs: seq<T>, lists: seq<seq<T>>, p: seq<T>)
    ensures p in PrependEach(xs, lists) <==> p != [] && p[0] in xs && p[1..] in lists
  {
    if xs != [] {
      EachHas(xs[1..], lists, p);
      var first := Prepend(xs[0], lists);
      if p in first {
        var i :| 0 <= i < |first| && first[i] == p;
        assert p[1..] == lists[i];
      }
      if p != [] && p[0] == xs[0] && p[1..] in lists {
        var i :| 0 <= i < |lists| && lists[i] == p[1..];
        assert first[i] == p;
      }
    }
  }

  /** The product holds exactly the tuples with an element of each list. */
  lemma {:induction false} ProductHas<T>(lists: seq<seq<T>>, p: seq<T>)
    ensures p in Product(lists) <==> |p| == |lists| && forall i :: 0 <= i < |lists| ==> p[i] in lists[i]
  {
    if lists != [] {
      EachHas(lists[0], Product(lists[1..]), p);
      if p != [] {
        ProductHas(lists[1..], p[1..]);
        assert forall i :: 0 < i < |p| ==> p[i] == p[1..][i - 1];
        assert forall i :: 0 < i < |lists| ==> lists[i] == lists[1..][i - 1];
        if |p| == |lists| && forall i :: 0 <= i < |lists| ==> p[i] in lists[i] {
          forall i | 0 <= i < |lists| - 1 ensures p[1..][i] in lists[1..][i] {
            assert p[i + 1] in lists[i + 1];
          }
        }
      }
    }
  }

  // ----- tagsets

  function Choices<N, V>(tag: Tag<N, V>): (r: seq<Choice<N, V>>)
    ensures |r| == |tag.values| && forall i :: 0 <= i < |r| ==> r[i] == (tag.name, tag.values[i])
  {
    seq(|tag.values|, i requires 0 <= i < |tag.values| => (tag.name, tag.values[i]))
  }

  function ChoiceLists<N, V>(raw: seq<Tag<N, V>>): (r: seq<seq<Choice<N, V>>>)
    ensures |r| == |raw| && forall i :: 0 <= i < |raw| ==> r[i] == Choices(raw[i])
  {
    seq(|raw|, i requires 0 <= i < |raw| => Choices(raw[i]))
  }

  /** The dictionaries of a tuple merged from left to right; of none, the empty one. */
  function Merge<N, V>(c: seq<Choice<N, V>>): map<N, V> {
    if c == [] then map[] else Merge(c[..|c| - 1])[c[|c| - 1].0 := c[|c| - 1].1]
  }

  function Merges<N, V>(cs: seq<seq<Choice<N, V>>>): (r: seq<map<N, V>>)
    ensures |r| == |cs| && forall i :: 0 <= i < |cs| ==> r[i] == Merge(cs[i])
  {
    seq(|cs|, i requires 0 <= i < |cs| => Merge(cs[i]))
  }

  /** Every selection from every tuple, merged. */
  function Selections<N, V>(tuples: seq<seq<Choice<N, V>>>): seq<map<N, V>> {
    if tuples == [] then [] else Selections(tuples[..|tuples| - 1]) + Merges(PowerSet(tuples[|tuples| - 1]))
  }

  /** First occurrences only. */
  function Unique<T(==)>(s: seq<T>): seq<T> {
    if s == [] then []
    else
      var front, x := Unique(s[..|s| - 1]), s[|s| - 1];
      if x in front then front else front + [x]
  }

  function Tagsets<N, V(==)>(raw: seq<Tag<N, V>>): seq<map<N, V>> {
    Unique(Selections(Product(ChoiceLists(raw))))
  }

  /** generate_dynamic_tagsets. */
  method GenerateDynamicTagsets<N(==), V(==)>(raw: seq<Tag<N, V>>) returns (tagsets: seq<map<N, V>>)
    ensures tagsets == Tagsets(raw)
  {
    hide Product, PowerSet, Merge, Merges, Selections, Unique;
    var lists: seq<seq<Choice<N, V>>> := [];
    for i := 0 to |raw|
      invariant |lists| == i && forall j :: 0 <= j < i ==> lists[j] == Choices(raw[j])
    {
      lists := lists + [Choices(raw[i])];
    }
    assert lists == ChoiceLists(raw);
    var tuples := Product(lists);
    var all: seq<map<N, V>> := [];
    NoSelections(tuples[..0]);
    for i := 0 to |tuples|
      invariant all == Selections(tuples[..i])
    {
      var subsets := PowerSet(tuples[i]);
      ghost var before := all;
      for j := 0 to |subsets|
        invariant all == before + Merges(subsets)[..j]
      {
        all := all + [Merge(subsets[j])];
      }
      assert Merges(subsets)[..|subsets|] == Merges(subsets);
      SelectionsStep(tuples, i);
    }
    assert tuples[..|tuples|] == tuples;
    tagsets := RemoveDuplicates(all);
  }

  lemma NoSelections<N, V>(tuples: seq<seq<Choice<N, V>>>)
    requires tuples == []
    ensures Selections(tuples) == []
  {
  }

  lemma SelectionsStep<N, V>(tuples: seq<seq<Choice<N, V>>>, i: nat)
    requires i < |tuples|
    ensures Selections(tuples[..i + 1]) == Selections(tuples[..i]) + Merges(PowerSet(tuples[i]))
  {
    assert tuples[..i + 1][..i] == tuples[..i];
  }

  /** An ordered dictionary keeps the place of the first occurrence. */
  method RemoveDuplicates<T(==)>(s: seq<T>) returns (r: seq<T>)
    ensures r == Unique(s)
  {
    r := [];
    for i := 0 to |s|
      invariant r == Unique(s[..i])
    {
      assert s[..i + 1][..i] == s[..i];
      if s[i] !in r { r := r + [s[i]]; }
    }
    assert s[..|s|] == s;
  }

  // ----- what the result is

  ghost predicate NamesDistinct<N, V>(raw: seq<Tag<N, V>>) {
    forall i, j :: 0 <= i < j < |raw| ==> raw[i].name != raw[j].name
  }

  /** Every tag has a value to choose. */
  ghost predicate AllValued<N, V>(raw: seq<Tag<N, V>>) {
    forall i :: 0 <= i < |raw| ==> raw[i].values != []
  }

  ghost predicate Allows<N, V>(raw: seq<Tag<N, V>>, n: N, v: V) {
    exists i :: 0 <= i < |raw| && raw[i].name == n && v in raw[i].values
  }

  /** A value for some of the tags, each one listed for its tag. */
  ghost predicate Partial<N(!new), V>(raw: seq<Tag<N, V>>, m: map<N, V>) {
    forall n :: n in m ==> Allows(raw, n, m[n])
  }

  lemma {:induction false} UniqueSame<T>(s: seq<T>)
    ensures forall x :: x in Unique(s) <==> x in s
    ensures forall i, j :: 0 <= i < j < |Unique(s)| ==> Unique(s)[i] != Unique(s)[j]
  {
    if s != [] {
      UniqueSame(s[..|s| - 1]);
      assert s == s[..|s| - 1] + [s[|s| - 1]];
    }
  }

  lemma {:induction false} SelectionsHave<N, V>(tuples: seq<seq<Choice<N, V>>>, m: map<N, V>)
    ensures m in Selections(tuples) <==> exists p, c :: p in tuples && c in PowerSet(p) && m == Merge(c)
  {
    hide PowerSet, Merge;
    if tuples != [] {
      var front, last := tuples[..|tuples| - 1], tuples[|tuples| - 1];
      SelectionsHave(front, m);
      assert tuples == front + [last];
      MergesHave(PowerSet(last), m);
    }
  }

  lemma MergesHave<N, V>(cs: seq<seq<Choice<N, V>>>, m: map<N, V>)
    ensures m in Merges(cs) <==> exists c :: c in cs && m == Merge(c)
  {
    hide Merge;
    if m in Merges(cs) {
      var i :| 0 <= i < |cs| && Merges(cs)[i] == m;
      assert cs[i] in cs;
    }
    if c :| c in cs && m == Merge(c) {
      var i :| 0 <= i < |cs| && cs[i] == c;
      assert Merges(cs)[i] == m;
    }
  }

  lemma {:induction false} MergeConcat<N, V>(a: seq<Choice<N, V>>, b: seq<Choice<N, V>>)
    ensures Merge(a + b) == Merge(a) + Merge(b)
  {
    if b == [] {
      assert a + b == a;
    } else {
      assert (a + b)[..|a + b| - 1] == a + b[..|b| - 1];
      MergeConcat(a, b[..|b| - 1]);
    }
  }

  lemma MergeOne<N, V>(c: Choice<N, V>)
    ensures Merge([c]) == map[c.0 := c.1]
  {
    assert [c][..0] == [];
  }

  /** Merging a selection from a tuple with distinct names binds exactly the selected names. */
  lemma {:induction false} MergeKept<N(!new), V>(p: seq<Choice<N, V>>, keep: seq<bool>)
    requires |keep| == |p| && forall i, j :: 0 <= i < j < |p| ==> p[i].0 != p[j].0
    ensures var m := Merge(Kept(p, keep));
            && (forall i :: 0 <= i < |p| ==> (p[i].0 in m <==> keep[i]) && (keep[i] ==> m[p[i].0] == p[i].1))
            && forall n :: n in m ==> exists i :: 0 <= i < |p| && p[i].0 == n
  {
    if p != [] {
      MergeKept(p[1..], keep[1..]);
      var rest := Kept(p[1..], keep[1..]);
      var m, tail := Merge(Kept(p, keep)), Merge(rest);
      if keep[0] {
        MergeConcat([p[0]], rest);
        MergeOne(p[0]);
      } else {
        assert Kept(p, keep) == rest;
      }
      hide Merge, Kept;
      assert forall i :: 0 < i < |p| ==> p[i] == p[1..][i - 1] && keep[i] == keep[1..][i - 1];
      assert p[0].0 !in tail;
      forall n | n in m ensures exists i :: 0 <= i < |p| && p[i].0 == n {
        if n in tail {
          var i :| 0 <= i < |p| - 1 && p[1..][i].0 == n;
          assert p[i + 1].0 == n;
        }
      }
    }
  }

  lemma SelectedPartial<N(!new), V>(raw: seq<Tag<N, V>>, m: map<N, V>)
    requires NamesDistinct(raw) && m in Selections(Product(ChoiceLists(raw)))
    ensures Partial(raw, m)
  {
    var lists := ChoiceLists(raw);
    SelectionsHave(Product(lists), m);
    var p: seq<Choice<N, V>>, c: seq<Choice<N, V>> :| p in Product(lists) && c in PowerSet(p) && m == Merge(c);
    ProductHas(lists, p);
    PowerSetKept(p, c);
    var keep: seq<bool> :| |keep| == |p| && Kept(p, keep) == c;
    hide Product, PowerSet, Merge, Kept;
    forall i | 0 <= i < |p| ensures p[i].0 == raw[i].name && p[i].1 in raw[i].values {
      assert p[i] in Choices(raw[i]);
    }
    MergeKept(p, keep);
    forall n | n in m ensures Allows(raw, n, m[n]) {
      var i :| 0 <= i < |p| && p[i].0 == n;
      assert m[n] == p[i].1;
    }
  }

  /** The tuple that agrees with `m` where `m` binds the tag, and takes the first value elsewhere. */
  function TupleOf<N, V>(raw: seq<Tag<N, V>>, m: map<N, V>): (p: seq<Choice<N, V>>)
    requires forall i :: 0 <= i < |raw| ==> raw[i].values != []
    ensures |p| == |raw| && forall i :: 0 <= i < |raw| ==>
                            p[i] == (raw[i].name, if raw[i].name in m then m[raw[i].name] else raw[i].values[0])
  {
    seq(|raw|, i requires 0 <= i < |raw| => (raw[i].name, if raw[i].name in m then m[raw[i].name] else raw[i].values[0]))
  }

  lemma PartialSelected<N(!new), V>(raw: seq<Tag<N, V>>, m: map<N, V>)
    requires NamesDistinct(raw) && AllValued(raw) && Partial(raw, m)
    ensures m in Selections(Product(ChoiceLists(raw)))
  {
    var lists, p := ChoiceLists(raw), TupleOf(raw, m);
    var keep := seq(|raw|, i requires 0 <= i < |raw| => raw[i].name in m);
    var c := Kept(p, keep);
    TupleListed(raw, m);
    ProductHas(lists, p);
    PowerSetKept(p, c);
    KeptMerges(raw, m, p, keep);
    hide Product, PowerSet, Merge, Kept, TupleOf, ChoiceLists, Partial, AllValued;
    SelectionsHave(Product(lists), m);
  }

  lemma TupleListed<N(!new), V>(raw: seq<Tag<N, V>>, m: map<N, V>)
    requires AllValued(raw) && Partial(raw, m) && NamesDistinct(raw)
    ensures forall i :: 0 <= i < |raw| ==> TupleOf(raw, m)[i] in ChoiceLists(raw)[i]
  {
    var p := TupleOf(raw, m);
    forall i | 0 <= i < |raw| ensures p[i] in ChoiceLists(raw)[i] {
      if raw[i].name in m {
        assert Allows(raw, raw[i].name, m[raw[i].name]);
      }
      assert p[i].1 in raw[i].values;
      var j :| 0 <= j < |raw[i].values| && raw[i].values[j] == p[i].1;
      assert Choices(raw[i])[j] == p[i];
    }
  }

  lemma KeptMerges<N(!new), V>(raw: seq<Tag<N, V>>, m: map<N, V>, p: seq<Choice<N, V>>, keep: seq<bool>)
    requires NamesDistinct(raw) && Partial(raw, m) && |p| == |keep| == |raw|
    requires forall i :: 0 <= i < |raw| ==> p[i].0 == raw[i].name && keep[i] == (raw[i].name in m)
    requires forall i :: 0 <= i < |raw| && keep[i] ==> p[i].1 == m[raw[i].name]
    ensures Merge(Kept(p, keep)) == m
  {
    MergeKept(p, keep);
    hide Merge, Kept;
    var merged := Merge(Kept(p, keep));
    forall n ensures n in m <==> n in merged {
      if n in m {
        assert Allows(raw, n, m[n]);
        var i :| 0 <= i < |raw| && raw[i].name == n && m[n] in raw[i].values;
        assert p[i].0 == n && keep[i];
      }
    }
    forall n | n in m ensures merged[n] == m[n] {
      var i :| 0 <= i < |p| && p[i].0 == n;
      assert keep[i];
    }
  }

  /** Every tag having a value, the tagsets are exactly the partial assignments, each once. */
  lemma TagsetsExact<N(!new), V>(raw: seq<Tag<N, V>>)
    requires NamesDistinct(raw) && AllValued(raw)
    ensures forall m :: m in Tagsets(raw) <==> Partial(raw, m)
    ensures forall i, j :: 0 <= i < j < |Tagsets(raw)| ==> Tagsets(raw)[i] != Tagsets(raw)[j]
  {
    var all := Selections(Product(ChoiceLists(raw)));
    UniqueSame(all);
    hide Unique, Selections, Product, ChoiceLists, Partial, AllValued;
    forall m ensures m in all <==> Partial(raw, m) {
      if m in all { SelectedPartial(raw, m); }
      if Partial(raw, m) { PartialSelected(raw, m); }
    }
  }

  /** One tag without a value empties the result, although choosing nothing would still be a partial assignment. */
  lemma TagsetsComplete<N(!new), V>(raw: seq<Tag<N, V>>)
    requires NamesDistinct(raw)
    ensures (forall m :: m in Tagsets(raw) <==> Partial(raw, m)) <==> AllValued(raw)
  {
    if AllValued(raw) {
      TagsetsExact(raw);
    } else {
      assert Partial(raw, map[]);
      UniqueSame(Selections(Product(ChoiceLists(raw))));
      hide Unique, Selections, ChoiceLists, Product;
      NoTuples(raw);
      NoSelections(Product(ChoiceLists(raw)));
    }
  }

  lemma NoTuples<N, V>(raw: seq<Tag<N, V>>)
    requires !AllValued(raw)
    ensures Product(ChoiceLists(raw)) == []
  {
    var lists := ChoiceLists(raw);
    hide Product, ChoiceLists;
    var i :| 0 <= i < |raw| && raw[i].values == [];
    assert lists[i] == Choices(raw[i]) == [];
    var first := if Product(lists) == [] then [] else Product(lists)[0];
    ProductHas(lists, first);
  }

  // ----- how many

  /** The product of (distinct values + 1) over the tags. */
  function Count<N, V(==)>(raw: seq<Tag<N, V>>): nat {
    if raw == [] then 1 else (|Unique(raw[0].values)| + 1) * Count(raw[1..])
  }

  /** The assignments for `raw`, listed tag by tag. */
  function Listed<N, V(==)>(raw: seq<Tag<N, V>>): seq<map<N, V>> {
    if raw == [] then [map[]]
    else Listed(raw[1..]) + BindEach(raw[0].name, Unique(raw[0].values), Listed(raw[1..]))
  }

  function BindEach<N, V>(n: N, vs: seq<V>, ms: seq<map<N, V>>): (r: seq<map<N, V>>)
  {
    if vs == [] then [] else Bind(n, vs[0], ms) + BindEach(n, vs[1..], ms)
  }

  function Bind<N, V>(n: N, v: V, ms: seq<map<N, V>>): (r: seq<map<N, V>>)
    ensures |r| == |ms| && forall i :: 0 <= i < |ms| ==> r[i] == ms[i][n := v]
  {
    seq(|ms|, i requires 0 <= i < |ms| => ms[i][n := v])
  }

  lemma {:induction false} BindEachSize<N, V>(n: N, vs: seq<V>, ms: seq<map<N, V>>)
    ensures |BindEach(n, vs, ms)| == |vs| * |ms|
  {
    if vs != [] {
      BindEachSize(n, vs[1..], ms);
      OneMore(|vs| - 1, |ms|);
    }
  }

  lemma {:induction false} BindEachAt<N, V>(n: N, vs: seq<V>, ms: seq<map<N, V>>, i: nat) returns (a: nat, b: nat)
    requires i < |BindEach(n, vs, ms)|
    ensures a < |vs| && b < |ms| && BindEach(n, vs, ms)[i] == ms[b][n := vs[a]] && i == a * |ms| + b
  {
    if i < |ms| {
      a, b := 0, i;
    } else {
      a, b := BindEachAt(n, vs[1..], ms, i - |ms|);
      OneMore(a, |ms|);
      a := a + 1;
    }
  }

  lemma OneMore(a: nat, k: nat)
    ensures (a + 1) * k == a * k + k
  {
  }

  lemma {:induction false} BindEachHas<N, V>(n: N, vs: seq<V>, ms: seq<map<N, V>>, v: V, m: map<N, V>)
    requires v in vs && m in ms
    ensures m[n := v] in BindEach(n, vs, ms)
  {
    var first := Bind(n, vs[0], ms);
    if v == vs[0] {
      var i :| 0 <= i < |ms| && ms[i] == m;
      assert first[i] == m[n := v];
    } else {
      BindEachHas(n, vs[1..], ms, v, m);
    }
  }

  ghost predicate Single<T>(s: seq<T>) {
    forall i, j :: 0 <= i < j < |s| ==> s[i] != s[j]
  }

  lemma {:induction false} ListedSize<N, V>(raw: seq<Tag<N, V>>)
    ensures |Listed(raw)| == Count(raw)
  {
    if raw != [] {
      ListedSize(raw[1..]);
      BindEachSize(raw[0].name, Unique(raw[0].values), Listed(raw[1..]));
      OneMore(|Unique(raw[0].values)|, Count(raw[1..]));
      hide Unique;
    }
  }

  /** The listing holds exactly the partial assignments. */
  lemma {:induction false} ListedPartial<N(!new), V>(raw: seq<Tag<N, V>>, m: map<N, V>)
    requires NamesDistinct(raw)
    ensures m in Listed(raw) <==> Partial(raw, m)
    decreases |raw|
  {
    if raw == [] {
      if Partial(raw, m) { NothingAllowed(raw, m); }
    } else {
      var n, vs, rest := raw[0].name, Unique(raw[0].values), Listed(raw[1..]);
      if m in Listed(raw) { ListedIsPartial(raw, m); }
      if Partial(raw, m) { PartialIsListed(raw, m); }
    }
  }

  lemma NothingAllowed<N(!new), V>(raw: seq<Tag<N, V>>, m: map<N, V>)
    requires raw == [] && Partial(raw, m)
    ensures m == map[]
  {
    assert forall n, v :: !Allows(raw, n, v);
  }

  lemma PartialWiden<N(!new), V>(raw: seq<Tag<N, V>>, m: map<N, V>)
    requires raw != [] && Partial(raw[1..], m)
    ensures Partial(raw, m)
  {
    forall n | n in m ensures Allows(raw, n, m[n]) {
      assert Allows(raw[1..], n, m[n]);
      var i :| 0 <= i < |raw| - 1 && raw[1..][i].name == n && m[n] in raw[1..][i].values;
      assert raw[i + 1].name == n;
    }
  }

  lemma ListedIsPartial<N(!new), V>(raw: seq<Tag<N, V>>, m: map<N, V>)
    requires NamesDistinct(raw) && raw != [] && m in Listed(raw)
    ensures Partial(raw, m)
    decreases |raw|, 0
  {
    var n, vs, rest := raw[0].name, Unique(raw[0].values), Listed(raw[1..]);
    if m in rest {
      ListedPartial(raw[1..], m);
      PartialWiden(raw, m);
    } else {
      var each := BindEach(n, vs, rest);
      var i :| 0 <= i < |each| && each[i] == m;
      var a, b := BindEachAt(n, vs, rest, i);
      ListedPartial(raw[1..], rest[b]);
      PartialWiden(raw, rest[b]);
      UniqueSame(raw[0].values);
      hide Unique, Listed, BindEach;
      forall x | x in m ensures Allows(raw, x, m[x]) {
        if x == n { assert raw[0].name == x && vs[a] in raw[0].values; } else { assert Allows(raw, x, rest[b][x]); }
      }
    }
  }

  lemma PartialNarrow<N(!new), V>(raw: seq<Tag<N, V>>, m: map<N, V>)
    requires raw != [] && Partial(raw, m) && raw[0].name !in m
    ensures Partial(raw[1..], m)
  {
    forall n | n in m ensures Allows(raw[1..], n, m[n]) {
      assert Allows(raw, n, m[n]);
      var i :| 0 <= i < |raw| && raw[i].name == n && m[n] in raw[i].values;
      assert raw[1..][i - 1] == raw[i];
    }
  }

  lemma PartialIsListed<N(!new), V>(raw: seq<Tag<N, V>>, m: map<N, V>)
    requires NamesDistinct(raw) && raw != [] && Partial(raw, m)
    ensures m in Listed(raw)
    decreases |raw|, 0
  {
    var n, vs, rest := raw[0].name, Unique(raw[0].values), Listed(raw[1..]);
    if n !in m {
      PartialNarrow(raw, m);
      ListedPartial(raw[1..], m);
    } else {
      var without := m - {n};
      forall x | x in without ensures Allows(raw, x, without[x]) { assert Allows(raw, x, m[x]); }
      PartialNarrow(raw, without);
      ListedPartial(raw[1..], without);
      assert Allows(raw, n, m[n]);
      assert m[n] in raw[0].values;
      UniqueSame(raw[0].values);
      hide Unique, BindEach;
      BindEachHas(n, vs, rest, m[n], without);
      assert m == without[n := m[n]];
    }
  }

  /** No assignment is listed twice. */
  lemma {:induction false} ListedSingle<N(!new), V>(raw: seq<Tag<N, V>>)
    requires NamesDistinct(raw)
    ensures Single(Listed(raw))
    decreases |raw|
  {
    if raw != [] {
      var n, vs, rest := raw[0].name, Unique(raw[0].values), Listed(raw[1..]);
      ListedSingle(raw[1..]);
      UniqueSame(raw[0].values);
      forall b | 0 <= b < |rest| ensures n !in rest[b] {
        ListedPartial(raw[1..], rest[b]);
        if n in rest[b] { Unnamed(raw, n, rest[b][n]); }
      }
      hide Unique, Listed;
      BoundSingle(n, vs, rest);
      JoinSingle(n, rest, BindEach(n, vs, rest), vs);
    }
  }

  lemma Unnamed<N, V>(raw: seq<Tag<N, V>>, n: N, v: V)
    requires NamesDistinct(raw) && raw != [] && n == raw[0].name
    ensures !Allows(raw[1..], n, v)
  {
  }

  lemma BoundSingle<N, V>(n: N, vs: seq<V>, ms: seq<map<N, V>>)
    requires Single(vs) && Single(ms) && forall b :: 0 <= b < |ms| ==> n !in ms[b]
    ensures Single(BindEach(n, vs, ms))
  {
    var each := BindEach(n, vs, ms);
    forall i, j | 0 <= i < j < |each| ensures each[i] != each[j] {
      var a, b := BindEachAt(n, vs, ms, i);
      var c, d := BindEachAt(n, vs, ms, j);
      hide BindEach;
      assert each[i][n] == vs[a] && each[j][n] == vs[c];
      assert each[i] - {n} == ms[b] && each[j] - {n} == ms[d];
    }
  }

  lemma JoinSingle<N, V>(n: N, ms: seq<map<N, V>>, each: seq<map<N, V>>, vs: seq<V>)
    requires Single(ms) && Single(each) && each == BindEach(n, vs, ms) && forall b :: 0 <= b < |ms| ==> n !in ms[b]
    ensures Single(ms + each)
  {
    forall j | 0 <= j < |each| ensures n in each[j] {
      var a, b := BindEachAt(n, vs, ms, j);
    }
  }

  /** Two lists without repetition and with the same members are equally long. */
  lemma SameSize<T>(a: seq<T>, b: seq<T>)
    requires Single(a) && Single(b) && forall x :: x in a <==> x in b
    ensures |a| == |b|
  {
    SetSize(a);
    SetSize(b);
    assert (set x | x in a) == set x | x in b;
  }

  lemma {:induction false} SetSize<T>(s: seq<T>)
    requires Single(s)
    ensures |set x | x in s| == |s|
  {
    if s != [] {
      var front, last := s[..|s| - 1], s[|s| - 1];
      SetSize(front);
      assert s == front + [last];
      assert (set x | x in s) == (set x | x in front) + {last};
    }
  }

  /** The number of tagsets is the product of (distinct values + 1). */
  lemma TagsetsCount<N(!new), V>(raw: seq<Tag<N, V>>)
    requires NamesDistinct(raw) && AllValued(raw)
    ensures |Tagsets(raw)| == Count(raw)
  {
    TagsetsExact(raw);
    hide Tagsets, Listed, Count;
    forall m ensures m in Tagsets(raw) <==> m in Listed(raw) { ListedPartial(raw, m); }
    ListedSingle(raw);
    SameSize(Tagsets(raw), Listed(raw));
    ListedSize(raw);
  }
}
