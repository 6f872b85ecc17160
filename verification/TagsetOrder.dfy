/** In which order the dynamic tagsets come: by the places of the values chosen and of the tags kept. */
module TagsetOrder {
  import opened Tagsets

  /** Lexicographic order, on lists of one length. */
  predicate Less(a: seq<nat>, b: seq<nat>)
    decreases |a|
  {
    a != [] && b != [] && (a[0] < b[0] || (a[0] == b[0] && Less(a[1..], b[1..])))
  }

  /** Smaller selections first, those of one size in lexicographic order. */
  predicate Smaller(a: seq<nat>, b: seq<nat>) {
    |a| < |b| || (|a| == |b| && Less(a, b))
  }

  /** Rising places from `lo` up to `n`. */
  ghost predicate Places(k: seq<nat>, lo: nat, n: nat) {
    (forall i :: 0 <= i < |k| ==> lo <= k[i] < n) && forall i, j :: 0 <= i < j < |k| ==> k[i] < k[j]
  }

  /** `c` holds the elements of `s` at the places `k`. */
  ghost predicate Picks<T>(s: seq<T>, k: seq<nat>, c: seq<T>) {
    |c| == |k| && forall i :: 0 <= i < |k| ==> k[i] < |s| && c[i] == s[k[i]]
  }

  ghost predicate PickEach<T>(s: seq<T>, ks: seq<seq<nat>>, cs: seq<seq<T>>) {
    |cs| == |ks| && forall i :: 0 <= i < |ks| ==> Picks(s, ks[i], cs[i])
  }

  function Up(lo: nat, n: nat): (r: seq<nat>)
    requires lo <= n
    ensures |r| == n - lo && forall i :: 0 <= i < n - lo ==> r[i] == lo + i
  {
    seq(n - lo, i => lo + i)
  }

  lemma UpStep(lo: nat, n: nat)
    requires lo < n
    ensures Up(lo, n)[0] == lo && Up(lo, n)[1..] == Up(lo + 1, n)
  {
  }

  // ----- combinations

  /** All selections of `r` places from `lo` on, each before the lexicographically greater ones. */
  ghost predicate Combined(ks: seq<seq<nat>>, r: nat, lo: nat, n: nat) {
    && (forall k :: k in ks <==> |k| == r && Places(k, lo, n))
    && forall i, j :: 0 <= i < j < |ks| ==> Less(ks[i], ks[j])
  }

  lemma PlacesFirst(k: seq<nat>, lo: nat, n: nat)
    requires k != [] && lo < n
    ensures Places(k, lo, n) ==> if k[0] == lo then Places(k[1..], lo + 1, n) else Places(k, lo + 1, n)
    ensures Places(k, lo + 1, n) || (k[0] == lo && Places(k[1..], lo + 1, n)) ==> Places(k, lo, n)
  {
    var more := k[1..];
    assert forall i :: 0 < i < |k| ==> k[i] == more[i - 1];
    if Places(more, lo + 1, n) && k[0] == lo { assert forall i, j :: 0 <= i < j < |k| ==> k[i] < k[j]; }
  }

  lemma PrependSorted(x: nat, ks: seq<seq<nat>>)
    requires forall i, j :: 0 <= i < j < |ks| ==> Less(ks[i], ks[j])
    ensures forall i, j :: 0 <= i < j < |ks| ==> Less(Prepend(x, ks)[i], Prepend(x, ks)[j])
  {
    forall i, j | 0 <= i < j < |ks| ensures Less(Prepend(x, ks)[i], Prepend(x, ks)[j]) {
      assert ([x] + ks[i])[1..] == ks[i] && ([x] + ks[j])[1..] == ks[j];
    }
  }

  lemma {:induction false} CombinationsCombined(r: nat, lo: nat, n: nat)
    requires lo <= n
    ensures Combined(Combinations(Up(lo, n), r), r, lo, n)
    decreases n - lo
  {
    hide Combined, Combinations, Up;
    if r == 0 || lo == n {
      FewCombined(r, lo, n);
    } else {
      CombinationsCombined(r - 1, lo + 1, n);
      CombinationsCombined(r, lo + 1, n);
      UpStep(lo, n);
      CombinationsSplit(Up(lo, n), r);
      CombinedStep(r, lo, n, Combinations(Up(lo + 1, n), r - 1), Combinations(Up(lo + 1, n), r));
    }
  }

  lemma FewCombined(r: nat, lo: nat, n: nat)
    requires lo <= n && (r == 0 || lo == n)
    ensures Combined(Combinations(Up(lo, n), r), r, lo, n)
  {
    var ks := Combinations(Up(lo, n), r);
    assert ks == if r == 0 then [[]] else [];
    hide Combinations, Up;
    if r == 0 {
      forall k ensures k in ks <==> |k| == r && Places(k, lo, n) {
        if k == [] { assert ks[0] == k; }
      }
    } else {
      forall k | |k| == r ensures !Places(k, lo, n) { assert !(lo <= k[0] < n); }
    }
  }

  lemma CombinedStep(r: nat, lo: nat, n: nat, with: seq<seq<nat>>, without: seq<seq<nat>>)
    requires lo < n && r > 0 && Combined(with, r - 1, lo + 1, n) && Combined(without, r, lo + 1, n)
    ensures Combined(Prepend(lo, with) + without, r, lo, n)
  {
    hide Less, Places, Prepend;
    forall k ensures k in Prepend(lo, with) + without <==> |k| == r && Places(k, lo, n) {
      PrependHas(lo, with, k);
      if k != [] { PlacesFirst(k, lo, n); }
    }
    PrependSorted(lo, with);
    forall i | 0 <= i < |without| ensures without[i] != [] && without[i][0] > lo {
      assert without[i] in without;
      PlacesAbove(without[i], lo, n);
    }
    JoinedSorted(lo, Prepend(lo, with), without);
  }

  lemma PlacesAbove(k: seq<nat>, lo: nat, n: nat)
    requires Places(k, lo + 1, n) && k != []
    ensures k[0] > lo
  {
  }

  lemma JoinedSorted(x: nat, a: seq<seq<nat>>, b: seq<seq<nat>>)
    requires forall i, j :: 0 <= i < j < |a| ==> Less(a[i], a[j])
    requires forall i, j :: 0 <= i < j < |b| ==> Less(b[i], b[j])
    requires (forall i :: 0 <= i < |a| ==> a[i] != [] && a[i][0] == x) && forall i :: 0 <= i < |b| ==> b[i] != [] && b[i][0] > x
    ensures forall i, j :: 0 <= i < j < |a + b| ==> Less((a + b)[i], (a + b)[j])
  {
  }

  // ----- the power set

  /** Selecting elements is picking them at selected places. */
  lemma {:induction false} CombinationsPick<T>(s: seq<T>, r: nat, lo: nat)
    requires lo <= |s|
    ensures PickEach(s, Combinations(Up(lo, |s|), r), Combinations(s[lo..], r))
    decreases |s| - lo
  {
    hide Combinations, Up, PickEach;
    if r == 0 || lo == |s| {
      FewPicked(s, r, lo);
    } else {
      CombinationsPick(s, r - 1, lo + 1);
      CombinationsPick(s, r, lo + 1);
      UpStep(lo, |s|);
      assert s[lo..][1..] == s[lo + 1..];
      CombinationsSplit(Up(lo, |s|), r);
      CombinationsSplit(s[lo..], r);
      PickBoth(s, lo, Combinations(Up(lo + 1, |s|), r - 1), Combinations(Up(lo + 1, |s|), r),
               Combinations(s[lo + 1..], r - 1), Combinations(s[lo + 1..], r));
    }
  }

  lemma FewPicked<T>(s: seq<T>, r: nat, lo: nat)
    requires lo <= |s| && (r == 0 || lo == |s|)
    ensures PickEach(s, Combinations(Up(lo, |s|), r), Combinations(s[lo..], r))
  {
    if r == 0 { assert Picks(s, [], []); }
  }

  lemma CombinationsSplit<T>(s: seq<T>, r: nat)
    requires r > 0 && s != []
    ensures Combinations(s, r) == Prepend(s[0], Combinations(s[1..], r - 1)) + Combinations(s[1..], r)
  {
  }

  lemma PickBoth<T>(s: seq<T>, x: nat, with: seq<seq<nat>>, without: seq<seq<nat>>, a: seq<seq<T>>, b: seq<seq<T>>)
    requires x < |s| && PickEach(s, with, a) && PickEach(s, without, b)
    ensures PickEach(s, Prepend(x, with) + without, Prepend(s[x], a) + b)
  {
    hide Prepend;
    forall i | 0 <= i < |with| ensures Picks(s, [x] + with[i], [s[x]] + a[i]) {
      assert Picks(s, with[i], a[i]);
    }
  }

  /** All selections of less than `m` places below `n`, each before the greater ones. */
  ghost predicate Selected(ks: seq<seq<nat>>, m: nat, n: nat) {
    && (forall k :: k in ks <==> |k| < m && Places(k, 0, n))
    && forall i, j :: 0 <= i < j < |ks| ==> Smaller(ks[i], ks[j])
  }

  lemma SelectedStep(a: seq<seq<nat>>, b: seq<seq<nat>>, m: nat, n: nat)
    requires Selected(a, m, n) && Combined(b, m, 0, n)
    ensures Selected(a + b, m + 1, n)
  {
    hide Less, Places;
    forall i, j | 0 <= i < j < |a + b| ensures Smaller((a + b)[i], (a + b)[j]) {
      if i < |a| {
        assert a[i] in a;
        if j >= |a| { assert b[j - |a|] in b; }
      } else {
        assert b[i - |a|] in b && b[j - |a|] in b;
      }
    }
  }

  lemma BelowStep<T>(s: seq<T>, m: nat)
    ensures CombinationsBelow(s, 0) == []
    ensures m > 0 ==> CombinationsBelow(s, m) == CombinationsBelow(s, m - 1) + Combinations(s, m - 1)
  {
  }

  lemma NoneSelected(ks: seq<seq<nat>>, n: nat)
    requires ks == []
    ensures Selected(ks, 0, n)
  {
  }

  lemma {:induction false} BelowSelected(m: nat, n: nat)
    ensures Selected(CombinationsBelow(Up(0, n), m), m, n)
  {
    hide *;
    BelowStep(Up(0, n), m);
    if m == 0 {
      NoneSelected(CombinationsBelow(Up(0, n), m), n);
    } else {
      BelowSelected(m - 1, n);
      CombinationsCombined(m - 1, 0, n);
      SelectedStep(CombinationsBelow(Up(0, n), m - 1), Combinations(Up(0, n), m - 1), m - 1, n);
    }
  }

  lemma PickConcat<T>(s: seq<T>, ks: seq<seq<nat>>, ls: seq<seq<nat>>, a: seq<seq<T>>, b: seq<seq<T>>)
    requires PickEach(s, ks, a) && PickEach(s, ls, b)
    ensures PickEach(s, ks + ls, a + b)
  {
    hide Picks;
  }

  lemma PickNone<T>(s: seq<T>)
    ensures PickEach(s, [], [])
  {
  }

  lemma {:induction false} BelowPick<T>(s: seq<T>, m: nat)
    ensures PickEach(s, CombinationsBelow(Up(0, |s|), m), CombinationsBelow(s, m))
  {
    hide *;
    BelowStep(Up(0, |s|), m);
    BelowStep(s, m);
    PickNone(s);
    if m > 0 {
      BelowPick(s, m - 1);
      CombinationsPick(s, m - 1, 0);
      assert s[0..] == s;
      PickConcat(s, CombinationsBelow(Up(0, |s|), m - 1), Combinations(Up(0, |s|), m - 1),
                 CombinationsBelow(s, m - 1), Combinations(s, m - 1));
    }
  }

  lemma {:induction false} PlacesFew(k: seq<nat>, lo: nat, n: nat)
    requires Places(k, lo, n) && lo <= n
    ensures |k| <= n - lo
    decreases |k|
  {
    if k != [] { PlacesFew(k[1..], k[0] + 1, n); }
  }

  lemma PlacesPowerSet<T>(s: seq<T>)
    ensures var ks := PowerSet(Up(0, |s|));
            && (forall k :: k in ks <==> Places(k, 0, |s|))
            && (forall i, j :: 0 <= i < j < |ks| ==> Smaller(ks[i], ks[j]))
            && PickEach(s, ks, PowerSet(s))
  {
    BelowSelected(|s| + 1, |s|);
    BelowPick(s, |s| + 1);
    hide CombinationsBelow, Up, Smaller, PickEach;
    forall k | Places(k, 0, |s|) ensures k in PowerSet(Up(0, |s|)) { PlacesFew(k, 0, |s|); }
  }

  /** The power set lists every selection of places once: sizes never fall, and those of one size rise lexicographically. */
  lemma PowerSetOrder<T>(s: seq<T>) returns (ks: seq<seq<nat>>)
    ensures forall k :: k in ks <==> Places(k, 0, |s|)
    ensures forall i, j :: 0 <= i < j < |ks| ==> Smaller(ks[i], ks[j])
    ensures PickEach(s, ks, PowerSet(s))
  {
    PlacesPowerSet(s);
    ks := PowerSet(Up(0, |s|));
  }

  // ----- the product

  /** A place in each list. */
  ghost predicate Within<T>(p: seq<nat>, lists: seq<seq<T>>) {
    |p| == |lists| && forall i :: 0 <= i < |p| ==> p[i] < |lists[i]|
  }

  /** `c` holds the element of each list at its place. */
  ghost predicate Takes<T>(lists: seq<seq<T>>, p: seq<nat>, c: seq<T>) {
    |c| == |p| == |lists| && forall i :: 0 <= i < |p| ==> p[i] < |lists[i]| && c[i] == lists[i][p[i]]
  }

  ghost predicate TakeEach<T>(lists: seq<seq<T>>, ps: seq<seq<nat>>, cs: seq<seq<T>>) {
    |cs| == |ps| && forall i :: 0 <= i < |ps| ==> Takes(lists, ps[i], cs[i])
  }

  ghost predicate Sorted(ps: seq<seq<nat>>) {
    forall i, j :: 0 <= i < j < |ps| ==> Less(ps[i], ps[j])
  }

  function Ranges<T>(lists: seq<seq<T>>): (r: seq<seq<nat>>)
    ensures |r| == |lists| && forall i :: 0 <= i < |r| ==> r[i] == Up(0, |lists[i]|)
  {
    seq(|lists|, i requires 0 <= i < |lists| => Up(0, |lists[i]|))
  }

  lemma EachStep<T>(xs: seq<T>, lists: seq<seq<T>>)
    ensures PrependEach([], lists) == []
    ensures xs != [] ==> PrependEach(xs, lists) == Prepend(xs[0], lists) + PrependEach(xs[1..], lists)
  {
  }

  lemma {:induction false} EachSorted(lo: nat, n: nat, ps: seq<seq<nat>>)
    requires lo <= n && Sorted(ps)
    ensures Sorted(PrependEach(Up(lo, n), ps))
    ensures forall i :: 0 <= i < |PrependEach(Up(lo, n), ps)| ==> PrependEach(Up(lo, n), ps)[i] != [] && PrependEach(Up(lo, n), ps)[i][0] >= lo
    decreases n - lo
  {
    EachStep(Up(lo, n), ps);
    hide PrependEach, Less;
    if lo < n {
      UpStep(lo, n);
      hide Up;
      EachSorted(lo + 1, n, ps);
      PrependSorted(lo, ps);
      JoinedSorted(lo, Prepend(lo, ps), PrependEach(Up(lo + 1, n), ps));
    }
  }

  lemma TakesFirst<T>(lists: seq<seq<T>>, x: nat, ps: seq<seq<nat>>, cs: seq<seq<T>>, more: seq<seq<nat>>, rest: seq<seq<T>>)
    requires lists != [] && x < |lists[0]| && TakeEach(lists[1..], ps, cs) && TakeEach(lists, more, rest)
    ensures TakeEach(lists, Prepend(x, ps) + more, Prepend(lists[0][x], cs) + rest)
  {
    hide Prepend;
    forall i | 0 <= i < |ps| ensures Takes(lists, [x] + ps[i], [lists[0][x]] + cs[i]) {
      assert Takes(lists[1..], ps[i], cs[i]);
    }
  }

  lemma {:induction false} EachTakes<T>(lists: seq<seq<T>>, lo: nat, ps: seq<seq<nat>>, cs: seq<seq<T>>)
    requires lists != [] && lo <= |lists[0]| && TakeEach(lists[1..], ps, cs)
    ensures TakeEach(lists, PrependEach(Up(lo, |lists[0]|), ps), PrependEach(lists[0][lo..], cs))
    decreases |lists[0]| - lo
  {
    var n, xs := |lists[0]|, lists[0][lo..];
    EachStep(Up(lo, n), ps);
    EachStep(xs, cs);
    hide PrependEach, Takes;
    if lo < n {
      UpStep(lo, n);
      hide Up, TakeEach;
      assert xs[1..] == lists[0][lo + 1..];
      EachTakes(lists, lo + 1, ps, cs);
      TakesFirst(lists, lo, ps, cs, PrependEach(Up(lo + 1, n), ps), PrependEach(lists[0][lo + 1..], cs));
    } else {
      assert Up(lo, n) == [] && xs == [];
    }
  }

  lemma ProductStep<T>(lists: seq<seq<T>>)
    ensures Product(lists) == if lists == [] then [[]] else PrependEach(lists[0], Product(lists[1..]))
  {
  }

  lemma {:induction false} RangesProduct<T>(lists: seq<seq<T>>)
    ensures Sorted(Product(Ranges(lists))) && TakeEach(lists, Product(Ranges(lists)), Product(lists))
  {
    ProductStep(Ranges(lists));
    ProductStep(lists);
    hide Product, PrependEach;
    if lists == [] {
      assert Takes(lists, [], []);
    } else {
      RangesProduct(lists[1..]);
      assert Ranges(lists)[1..] == Ranges(lists[1..]);
      assert lists[0][0..] == lists[0];
      EachTakes(lists, 0, Product(Ranges(lists[1..])), Product(lists[1..]));
      EachSorted(0, |lists[0]|, Product(Ranges(lists[1..])));
    }
  }

  /** The product lists every choice of places once, in lexicographic order. */
  lemma ProductOrder<T>(lists: seq<seq<T>>) returns (ps: seq<seq<nat>>)
    ensures forall p :: p in ps <==> Within(p, lists)
    ensures forall i, j :: 0 <= i < j < |ps| ==> Less(ps[i], ps[j])
    ensures TakeEach(lists, ps, Product(lists))
  {
    ps := Product(Ranges(lists));
    RangesProduct(lists);
    hide Product, TakeEach;
    forall p ensures p in ps <==> Within(p, lists) {
      ProductHas(Ranges(lists), p);
      if |p| == |lists| {
        forall i | 0 <= i < |p| ensures p[i] in Ranges(lists)[i] <==> p[i] < |lists[i]| {
          if p[i] < |lists[i]| { assert Up(0, |lists[i]|)[p[i]] == p[i]; }
        }
      }
    }
  }

  // ----- the tagsets

  /** Where a tagset comes from: the place of a value for every tag, and the tags kept. */
  datatype Rank = Rank(tuple: seq<nat>, kept: seq<nat>)

  predicate Before(a: Rank, b: Rank) {
    Less(a.tuple, b.tuple) || (a.tuple == b.tuple && Smaller(a.kept, b.kept))
  }

  ghost predicate ValueEach<N, V>(raw: seq<Tag<N, V>>, p: seq<nat>) {
    |p| == |raw| && forall i :: 0 <= i < |raw| ==> p[i] < |raw[i].values|
  }

  ghost predicate Valid<N, V>(raw: seq<Tag<N, V>>, r: Rank) {
    ValueEach(raw, r.tuple) && Places(r.kept, 0, |raw|)
  }

  /** The values at the places `p` for the tags at the places `k`; of tags with one name the last counts. */
  ghost function Assigned<N, V>(raw: seq<Tag<N, V>>, p: seq<nat>, k: seq<nat>): map<N, V>
    requires ValueEach(raw, p) && forall i :: 0 <= i < |k| ==> k[i] < |raw|
  {
    if k == [] then map[]
    else
      var last := k[|k| - 1];
      Assigned(raw, p, k[..|k| - 1])[raw[last].name := raw[last].values[p[last]]]
  }

  lemma {:induction false} MergeAssigned<N, V>(raw: seq<Tag<N, V>>, p: seq<nat>, k: seq<nat>, t: seq<Choice<N, V>>, c: seq<Choice<N, V>>)
    requires Takes(ChoiceLists(raw), p, t) && Picks(t, k, c)
    ensures ValueEach(raw, p) && (forall i :: 0 <= i < |k| ==> k[i] < |raw|) && Merge(c) == Assigned(raw, p, k)
    decreases |k|
  {
    if k != [] { MergeAssigned(raw, p, k[..|k| - 1], t, c[..|c| - 1]); }
  }

  function RanksOf(p: seq<nat>, ks: seq<seq<nat>>): (r: seq<Rank>)
    ensures |r| == |ks| && forall i :: 0 <= i < |r| ==> r[i] == Rank(p, ks[i])
  {
    seq(|ks|, i requires 0 <= i < |ks| => Rank(p, ks[i]))
  }

  function AllRanks(ps: seq<seq<nat>>, ks: seq<seq<nat>>): seq<Rank> {
    if ps == [] then [] else AllRanks(ps[..|ps| - 1], ks) + RanksOf(ps[|ps| - 1], ks)
  }

  lemma {:induction false} RanksHave(ps: seq<seq<nat>>, ks: seq<seq<nat>>, r: Rank)
    ensures r in AllRanks(ps, ks) <==> r.tuple in ps && r.kept in ks
  {
    if ps != [] {
      var front, last := ps[..|ps| - 1], ps[|ps| - 1];
      RanksHave(front, ks, r);
      assert ps == front + [last];
      var of := RanksOf(last, ks);
      if r.tuple == last && r.kept in ks {
        var i :| 0 <= i < |ks| && ks[i] == r.kept;
        assert of[i] == r;
      }
      assert r in AllRanks(ps, ks) <==> r in AllRanks(front, ks) || r in of;
    }
  }

  ghost predicate Rising(rs: seq<Rank>) {
    forall i, j :: 0 <= i < j < |rs| ==> Before(rs[i], rs[j])
  }

  lemma {:induction false} RanksRising(ps: seq<seq<nat>>, ks: seq<seq<nat>>)
    requires Sorted(ps) && forall i, j :: 0 <= i < j < |ks| ==> Smaller(ks[i], ks[j])
    ensures Rising(AllRanks(ps, ks))
  {
    hide Less, Smaller;
    if ps != [] {
      var front, last := ps[..|ps| - 1], ps[|ps| - 1];
      RanksRising(front, ks);
      var a, b := AllRanks(front, ks), RanksOf(last, ks);
      forall i | 0 <= i < |a| ensures Less(a[i].tuple, last) {
        assert a[i] in a;
        RanksHave(front, ks, a[i]);
      }
      RisingJoined(a, b, last);
    }
  }

  lemma RisingJoined(a: seq<Rank>, b: seq<Rank>, p: seq<nat>)
    requires Rising(a) && (forall i :: 0 <= i < |a| ==> Less(a[i].tuple, p))
    requires forall i :: 0 <= i < |b| ==> b[i].tuple == p
    requires forall i, j :: 0 <= i < j < |b| ==> Smaller(b[i].kept, b[j].kept)
    ensures Rising(a + b)
  {
    hide Less, Smaller;
  }

  /** Each map is the assignment of its rank. */
  ghost predicate AssignEach<N, V>(raw: seq<Tag<N, V>>, rs: seq<Rank>, ms: seq<map<N, V>>) {
    |ms| == |rs| && forall i :: 0 <= i < |rs| ==> Valid(raw, rs[i]) && ms[i] == Assigned(raw, rs[i].tuple, rs[i].kept)
  }

  lemma TupleAssigned<N, V>(raw: seq<Tag<N, V>>, p: seq<nat>, t: seq<Choice<N, V>>)
    requires Takes(ChoiceLists(raw), p, t)
    ensures AssignEach(raw, RanksOf(p, PowerSet(Up(0, |raw|))), Merges(PowerSet(t)))
  {
    var ks, cs := PowerSet(Up(0, |raw|)), PowerSet(t);
    PlacesPowerSet(t);
    hide PowerSet, Up, Merge, Assigned, Smaller, Takes;
    assert |t| == |raw| by { TakesSize(raw, p, t); }
    forall i | 0 <= i < |ks| ensures Valid(raw, Rank(p, ks[i])) && Merges(cs)[i] == Assigned(raw, p, ks[i]) {
      assert ks[i] in ks;
      MergeAssigned(raw, p, ks[i], t, cs[i]);
    }
  }

  lemma TakesSize<N, V>(raw: seq<Tag<N, V>>, p: seq<nat>, t: seq<Choice<N, V>>)
    requires Takes(ChoiceLists(raw), p, t)
    ensures |t| == |raw|
  {
  }

  lemma {:induction false} SelectionsAssigned<N, V>(raw: seq<Tag<N, V>>, ps: seq<seq<nat>>, tuples: seq<seq<Choice<N, V>>>)
    requires TakeEach(ChoiceLists(raw), ps, tuples)
    ensures AssignEach(raw, AllRanks(ps, PowerSet(Up(0, |raw|))), Selections(tuples))
  {
    hide PowerSet, Merges, Takes, Valid, Up;
    if ps != [] {
      var n := |ps| - 1;
      SelectionsAssigned(raw, ps[..n], tuples[..n]);
      TupleAssigned(raw, ps[n], tuples[n]);
    }
  }

  /** `u` lists the elements of `s` that occur first at the places `at`. */
  ghost predicate FirstAt<T>(s: seq<T>, u: seq<T>, at: seq<nat>) {
    && |at| == |u| && Places(at, 0, |s|)
    && (forall x :: 0 <= x < |at| ==> s[at[x]] == u[x])
    && forall x, j :: 0 <= x < |at| && 0 <= j < at[x] ==> s[j] != s[at[x]]
  }

  lemma FirstSame<T>(s: seq<T>, u: seq<T>, at: seq<nat>)
    requires s != [] && FirstAt(s[..|s| - 1], u, at)
    ensures FirstAt(s, u, at)
  {
  }

  lemma FirstNew<T>(s: seq<T>, u: seq<T>, at: seq<nat>)
    requires s != [] && FirstAt(s, u, at) && Places(at, 0, |s| - 1) && forall j :: 0 <= j < |s| - 1 ==> s[j] != s[|s| - 1]
    ensures FirstAt(s, u + [s[|s| - 1]], at + [|s| - 1])
  {
  }

  lemma {:induction false} FirstPlaces<T>(s: seq<T>) returns (at: seq<nat>)
    ensures FirstAt(s, Unique(s), at)
  {
    at := [];
    if s != [] {
      var front, last := s[..|s| - 1], s[|s| - 1];
      at := FirstPlaces(front);
      UniqueSame(front);
      assert forall j :: 0 <= j < |front| ==> s[j] == front[j] && front[j] in front;
      assert Places(at, 0, |s| - 1);
      hide FirstAt, Places;
      FirstSame(s, Unique(front), at);
      if last !in Unique(front) {
        FirstNew(s, Unique(front), at);
        at := at + [|s| - 1];
      }
    }
  }

  lemma AllRanked<N(!new), V>(raw: seq<Tag<N, V>>) returns (rs: seq<Rank>)
    ensures Rising(rs) && AssignEach(raw, rs, Selections(Product(ChoiceLists(raw))))
    ensures forall r :: r in rs <==> Valid(raw, r)
  {
    var ps := ProductOrder(ChoiceLists(raw));
    var ks := PowerSet(Up(0, |raw|));
    rs := AllRanks(ps, ks);
    PlacesPowerSet(raw);
    hide PowerSet, Up, Selections, Product, Smaller, Less, PickEach, AllRanks, AssignEach, Rising, TakeEach;
    SelectionsAssigned(raw, ps, Product(ChoiceLists(raw)));
    RanksRising(ps, ks);
    forall r ensures r in rs <==> Valid(raw, r) {
      RanksHave(ps, ks, r);
      WithinIs(raw, r.tuple);
    }
  }

  lemma WithinIs<N, V>(raw: seq<Tag<N, V>>, p: seq<nat>)
    ensures Within(p, ChoiceLists(raw)) <==> ValueEach(raw, p)
  {
  }

  /** Every tagset stands where the first of its ranks puts it, and every rank has its tagset. */
  lemma TagsetsOrder<N(!new), V>(raw: seq<Tag<N, V>>) returns (ranks: seq<Rank>)
    ensures AssignEach(raw, ranks, Tagsets.Tagsets(raw)) && Rising(ranks)
    ensures forall x, r :: 0 <= x < |ranks| && Valid(raw, r) && Assigned(raw, r.tuple, r.kept) == Tagsets.Tagsets(raw)[x] ==>
                             r == ranks[x] || Before(ranks[x], r)
    ensures forall r :: Valid(raw, r) ==> Assigned(raw, r.tuple, r.kept) in Tagsets.Tagsets(raw)
  {
    var all := Selections(Product(ChoiceLists(raw)));
    var rs := AllRanked(raw);
    var at := FirstPlaces(all);
    UniqueSame(all);
    hide Selections, Product, ChoiceLists, Unique, Assigned, Before;
    ranks := seq(|at|, x requires 0 <= x < |at| => rs[at[x]]);
    forall x, r | 0 <= x < |ranks| && Valid(raw, r) && Assigned(raw, r.tuple, r.kept) == Unique(all)[x]
      ensures r == ranks[x] || Before(ranks[x], r) {
      var j :| 0 <= j < |rs| && rs[j] == r;
      assert all[j] == all[at[x]];
    }
    forall r | Valid(raw, r) ensures Assigned(raw, r.tuple, r.kept) in Unique(all) {
      var j :| 0 <= j < |rs| && rs[j] == r;
      assert all[j] in all;
    }
  }
}