/** What a traversal of the insertion-ordered map visits while its callbacks edit the map, on values. */
module OrderedWalks {
  import opened OrderedChains

  /** What a callback may do to the map it walks. */
  datatype Edit<K, V> = Define(k: K, v: V) | Remove(k: K) | ClearAll

  /** Every binding ever made, oldest first, and whether it has been removed since. */
  datatype Log<K, V> = Log(removed: seq<bool>, items: seq<(K, V)>) {
    predicate Sized() {
      |removed| == |items|
    }
  }

  /** The position `x` is that of the first live match, or -1 when there is none. */
  ghost predicate FirstMatch<K, V>(log: Log<K, V>, frozen: K -> bool, loose: (K, K) -> bool, k: K, x: int)
    requires log.Sized()
  {
    && -1 <= x < |log.items|
    && (x >= 0 ==> !log.removed[x] && Matches(frozen, loose, log.items[x].0, k))
    && forall y :: 0 <= y < (if x < 0 then |log.items| else x) && !log.removed[y] ==> !Matches(frozen, loose, log.items[y].0, k)
  }

  lemma MatchFound<K, V>(log: Log<K, V>, frozen: K -> bool, loose: (K, K) -> bool, k: K, x: int)
    requires log.Sized() && FirstMatch(log, frozen, loose, k, x)
    ensures FindFrom(log, frozen, loose, k, 0) == x
  {
  }

  /** The first live match at or after `i`, or -1. */
  function FindFrom<K(==), V>(log: Log<K, V>, frozen: K -> bool, loose: (K, K) -> bool, k: K, i: nat): (x: int)
    requires log.Sized() && i <= |log.items|
    ensures x == -1 || i <= x < |log.items|
    ensures x >= 0 ==> !log.removed[x] && Matches(frozen, loose, log.items[x].0, k)
    ensures forall y :: i <= y < (if x < 0 then |log.items| else x) && !log.removed[y] ==> !Matches(frozen, loose, log.items[y].0, k)
    decreases |log.items| - i
  {
    if i == |log.items| then -1
    else if !log.removed[i] && Matches(frozen, loose, log.items[i].0, k) then i
    else FindFrom(log, frozen, loose, k, i + 1)
  }

  function Apply<K(==), V>(log: Log<K, V>, frozen: K -> bool, loose: (K, K) -> bool, edit: Edit<K, V>): (after: Log<K, V>)
    requires log.Sized()
    ensures after.Sized()
  {
    match edit
    case Define(k, v) =>
      var x := FindFrom(log, frozen, loose, k, 0);
      if x >= 0 then log.(items := log.items[x := (log.items[x].0, v)])
      else Log(log.removed + [false], log.items + [(k, v)])
    case Remove(k) =>
      var x := FindFrom(log, frozen, loose, k, 0);
      if x >= 0 then log.(removed := log.removed[x := true]) else log
    case ClearAll => log.(removed := seq(|log.removed|, i => true))
  }

  function ApplyAll<K(==), V>(log: Log<K, V>, frozen: K -> bool, loose: (K, K) -> bool, edits: seq<Edit<K, V>>): (after: Log<K, V>)
    requires log.Sized()
    ensures after.Sized()
    decreases |edits|
  {
    if edits == [] then log else ApplyAll(Apply(log, frozen, loose, edits[0]), frozen, loose, edits[1..])
  }

  /** The positions visited, the bindings handed to the callback, and the log afterwards. */
  datatype Trip<K, V> = Trip(at: seq<nat>, items: seq<(K, V)>, log: Log<K, V>)

  /** What the next callback performs, and what is left for the ones after it. */
  function First<E>(script: seq<seq<E>>): seq<E> {
    if script == [] then [] else script[0]
  }

  function Rest<E>(script: seq<seq<E>>): (rest: seq<seq<E>>)
    ensures script != [] ==> |rest| == |script| - 1
    ensures script == [] ==> rest == []
  {
    if script == [] then [] else script[1..]
  }

  /** What has been visited already, before the rest of the trip. */
  function Onward<K, V>(at: seq<nat>, items: seq<(K, V)>, trip: Trip<K, V>): Trip<K, V> {
    Trip(at + trip.at, items + trip.items, trip.log)
  }

  /** A traversal that has visited the position `pos` (-1 at the start); the callback of the visit to come performs
      script[0], the one after it script[1], and visits past the script edit nothing. */
  function Walk<K(==), V>(log: Log<K, V>, frozen: K -> bool, loose: (K, K) -> bool, pos: int, script: seq<seq<Edit<K, V>>>): Trip<K, V>
    requires log.Sized() && -1 <= pos < |log.items|
    decreases |script|, |log.items| - pos
  {
    var n := NextLive(log.removed, pos + 1);
    if n == |log.items| then Trip([], [], log)
    else
      ApplyAllGrows(log, frozen, loose, First(script));
      Onward([n], [log.items[n]], Walk(ApplyAll(log, frozen, loose, First(script)), frozen, loose, n, Rest(script)))
  }

  /** Positions keep their keys, and what is removed stays removed. */
  ghost predicate Grows<K, V>(log: Log<K, V>, later: Log<K, V>) {
    && log.Sized() && later.Sized() && |log.items| <= |later.items|
    && forall i :: 0 <= i < |log.items| ==> later.items[i].0 == log.items[i].0 && (log.removed[i] ==> later.removed[i])
  }

  lemma {:induction false} ApplyAllGrows<K, V>(log: Log<K, V>, frozen: K -> bool, loose: (K, K) -> bool, edits: seq<Edit<K, V>>)
    requires log.Sized()
    ensures Grows(log, ApplyAll(log, frozen, loose, edits))
    decreases |edits|
  {
    if edits != [] {
      ApplyAllGrows(Apply(log, frozen, loose, edits[0]), frozen, loose, edits[1..]);
    }
  }

  ghost predicate Rising(s: seq<nat>, above: int) {
    forall i :: 0 <= i < |s| ==> s[i] > above && forall j :: i < j < |s| ==> s[i] < s[j]
  }

  lemma RisingCons(n: nat, s: seq<nat>, above: int)
    requires n > above && Rising(s, n)
    ensures Rising([n] + s, above)
  {
    var t := [n] + s;
    forall i | 0 <= i < |t| ensures t[i] > above && forall j :: i < j < |t| ==> t[i] < t[j] {
      if i > 0 { assert t[i] == s[i - 1]; }
    }
  }

  /** The log as the callback number `i` finds it: after the edits of all callbacks before it. */
  function LogAt<K(==), V>(log: Log<K, V>, frozen: K -> bool, loose: (K, K) -> bool, script: seq<seq<Edit<K, V>>>, i: nat): (now: Log<K, V>)
    requires log.Sized()
    ensures now.Sized()
    decreases i
  {
    if i == 0 then log else LogAt(ApplyAll(log, frozen, loose, First(script)), frozen, loose, Rest(script), i - 1)
  }

  /** The i-th visit hands over the binding its position has at that moment, which is live, and passes over nothing live. */
  ghost predicate Visited<K, V>(now: Log<K, V>, trip: Trip<K, V>, pos: int, i: nat)
    requires now.Sized() && |trip.at| == |trip.items| && i < |trip.at|
  {
    var from := if i == 0 then pos else trip.at[i - 1];
    && trip.at[i] < |now.items| && !now.removed[trip.at[i]] && trip.items[i] == now.items[trip.at[i]]
    && forall y :: 0 <= y && from < y < trip.at[i] ==> now.removed[y]
  }

  /** No binding is visited twice or out of order, none that is removed when the walk reaches it, and none that is live
      there is passed over. */
  lemma VisitsInOrder<K, V>(log: Log<K, V>, frozen: K -> bool, loose: (K, K) -> bool, pos: int, script: seq<seq<Edit<K, V>>>)
    requires log.Sized() && -1 <= pos < |log.items|
    ensures var trip := Walk(log, frozen, loose, pos, script);
            && Grows(log, trip.log) && Rising(trip.at, pos) && |trip.at| == |trip.items|
            && trip.log == LogAt(log, frozen, loose, script, |trip.at|)
            && forall i :: 0 <= i < |trip.at| ==> Visited(LogAt(log, frozen, loose, script, i), trip, pos, i)
  {
    hide *;
    TripShape(log, frozen, loose, pos, script);
    var trip := Walk(log, frozen, loose, pos, script);
    forall i | 0 <= i < |trip.at| ensures Visited(LogAt(log, frozen, loose, script, i), trip, pos, i) {
      TripVisits(log, frozen, loose, pos, script, i);
    }
  }

  lemma {:induction false} TripShape<K, V>(log: Log<K, V>, frozen: K -> bool, loose: (K, K) -> bool, pos: int, script: seq<seq<Edit<K, V>>>)
    requires log.Sized() && -1 <= pos < |log.items|
    ensures var trip := Walk(log, frozen, loose, pos, script);
            && Grows(log, trip.log) && Rising(trip.at, pos) && |trip.at| == |trip.items|
            && trip.log == LogAt(log, frozen, loose, script, |trip.at|)
    decreases |script|, |log.items| - pos
  {
    var n := NextLive(log.removed, pos + 1);
    if n < |log.items| {
      var after, rest := ApplyAll(log, frozen, loose, First(script)), Rest(script);
      ApplyAllGrows(log, frozen, loose, First(script));
      TripShape(after, frozen, loose, n, rest);
      RisingCons(n, Walk(after, frozen, loose, n, rest).at, pos);
    }
  }

  lemma {:induction false} TripVisits<K, V>(log: Log<K, V>, frozen: K -> bool, loose: (K, K) -> bool, pos: int, script: seq<seq<Edit<K, V>>>, i: nat)
    requires log.Sized() && -1 <= pos < |log.items| && i < |Walk(log, frozen, loose, pos, script).at|
    ensures |Walk(log, frozen, loose, pos, script).at| == |Walk(log, frozen, loose, pos, script).items|
    ensures Visited(LogAt(log, frozen, loose, script, i), Walk(log, frozen, loose, pos, script), pos, i)
    decreases i
  {
    hide Apply, ApplyAll;
    TripShape(log, frozen, loose, pos, script);
    var n := NextLive(log.removed, pos + 1);
    var trip := Walk(log, frozen, loose, pos, script);
    if i > 0 {
      var after, rest := ApplyAll(log, frozen, loose, First(script)), Rest(script);
      ApplyAllGrows(log, frozen, loose, First(script));
      var tail := Walk(after, frozen, loose, n, rest);
      assert trip == Trip([n] + tail.at, [log.items[n]] + tail.items, tail.log);
      TripVisits(after, frozen, loose, n, rest, i - 1);
      hide Visited;
      TailVisited(LogAt(after, frozen, loose, rest, i - 1), trip, tail, pos, n, log.items[n], i);
    }
  }

  lemma TailVisited<K, V>(now: Log<K, V>, trip: Trip<K, V>, tail: Trip<K, V>, pos: int, n: nat, item: (K, V), i: nat)
    requires now.Sized() && 0 < i <= |tail.at| == |tail.items| && Visited(now, tail, n, i - 1)
    requires trip.at == [n] + tail.at && trip.items == [item] + tail.items
    ensures Visited(now, trip, pos, i)
  {
    assert trip.at[i] == tail.at[i - 1] && trip.at[i - 1] == if i == 1 then n else tail.at[i - 2];
  }

  /** Whatever is live when the walk ends has been visited, however the callbacks cleared, deleted or added. */
  lemma {:induction false} SurvivorsVisited<K, V>(log: Log<K, V>, frozen: K -> bool, loose: (K, K) -> bool, pos: int,
                                                  script: seq<seq<Edit<K, V>>>, x: nat)
    requires log.Sized() && -1 <= pos < |log.items|
    requires var trip := Walk(log, frozen, loose, pos, script);
             |trip.log.removed| == |trip.log.items| && pos < x < |trip.log.items| && !trip.log.removed[x]
    ensures x in Walk(log, frozen, loose, pos, script).at
    decreases |script|, |log.items| - pos
  {
    var n := NextLive(log.removed, pos + 1);
    TripShape(log, frozen, loose, pos, script);
    if n < |log.items| && x != n {
      var after, rest := ApplyAll(log, frozen, loose, First(script)), Rest(script);
      ApplyAllGrows(log, frozen, loose, First(script));
      var tail := Walk(after, frozen, loose, n, rest);
      SurvivorsVisited(after, frozen, loose, n, rest, x);
      var trip := Walk(log, frozen, loose, pos, script);
      assert trip.at == [n] + tail.at;
    }
  }

  /** Left alone, the walk hands over exactly the live bindings, in order of first insertion. */
  lemma {:induction false} WalkUndisturbed<K, V>(log: Log<K, V>, frozen: K -> bool, loose: (K, K) -> bool, pos: int)
    requires log.Sized() && -1 <= pos < |log.items|
    ensures Live(log.removed, log.items) == Live(log.removed[..pos + 1], log.items[..pos + 1]) + Walk(log, frozen, loose, pos, []).items
    ensures Walk(log, frozen, loose, pos, []).log == log
    decreases |log.items| - pos
  {
    hide Live;
    var n := NextLive(log.removed, pos + 1);
    LiveSkip(log.removed, log.items, pos + 1, n);
    if n == |log.items| {
      assert log.removed[..n] == log.removed && log.items[..n] == log.items;
    } else {
      LiveStep(log.removed, log.items, n);
      WalkUndisturbed(log, frozen, loose, n);
    }
  }

  lemma LiveStep<T>(removed: seq<bool>, items: seq<T>, n: nat)
    requires |removed| == |items| && n < |removed| && !removed[n]
    ensures Live(removed[..n + 1], items[..n + 1]) == Live(removed[..n], items[..n]) + [items[n]]
  {
    assert removed[..n + 1][..n] == removed[..n] && items[..n + 1][..n] == items[..n];
  }

  lemma {:induction false} LiveSkip<T>(removed: seq<bool>, items: seq<T>, i: nat, j: nat)
    requires |removed| == |items| && i <= j <= |removed| && forall x :: i <= x < j ==> removed[x]
    ensures Live(removed[..j], items[..j]) == Live(removed[..i], items[..i])
  {
    if i < j {
      assert removed[..j][..j - 1] == removed[..j - 1] && items[..j][..j - 1] == items[..j - 1];
      LiveSkip(removed, items, i, j - 1);
    }
  }

  /** A frozen key has no place in the index, and the search for it compares loosely: it reaches its own binding
      exactly when no earlier live key is loosely equal to it. */
  lemma FrozenLookup<K, V>(bindings: seq<(K, V)>, frozen: K -> bool, loose: (K, K) -> bool, j: nat)
    requires j < |bindings| && frozen(bindings[j].0) && loose(bindings[j].0, bindings[j].0)
    ensures FindBinding(bindings, frozen, loose, bindings[j].0) == j
       <==> forall i :: 0 <= i < j ==> !loose(bindings[i].0, bindings[j].0)
  {
    hide FindBinding;
    var f := FindBinding(bindings, frozen, loose, bindings[j].0);
    assert Matches(frozen, loose, bindings[j].0, bindings[j].0);
    if f == j {
      forall i | 0 <= i < j ensures !loose(bindings[i].0, bindings[j].0) {
        assert !Matches(frozen, loose, bindings[i].0, bindings[j].0);
      }
    }
  }

  /** A key of a script: a string, or a frozen array that reads as one when compared loosely. */
  datatype Key = Text(text: string) | FrozenArray(text: string)

  /** Behind a string that it loosely equals, a frozen key reaches the string's binding instead of its own. */
  lemma FrozenMisses()
    ensures var bindings := [(Text("a"), 1), (FrozenArray("a"), 2)];
            FindBinding(bindings, (k: Key) => k.FrozenArray?, (j: Key, k: Key) => j.text == k.text, FrozenArray("a")) == 0
  {
    var bindings := [(Text("a"), 1), (FrozenArray("a"), 2)];
    assert bindings[0].0.text == "a";
  }

  lemma PrevBack(removed: seq<bool>, i: nat, x: nat)
    requires x < i <= |removed| && removed[x] && PrevLive(removed, i) <= x
    ensures PrevLive(removed, x) == PrevLive(removed, i) && PrevLive(removed, i) < x
  {
    PrevIs(removed, x, PrevLive(removed, i));
  }

  lemma NextBack(removed: seq<bool>, x: int, pos: int)
    requires -1 <= pos < |removed| && PrevLive(removed, pos + 1) <= x <= pos && (x >= 0 ==> !removed[x])
    ensures NextLive(removed, x + 1) == NextLive(removed, pos + 1)
  {
    NextIs(removed, x + 1, NextLive(removed, pos + 1));
  }

  lemma OnwardNone<K, V>(trip: Trip<K, V>)
    ensures Onward([], [], trip) == trip
  {
  }

  lemma OnwardOn<K, V>(at: seq<nat>, items: seq<(K, V)>, n: nat, item: (K, V), trip: Trip<K, V>)
    ensures Onward(at, items, Onward([n], [item], trip)) == Onward(at + [n], items + [item], trip)
  {
    assert at + ([n] + trip.at) == at + [n] + trip.at;
    assert items + ([item] + trip.items) == items + [item] + trip.items;
  }

  /** One visit moves from what is to come to what is done. */
  lemma WalkStep<K, V>(log: Log<K, V>, frozen: K -> bool, loose: (K, K) -> bool, pos: int, script: seq<seq<Edit<K, V>>>,
                       at: seq<nat>, items: seq<(K, V)>)
    requires log.Sized() && -1 <= pos < |log.items| && NextLive(log.removed, pos + 1) < |log.items|
    ensures var n := NextLive(log.removed, pos + 1);
            var after := ApplyAll(log, frozen, loose, First(script));
            && n < |after.items| && (script == [] ==> after == log)
            && Onward(at, items, Walk(log, frozen, loose, pos, script))
            == Onward(at + [n], items + [log.items[n]], Walk(after, frozen, loose, n, Rest(script)))
  {
    hide Onward, Apply;
    var n := NextLive(log.removed, pos + 1);
    ApplyAllGrows(log, frozen, loose, First(script));
    OnwardOn(at, items, n, log.items[n], Walk(ApplyAll(log, frozen, loose, First(script)), frozen, loose, n, Rest(script)));
  }

  lemma WalkEnd<K, V>(log: Log<K, V>, frozen: K -> bool, loose: (K, K) -> bool, pos: int, script: seq<seq<Edit<K, V>>>,
                      at: seq<nat>, items: seq<(K, V)>)
    requires log.Sized() && -1 <= pos < |log.items| && NextLive(log.removed, pos + 1) == |log.items|
    ensures Onward(at, items, Walk(log, frozen, loose, pos, script)) == Trip(at, items, log)
  {
    assert Walk(log, frozen, loose, pos, script) == Trip([], [], log);
    assert at + [] == at && items + [] == items;
  }
}
