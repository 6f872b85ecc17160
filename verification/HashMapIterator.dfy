/** The explicit-stack iterator over a hash map. */
module HashMapIterator {
  import opened Options
  import opened HashTrie
  import opened HashTrieEntries
  import opened HashMaps

  datatype Frame<K, V> = Frame(node: Node<K, V>, index: nat)

  function Reverse<T>(s: seq<T>): (r: seq<T>)
    ensures |r| == |s|
  {
    if s == [] then [] else [s[|s| - 1]] + Reverse(s[..|s| - 1])
  }

  function Directed<T>(s: seq<T>, reverse: bool): seq<T> {
    if reverse then Reverse(s) else s
  }

  /** How many positions a frame steps through. */
  function Width<K, V>(node: Node<K, V>): nat {
    match node
    case Value(_, _) => 1
    case ArrayMap(entries) => |entries|
    case Collision(_, entries) => |entries|
    case _ => |Kids(node)|
  }

  /** The entries below the first `n` positions of a node. */
  function Front<K, V>(node: Node<K, V>, n: nat): seq<Entry<K, V>>
    requires n <= Width(node)
  {
    match node
    case Value(_, entry) => if n == 0 then [] else [entry]
    case ArrayMap(entries) => entries[..n]
    case Collision(_, entries) => entries[..n]
    case _ => KidEntries(node, n)
  }

  /** What position `i` contributes. */
  function At<K, V>(node: Node<K, V>, i: nat): seq<Entry<K, V>>
    requires i < Width(node)
  {
    match node
    case Value(_, entry) => [entry]
    case ArrayMap(entries) => [entries[i]]
    case Collision(_, entries) => [entries[i]]
    case _ => if Kids(node)[i].Some? then Entries(Kids(node)[i].value) else []
  }

  lemma FrontStep<K, V>(node: Node<K, V>, i: nat)
    requires i < Width(node)
    ensures Front(node, i + 1) == Front(node, i) + At(node, i)
    ensures Front(node, 0) == [] && Front(node, Width(node)) == Entries(node)
  {
  }

  lemma {:induction false} FrontPrefix<K, V>(node: Node<K, V>, m: nat, n: nat)
    requires m <= n <= Width(node)
    ensures Front(node, m) <= Front(node, n)
  {
    hide Front, At, Width;
    if m < n {
      FrontPrefix(node, m, n - 1);
      FrontStep(node, n - 1);
    }
  }

  /** The entries a frame has yet to produce. */
  function Rest<K, V>(frame: Frame<K, V>, reverse: bool): seq<Entry<K, V>>
    requires frame.index <= Width(frame.node)
  {
    var n := Width(frame.node);
    if reverse then Reverse(Front(frame.node, n - frame.index))
    else
      FrontPrefix(frame.node, frame.index, n);
      Front(frame.node, n)[|Front(frame.node, frame.index)|..]
  }

  lemma {:induction false} ReverseConcat<T>(a: seq<T>, b: seq<T>)
    ensures Reverse(a + b) == Reverse(b) + Reverse(a)
  {
    if b == [] {
      assert a + b == a;
    } else {
      var c, d := a + b, b[..|b| - 1];
      assert c[..|c| - 1] == a + d;
      ReverseConcat(a, d);
      assert Reverse(c) == [b[|b| - 1]] + Reverse(a + d);
    }
  }

  /** The position a frame visits next. */
  function Position<K, V>(frame: Frame<K, V>, reverse: bool): nat
    requires frame.index < Width(frame.node)
  {
    if reverse then Width(frame.node) - 1 - frame.index else frame.index
  }

  lemma RestStep<K, V>(frame: Frame<K, V>, reverse: bool)
    requires frame.index < Width(frame.node)
    ensures Rest(frame, reverse)
         == Directed(At(frame.node, Position(frame, reverse)), reverse) + Rest(frame.(index := frame.index + 1), reverse)
  {
    hide Front, At, Width;
    var node, i, n := frame.node, frame.index, Width(frame.node);
    if reverse {
      FrontStep(node, n - 1 - i);
      ReverseConcat(Front(node, n - 1 - i), At(node, n - 1 - i));
    } else {
      FrontStep(node, i);
      FrontPrefix(node, i, n);
      FrontPrefix(node, i + 1, n);
      DropSplit(Front(node, n), Front(node, i), At(node, i));
    }
  }

  lemma DropSplit<T>(s: seq<T>, a: seq<T>, b: seq<T>)
    requires a + b <= s
    ensures s[|a|..] == b + s[|a + b|..]
  {
  }

  lemma RestEnds<K, V>(node: Node<K, V>, reverse: bool)
    ensures Rest(Frame(node, Width(node)), reverse) == []
    ensures Rest(Frame(node, 0), reverse) == Directed(Entries(node), reverse)
  {
    if Width(node) > 0 { FrontStep(node, 0); }
  }

  // ----- a bound on the steps left

  function Weight<K, V>(node: Node<K, V>): nat
    decreases node, 2
  {
    if node.Bitmap? || node.HashArray? then 1 + KidWeight(node, |Kids(node)|) else 1
  }

  function KidWeight<K, V>(node: Node<K, V>, n: nat): nat
    requires (node.Bitmap? || node.HashArray?) && n <= |Kids(node)|
    decreases node, 1, n
  {
    if n == 0 then 0
    else KidWeight(node, n - 1) + 1 + if Kids(node)[n - 1].Some? then Weight(Kids(node)[n - 1].value) else 0
  }

  function FrameWeight<K, V>(frame: Frame<K, V>, reverse: bool): int
    requires frame.index <= Width(frame.node)
  {
    var n := Width(frame.node);
    if !frame.node.Bitmap? && !frame.node.HashArray? then 1
    else if reverse then 1 + KidWeight(frame.node, n - frame.index)
    else 1 + KidWeight(frame.node, n) - KidWeight(frame.node, frame.index)
  }

  lemma {:induction false} KidWeightGrows<K, V>(node: Node<K, V>, m: nat, n: nat)
    requires (node.Bitmap? || node.HashArray?) && m <= n <= |Kids(node)|
    ensures KidWeight(node, m) <= KidWeight(node, n)
  {
    if m < n { KidWeightGrows(node, m, n - 1); }
  }

  lemma FrameWeightPositive<K, V>(frame: Frame<K, V>, reverse: bool)
    requires frame.index <= Width(frame.node)
    ensures FrameWeight(frame, reverse) >= 1
  {
    if frame.node.Bitmap? || frame.node.HashArray? {
      KidWeightGrows(frame.node, frame.index, Width(frame.node));
    }
  }

  lemma KidWeightStep<K, V>(frame: Frame<K, V>, reverse: bool)
    requires (frame.node.Bitmap? || frame.node.HashArray?) && frame.index < |Kids(frame.node)|
    ensures var kid := Kids(frame.node)[Position(frame, reverse)];
            FrameWeight(frame, reverse)
            == FrameWeight(frame.(index := frame.index + 1), reverse) + 1
             + (if kid.Some? then FrameWeight(Frame(kid.value, 0), reverse) else 0)
  {
    hide Kids;
    var i := Position(frame, reverse);
    assert KidWeight(frame.node, i + 1)
        == KidWeight(frame.node, i) + 1 + if Kids(frame.node)[i].Some? then Weight(Kids(frame.node)[i].value) else 0;
  }

  // ----- stacks of frames, innermost last

  ghost predicate ValidStack<K, V>(stack: seq<Frame<K, V>>) {
    forall i :: 0 <= i < |stack| ==> stack[i].index <= Width(stack[i].node)
  }

  function StackRest<K, V>(stack: seq<Frame<K, V>>, reverse: bool): seq<Entry<K, V>>
    requires ValidStack(stack)
  {
    if stack == [] then []
    else Rest(stack[|stack| - 1], reverse) + StackRest(stack[..|stack| - 1], reverse)
  }

  function StackWeight<K, V>(stack: seq<Frame<K, V>>, reverse: bool): int
    requires ValidStack(stack)
  {
    if stack == [] then 0
    else FrameWeight(stack[|stack| - 1], reverse) + StackWeight(stack[..|stack| - 1], reverse)
  }

  lemma {:induction false} StackWeightPositive<K, V>(stack: seq<Frame<K, V>>, reverse: bool)
    requires ValidStack(stack)
    ensures StackWeight(stack, reverse) >= 0
  {
    if stack != [] {
      FrameWeightPositive(stack[|stack| - 1], reverse);
      StackWeightPositive(stack[..|stack| - 1], reverse);
    }
  }

  lemma Push<K, V>(stack: seq<Frame<K, V>>, frame: Frame<K, V>, reverse: bool)
    requires ValidStack(stack) && frame.index <= Width(frame.node)
    ensures ValidStack(stack + [frame])
    ensures StackRest(stack + [frame], reverse) == Rest(frame, reverse) + StackRest(stack, reverse)
    ensures StackWeight(stack + [frame], reverse) == FrameWeight(frame, reverse) + StackWeight(stack, reverse)
  {
    assert (stack + [frame])[..|stack|] == stack;
  }

  /** The stack with its innermost frame moved to the next position. */
  function Advanced<K, V>(stack: seq<Frame<K, V>>): seq<Frame<K, V>>
    requires stack != []
  {
    var top := stack[|stack| - 1];
    stack[..|stack| - 1] + [top.(index := top.index + 1)]
  }

  lemma PopStep<K, V>(stack: seq<Frame<K, V>>, reverse: bool)
    requires ValidStack(stack) && stack != []
    requires var top := stack[|stack| - 1]; top.index == Width(top.node)
    ensures var below := stack[..|stack| - 1];
            && StackRest(below, reverse) == StackRest(stack, reverse)
            && StackWeight(stack, reverse) > StackWeight(below, reverse) >= 0
  {
    var top := stack[|stack| - 1];
    RestEnds(top.node, reverse);
    FrameWeightPositive(top, reverse);
    StackWeightPositive(stack[..|stack| - 1], reverse);
  }

  lemma VisitStep<K, V>(stack: seq<Frame<K, V>>, reverse: bool)
    requires ValidStack(stack) && stack != []
    requires var top := stack[|stack| - 1]; top.index < Width(top.node)
    ensures ValidStack(Advanced(stack))
    ensures var top := stack[|stack| - 1];
            StackRest(stack, reverse)
            == Directed(At(top.node, Position(top, reverse)), reverse) + StackRest(Advanced(stack), reverse)
  {
    hide Rest;
    var below, top := stack[..|stack| - 1], stack[|stack| - 1];
    RestStep(top, reverse);
    Push(below, top.(index := top.index + 1), reverse);
  }

  lemma LeafStep<K, V>(node: Node<K, V>, i: nat, reverse: bool)
    requires i < Width(node) && !node.Bitmap? && !node.HashArray?
    ensures Directed(At(node, i), reverse) == At(node, i) && |At(node, i)| == 1
  {
  }

  lemma KidStep<K, V>(stack: seq<Frame<K, V>>, reverse: bool)
    requires ValidStack(stack) && stack != []
    requires var top := stack[|stack| - 1];
             (top.node.Bitmap? || top.node.HashArray?) && top.index < |Kids(top.node)|
    ensures var top := stack[|stack| - 1]; var kid := Kids(top.node)[Position(top, reverse)];
            var next := Advanced(stack) + if kid.Some? then [Frame(kid.value, 0)] else [];
            && ValidStack(next) && StackRest(next, reverse) == StackRest(stack, reverse)
            && StackWeight(stack, reverse) > StackWeight(next, reverse) >= 0
  {
    hide Rest, FrameWeight, Kids;
    var below, top := stack[..|stack| - 1], stack[|stack| - 1];
    var stepped := top.(index := top.index + 1);
    KidWeightStep(top, reverse);
    var kid := Kids(top.node)[Position(top, reverse)];
    VisitStep(stack, reverse);
    Push(below, stepped, reverse);
    assert Advanced(stack) == below + [stepped];
    if kid.Some? {
      var inner := Frame(kid.value, 0);
      RestEnds(kid.value, reverse);
      Push(Advanced(stack), inner, reverse);
      StackWeightPositive(Advanced(stack) + [inner], reverse);
    } else {
      assert Advanced(stack) + [] == Advanced(stack);
      StackWeightPositive(Advanced(stack), reverse);
    }
  }

  lemma StartStack<K, V>(node: Node<K, V>, reverse: bool)
    ensures ValidStack([Frame(node, 0)])
    ensures StackRest([Frame(node, 0)], reverse) == Directed(Entries(node), reverse)
  {
    RestEnds(node, reverse);
    Push([], Frame(node, 0), reverse);
    assert [] + [Frame(node, 0)] == [Frame(node, 0)];
  }

  class Iterator<K, V> {
    const reverse: bool
    var stack: seq<Frame<K, V>>

    ghost predicate Valid()
      reads this
    {
      ValidStack(stack)
    }

    /** The entries still to come. */
    ghost function Remaining(): seq<Entry<K, V>>
      reads this
      requires Valid()
    {
      StackRest(stack, reverse)
    }

    constructor (m: HashMap<K, V>, reverse: bool)
      ensures Valid() && this.reverse == reverse && Remaining() == Directed(Bindings(m), reverse)
    {
      this.reverse := reverse;
      stack := if m.root.None? then [] else [Frame(m.root.value, 0)];
      if m.root.Some? {
        StartStack(m.root.value, reverse);
      }
    }

    /** next: the first remaining entry, or none when all have been produced. */
    method Next() returns (r: Option<Entry<K, V>>)
      requires Valid()
      modifies this
      ensures Valid()
      ensures old(Remaining()) == [] ==> r.None? && Remaining() == []
      ensures old(Remaining()) != [] ==> r == Some(old(Remaining())[0]) && Remaining() == old(Remaining())[1..]
    {
      hide StackRest, StackWeight, Entries, Kids;
      while stack != []
        invariant Valid() && Remaining() == old(Remaining())
        decreases StackWeight(stack, reverse)
      {
        var top := stack[|stack| - 1];
        if top.index >= Width(top.node) {
          PopStep(stack, reverse);
          stack := stack[..|stack| - 1];
        } else {
          var node, i := top.node, Position(top, reverse);
          VisitStep(stack, reverse);
          if node.Bitmap? || node.HashArray? {
            KidStep(stack, reverse);
            var kid := Kids(node)[i];
            stack := Advanced(stack);
            if kid.Some? {
              if kid.value.Value? {
                SingleEntry(kid.value);
                return Some(kid.value.entry);
              }
              stack := stack + [Frame(kid.value, 0)];
            } else {
              assert stack + [] == stack;
            }
          } else {
            LeafStep(node, i, reverse);
            stack := Advanced(stack);
            return Some(if node.Value? then node.entry else node.entries[i]);
          }
        }
      }
      r := None;
      NoRest<K, V>(reverse);
    }
  }

  lemma SingleEntry<K, V>(node: Node<K, V>)
    requires node.Value?
    ensures Entries(node) == [node.entry]
    ensures forall reverse :: Directed(Entries(node), reverse) == [node.entry]
  {
  }

  lemma NoRest<K, V>(reverse: bool)
    ensures StackRest<K, V>([], reverse) == []
  {
  }

  lemma {:induction false} ReverseHas<K, V>(s: seq<Entry<K, V>>, e: Entry<K, V>)
    ensures e in Reverse(s) <==> e in s
  {
    if s != [] {
      ReverseHas(s[..|s| - 1], e);
      assert s == s[..|s| - 1] + [s[|s| - 1]];
    }
  }

  lemma {:induction false} ReverseDistinct<K, V>(s: seq<Entry<K, V>>)
    requires Distinct(s)
    ensures Distinct(Reverse(s))
  {
    if s != [] {
      var front, last := s[..|s| - 1], s[|s| - 1];
      ReverseDistinct(front);
      forall i | 0 <= i < |front| ensures Reverse(front)[i].0 != last.0 {
        ReverseHas(front, Reverse(front)[i]);
      }
    }
  }

  /** The bindings of the plain map `m`, each key once. */
  ghost predicate Lists<K, V>(all: seq<Entry<K, V>>, m: map<K, V>) {
    && Distinct(all) && (forall e :: e in all ==> e.0 in m && m[e.0] == e.1)
    && forall k :: k in m ==> (k, m[k]) in all
  }

  /** What is traversed, in either direction, is the plain map. */
  lemma DirectedItems<K, V>(m: HashMap<K, V>, h: K -> Word, reverse: bool)
    requires HashMaps.Valid(m, h)
    ensures Lists(Directed(Bindings(m), reverse), Abs(m))
  {
    var entries := Bindings(m);
    if m.root.Some? { EntriesSized(m.root.value, h); }
    ReverseDistinct(entries);
    hide Entries, WfRoot;
    forall e | e in Directed(entries, reverse) ensures e.0 in Abs(m) && Abs(m)[e.0] == e.1 {
      ReverseHas(entries, e);
      ToMapIs(entries, e.0);
    }
    forall k | k in Abs(m) ensures (k, Abs(m)[k]) in Directed(entries, reverse) {
      ToMapIs(entries, k);
      ReverseHas(entries, (k, Abs(m)[k]));
    }
  }

  /** A full traversal produces every binding of the plain map once, in order or in reverse order. */
  method Traverse<K, V>(m: HashMap<K, V>, reverse: bool, ghost h: K -> Word) returns (all: seq<Entry<K, V>>)
    ensures all == Directed(Bindings(m), reverse)
    ensures HashMaps.Valid(m, h) ==> Lists(all, Abs(m))
  {
    hide *;
    if HashMaps.Valid(m, h) { DirectedItems(m, h, reverse); }
    var it := new Iterator(m, reverse);
    all := [];
    ghost var rest := it.Remaining();
    while true
      invariant it.Valid() && it.reverse == reverse && it.Remaining() == rest
      invariant all + rest == Directed(Bindings(m), reverse)
      decreases |rest|
    {
      var r := it.Next();
      if r.None? { return; }
      all := all + [r.value];
      rest := rest[1..];
    }
  }
}
