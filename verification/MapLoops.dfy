/** The loops over a node's arrays, each proved to compute the function the trie on values uses. */
module MapLoops {
  import opened Bits
  import opened Options
  import opened HashTrie
  import opened MapNodes

  /** The search loop of the entry lists. */
  method FindPair<K(==), V>(ps: seq<Pair<K, V>>, key: K, ghost es: seq<Entry<K, V>>) returns (i: nat)
    requires |ps| == |es| && forall j :: 0 <= j < |ps| ==> ps[j].key == es[j].0
    ensures i == Find(es, key)
  {
    i := 0;
    while i < |ps| && ps[i].key != key
      invariant i <= |ps| && Find(es, key) == i + Find(es[i..], key)
    {
      assert es[i..][1..] == es[i + 1..];
      i := i + 1;
    }
  }

  /** Overwrite or append the new pair; to remove, the last pair moves into the gap. */
  method EditPairs<T>(ps: seq<T>, i: nat, p: Option<T>) returns (r: seq<T>)
    requires i <= |ps| && (p.None? ==> i < |ps|)
    ensures match p
            case Some(x) => r == if i < |ps| then ps[i := x] else ps + [x]
            case None => |r| == |ps| - 1 && (forall j :: 0 <= j < |r| && j != i ==> r[j] == ps[j]) && (i < |r| ==> r[i] == ps[|r|])
  {
    if i < |ps| {
      match p
      case Some(x) => r := ps[i := x];
      case None =>
        var last := ps[|ps| - 1];
        r := ps[..|ps| - 1];
        if i != |ps| - 1 { r := r[i := last]; }
    } else {
      r := ps + [p.value];
    }
  }

  /** spliceIn: one pass, shifted by one behind the new node. */
  method SplicedIn<T>(nodes: seq<T>, at: nat, node: T) returns (r: seq<T>)
    requires at <= |nodes|
    ensures r == SpliceIn(nodes, at, node)
  {
    r := [];
    var after, s := 0, 0;
    while s < |nodes| + 1
      invariant s <= |nodes| + 1 && after == (if s > at then 1 else 0)
      invariant r == SpliceIn(nodes, at, node)[..s]
    {
      if s == at {
        r := r + [node];
        after := 1;
      } else {
        r := r + [nodes[s - after]];
      }
      s := s + 1;
    }
  }

  /** spliceOut. */
  method SplicedOut<T>(nodes: seq<T>, at: nat) returns (r: seq<T>)
    requires at < |nodes|
    ensures r == SpliceOut(nodes, at)
  {
    r := [];
    var after, s := 0, 0;
    while s < |nodes| - 1
      invariant s <= |nodes| - 1 && after == (if s > at then 1 else 0)
      invariant r == SpliceOut(nodes, at)[..s]
    {
      if s == at { after := 1; }
      r := r + [nodes[s + after]];
      s := s + 1;
    }
  }

  /** expandNodes: the bits are shifted out at the low end, each set one taking the next packed node. */
  method Expanded<T>(bitmap: nat, nodes: seq<T>, size: nat) returns (slots: seq<Option<T>>, taken: nat)
    requires bitmap < Bit(size) && |nodes| == Count(bitmap)
    ensures slots == Unpack(bitmap, nodes, size) && taken == |nodes|
  {
    hide Unpack, Count, Bit;
    var u := new Option<T>[size](_ => None);
    var n: nat, s: nat := bitmap, 0;
    taken := 0;
    assert nodes[0..] == nodes && u[..0] == [];
    while n != 0
      invariant s <= size && n < Bit(size - s) && taken <= |nodes| && |nodes| - taken == Count(n)
      invariant forall t :: s <= t < size ==> u[t] == None
      invariant Unpack(bitmap, nodes, size) == u[..s] + Unpack(n, nodes[taken..], size - s)
      decreases n
    {
      UnpackStep(n, nodes[taken..], size - s);
      ghost var was := u[..s];
      ghost var left := if n % 2 == 1 then nodes[taken + 1..] else nodes[taken..];
      if n % 2 == 1 {
        u[s] := Some(nodes[taken]);
        assert nodes[taken..][1..] == nodes[taken + 1..];
        taken := taken + 1;
      } else {
        u[s] := None;
      }
      assert u[..s + 1] == was + [u[s]];
      Shifted(was, u[s], Unpack(n / 2, left, size - s - 1));
      n, s := n / 2, s + 1;
    }
    UnpackNothing(nodes[taken..], size - s);
    slots := u[..];
    assert slots == u[..s] + seq(size - s, _ => None);
    NothingTaken();
  }

  lemma Shifted<T>(was: seq<T>, x: T, rest: seq<T>)
    ensures was + ([x] + rest) == was + [x] + rest
  {
  }

  lemma NothingTaken()
    ensures Count(0) == 0
  {
  }

  lemma UnpackStep<T>(n: nat, nodes: seq<T>, k: nat)
    requires 0 < n < Bit(k) && |nodes| == Count(n)
    ensures k > 0 && n / 2 < Bit(k - 1) && (n % 2 == 1 ==> nodes != [])
    ensures Count(n / 2) == Count(n) - n % 2
    ensures Unpack(n, nodes, k)
         == if n % 2 == 1 then [Some(nodes[0])] + Unpack(n / 2, nodes[1..], k - 1) else [None] + Unpack(n / 2, nodes, k - 1)
  {
  }

  lemma {:induction false} UnpackNothing<T>(nodes: seq<T>, k: nat)
    ensures Unpack(0, nodes, k) == seq(k, _ => None)
  {
    if k > 0 { UnpackNothing(nodes, k - 1); }
  }

  /** packNodes: one pass over the slots, leaving out `skip`. */
  method PackedBut<T>(slots: seq<Option<T>>, skip: nat) returns (bitmap: nat, nodes: seq<T>)
    requires skip < |slots|
    ensures bitmap == PackBits(slots[skip := None]) && nodes == PackNodes(slots[skip := None])
  {
    bitmap, nodes := 0, [];
    var s, bit := 0, 1;
    ghost var rest := slots[skip := None];
    while s < |slots|
      invariant s <= |slots| && bit == Bit(s)
      invariant bitmap == PackBits(rest[..s]) && nodes == PackNodes(rest[..s])
    {
      PackSnoc(rest[..s], rest[s]);
      assert rest[..s + 1] == rest[..s] + [rest[s]];
      if slots[s].Some? && s != skip {
        bitmap := Or(bitmap, bit);
        nodes := nodes + [slots[s].value];
      }
      s, bit := s + 1, 2 * bit;
    }
    assert rest[..s] == rest;
  }

  lemma {:induction false} PackSnoc<T>(slots: seq<Option<T>>, x: Option<T>)
    ensures PackBits(slots + [x]) == if x.Some? then Or(PackBits(slots), Bit(|slots|)) else PackBits(slots)
    ensures PackNodes(slots + [x]) == PackNodes(slots) + if x.Some? then [x.value] else []
  {
    var all := slots + [x];
    if slots == [] {
      assert all[1..] == [];
    } else {
      assert all[1..] == slots[1..] + [x];
      PackSnoc(slots[1..], x);
      OrDouble(if slots[0].Some? then 1 else 0, PackBits(slots[1..]), Bit(|slots| - 1));
    }
  }

  lemma OrDouble(d: nat, x: nat, y: nat)
    requires d < 2 && y > 0
    ensures Or(d + 2 * x, 2 * y) == d + 2 * Or(x, y)
  {
    assert (d + 2 * x) / 2 == x && (2 * y) / 2 == y;
  }
}
