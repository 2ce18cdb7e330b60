/** DHT keys and the Kademlia XOR metric (llarp/dht/key.hpp, llarp/dht/kademlia.hpp): keys are
    32 bytes, combined byte by byte with xor and compared lexicographically. */
module DhtKey {
  import opened Common

  const KEY_SIZE: nat := 32

  type Key = k: seq<bv8> | |k| == KEY_SIZE witness seq(KEY_SIZE, i => 0)

  function ZeroKey(): Key { seq(KEY_SIZE, i => 0) }

  /** The distance that a search starts from. */
  function MaxKey(): Key { seq(KEY_SIZE, i => 0xff) }

  function XorByte(x: bv8, y: bv8): bv8 { x ^ y }

  function Xor(a: Key, b: Key): Key
  {
    seq(KEY_SIZE, i requires 0 <= i < KEY_SIZE => XorByte(a[i], b[i]))
  }

  /** std::array comparison. */
  predicate Less(a: seq<bv8>, b: seq<bv8>)
    requires |a| == |b|
  {
    if a == [] then false
    else if a[0] != b[0] then a[0] < b[0]
    else Less(a[1..], b[1..])
  }

  /** XorMetric(us)(left, right). */
  predicate Closer(us: Key, left: Key, right: Key)
  {
    Less(Xor(us, left), Xor(us, right))
  }

  // ----- the order as an order of numbers

  function ByteValue(x: bv8): (n: nat)
    ensures n <= 255
  {
    x as nat
  }

  /** The big-endian number that the bytes spell. */
  function Value(a: seq<bv8>): nat
  {
    if a == [] then 0 else ByteValue(a[0]) * Pow256(|a| - 1) + Value(a[1..])
  }

  lemma {:induction false} ValueBound(a: seq<bv8>)
    ensures Value(a) < Pow256(|a|)
  {
    hide ByteValue;
    if a != [] {
      ValueBound(a[1..]);
      DigitBound(ByteValue(a[0]), Pow256(|a| - 1), Value(a[1..]));
    }
  }

  lemma DigitBound(x: nat, p: nat, u: nat)
    requires x <= 255 && u < p
    ensures x * p + u < 256 * p
  {
    assert x * p <= 255 * p;
  }

  /** Comparing two-part numbers whose low parts are below p. */
  lemma HeadDecides(x: nat, y: nat, p: nat, u: nat, v: nat)
    requires u < p && v < p
    ensures x < y ==> x * p + u < y * p + v
    ensures y < x ==> y * p + v < x * p + u
    ensures x == y ==> (x * p + u < y * p + v <==> u < v) && (x * p + u == y * p + v <==> u == v)
  {
    if x < y { assert (x + 1) * p <= y * p; }
    if y < x { assert (y + 1) * p <= x * p; }
  }

  lemma ByteOrder(x: bv8, y: bv8)
    ensures x < y <==> ByteValue(x) < ByteValue(y)
    ensures x == y <==> ByteValue(x) == ByteValue(y)
  {
  }

  lemma {:induction false} LessIsValueOrder(a: seq<bv8>, b: seq<bv8>)
    requires |a| == |b|
    ensures Less(a, b) <==> Value(a) < Value(b)
    ensures a == b <==> Value(a) == Value(b)
    decreases |a|
  {
    if a == [] {
      assert b == [];
    } else {
      LessIsValueOrder(a[1..], b[1..]);
      ConsOrder(a[0], a[1..], b[0], b[1..]);
      assert a == [a[0]] + a[1..] && b == [b[0]] + b[1..];
    }
  }

  lemma ConsOrder(x: bv8, u: seq<bv8>, y: bv8, v: seq<bv8>)
    requires |u| == |v|
    requires Less(u, v) <==> Value(u) < Value(v)
    requires u == v <==> Value(u) == Value(v)
    ensures Less([x] + u, [y] + v) <==> Value([x] + u) < Value([y] + v)
    ensures [x] + u == [y] + v <==> Value([x] + u) == Value([y] + v)
  {
    hide Less, Value, Pow256, ByteValue;
    ValueBound(u);
    ValueBound(v);
    ByteOrder(x, y);
    HeadDecides(ByteValue(x), ByteValue(y), Pow256(|u|), Value(u), Value(v));
    ValueCons(x, u);
    ValueCons(y, v);
    LessCons(x, u, y, v);
    ConsEqual(x, u, y, v);
  }

  lemma ConsEqual(x: bv8, u: seq<bv8>, y: bv8, v: seq<bv8>)
    ensures [x] + u == [y] + v <==> x == y && u == v
  {
    if [x] + u == [y] + v {
      assert ([x] + u)[0] == x && ([y] + v)[0] == y;
      assert ([x] + u)[1..] == u && ([y] + v)[1..] == v;
    }
  }

  lemma ValueCons(x: bv8, u: seq<bv8>)
    ensures Value([x] + u) == ByteValue(x) * Pow256(|u|) + Value(u)
  {
    assert ([x] + u)[1..] == u;
  }

  lemma LessCons(x: bv8, u: seq<bv8>, y: bv8, v: seq<bv8>)
    requires |u| == |v|
    ensures Less([x] + u, [y] + v) <==> if x != y then x < y else Less(u, v)
  {
    assert ([x] + u)[1..] == u && ([y] + v)[1..] == v;
  }

  // ----- the metric

  function Distance(target: Key, k: Key): nat
  {
    Value(Xor(target, k))
  }

  lemma XorByteCancels(t: bv8, a: bv8, b: bv8)
    requires XorByte(t, a) == XorByte(t, b)
    ensures a == b
  {
  }

  lemma XorCancelsAt(t: Key, a: Key, b: Key, i: nat)
    requires i < KEY_SIZE && Xor(t, a)[i] == Xor(t, b)[i]
    ensures a[i] == b[i]
  {
    hide XorByte;
    XorByteCancels(t[i], a[i], b[i]);
  }

  lemma XorCancels(t: Key, a: Key, b: Key)
    requires Xor(t, a) == Xor(t, b)
    ensures a == b
  {
    hide Xor;
    forall i | 0 <= i < KEY_SIZE
      ensures a[i] == b[i]
    {
      XorCancelsAt(t, a, b, i);
    }
  }

  /** The metric is the order of distances, and two keys at one distance are equal. */
  lemma CloserIsLessDistant(target: Key, a: Key, b: Key)
    ensures Closer(target, a, b) <==> Distance(target, a) < Distance(target, b)
    ensures Distance(target, a) == Distance(target, b) <==> a == b
  {
    LessIsValueOrder(Xor(target, a), Xor(target, b));
    if Distance(target, a) == Distance(target, b) { XorCancels(target, a, b); }
  }

  lemma XorSymmetric(a: Key, b: Key)
    ensures Xor(a, b) == Xor(b, a)
  {
    forall i | 0 <= i < KEY_SIZE
      ensures Xor(a, b)[i] == Xor(b, a)[i]
    {
      assert XorByte(a[i], b[i]) == XorByte(b[i], a[i]);
    }
  }

  /** Only the target itself is at distance zero. */
  lemma ZeroDistanceIsTarget(target: Key, a: Key)
    ensures Distance(target, a) == 0 <==> a == target
  {
    forall i | 0 <= i < KEY_SIZE
      ensures Xor(target, target)[i] == 0
    {
      assert XorByte(target[i], target[i]) == 0;
    }
    ZeroValue(Xor(target, target));
    CloserIsLessDistant(target, a, target);
  }

  lemma {:induction false} ZeroValue(a: seq<bv8>)
    requires forall i :: 0 <= i < |a| ==> a[i] == 0
    ensures Value(a) == 0
  {
    if a != [] { ZeroValue(a[1..]); }
  }

  /** A node at the largest distance is never below the bound that the searches start from. */
  lemma BelowMax(target: Key, a: Key)
    ensures Less(Xor(target, a), MaxKey()) <==> Distance(target, a) < Value(MaxKey())
  {
    LessIsValueOrder(Xor(target, a), MaxKey());
  }
}
