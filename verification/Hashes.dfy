/** Fixed-width hashes: the XOR fold used where order must not matter, and the
    concatenate-then-hash step used where it must.

    `twox_256` stays uninterpreted: every member takes it as the total function `tw`,
    so every lemma holds for every digest function. */
module Hashes {
  import opened Lists

  type Bytes = seq<bv8>

  const HASH_LEN: nat := 32

  type Hash = h: seq<bv8> | |h| == 32 witness seq(32, _ => 0)

  type Digest = Bytes -> Hash

  function Repeat(b: bv8): Hash {
    seq(HASH_LEN, _ => b)
  }

  function Zero(): Hash {
    Repeat(0)
  }

  function Xor(a: Hash, b: Hash): (out: Hash)
    ensures forall i :: 0 <= i < HASH_LEN ==> out[i] == a[i] ^ b[i]
  {
    seq(HASH_LEN, i requires 0 <= i < HASH_LEN => a[i] ^ b[i])
  }

  /** The array-filling loop behind `Xor`. */
  method ComputeXor(a: Hash, b: Hash) returns (out: Hash)
    ensures out == Xor(a, b)
  {
    var buffer := new bv8[HASH_LEN];
    for idx := 0 to HASH_LEN
      invariant forall i :: 0 <= i < idx ==> buffer[i] == a[i] ^ b[i]
    {
      buffer[idx] := a[idx] ^ b[idx];
    }
    out := buffer[..];
  }

  lemma XorCommutes(a: Hash, b: Hash)
    ensures Xor(a, b) == Xor(b, a)
  {
    assert forall i :: 0 <= i < HASH_LEN ==> Xor(a, b)[i] == Xor(b, a)[i];
  }

  lemma XorAssociates(a: Hash, b: Hash, c: Hash)
    ensures Xor(Xor(a, b), c) == Xor(a, Xor(b, c))
  {
    forall i | 0 <= i < HASH_LEN
      ensures Xor(Xor(a, b), c)[i] == Xor(a, Xor(b, c))[i]
    {
      assert (a[i] ^ b[i]) ^ c[i] == a[i] ^ (b[i] ^ c[i]);
    }
  }

  /** XOR of the prefix and one more hash swaps with any other hash. */
  lemma XorSwapsLast(a: Hash, b: Hash, c: Hash)
    ensures Xor(Xor(a, b), c) == Xor(Xor(a, c), b)
  {
    XorAssociates(a, b, c);
    XorCommutes(b, c);
    XorAssociates(a, c, b);
  }

  /** The source's `fold([0u8; HASH_LEN], xor)`. */
  function XorFold(hashes: seq<Hash>): Hash {
    if hashes == [] then Zero()
    else Xor(XorFold(hashes[..|hashes| - 1]), hashes[|hashes| - 1])
  }

  lemma {:induction false} XorFoldRemove(hashes: seq<Hash>, i: nat)
    requires i < |hashes|
    ensures XorFold(hashes) == Xor(XorFold(Remove(hashes, i)), hashes[i])
  {
    hide Xor;
    var n := |hashes| - 1;
    if i == n {
      assert Remove(hashes, i) == hashes[..n];
    } else {
      XorFoldRemove(hashes[..n], i);
      var rest, inner := Remove(hashes, i), Remove(hashes[..n], i);
      assert rest[..n - 1] == inner;
      assert rest[n - 1] == hashes[n];
      XorSwapsLast(XorFold(inner), hashes[i], hashes[n]);
    }
  }

  /** Equal keys carry equal hashes. */
  ghost predicate KeysDecide<K>(keys: seq<K>, hashes: seq<Hash>, keys': seq<K>, hashes': seq<Hash>) {
    && |keys| == |hashes| && |keys'| == |hashes'|
    && forall i, j :: 0 <= i < |keys| && 0 <= j < |keys'| && keys[i] == keys'[j] ==> hashes[i] == hashes'[j]
  }

  lemma KeysDecideFewer<K>(keys: seq<K>, hashes: seq<Hash>, keys': seq<K>, hashes': seq<Hash>, j: nat)
    requires KeysDecide(keys, hashes, keys', hashes') && |keys| > 0 && j < |keys'|
    ensures KeysDecide(keys[..|keys| - 1], hashes[..|keys| - 1], Remove(keys', j), Remove(hashes', j))
  {
    var ks, hs, ks', hs' := keys[..|keys| - 1], hashes[..|keys| - 1], Remove(keys', j), Remove(hashes', j);
    forall a, b | 0 <= a < |ks| && 0 <= b < |ks'| && ks[a] == ks'[b]
      ensures hs[a] == hs'[b]
    {
      var b' := if b < j then b else b + 1;
      assert keys[a] == keys'[b'];
    }
  }

  /** Order independence, in the form every use needs: when two lists of keys are the same
      up to order, and equal keys carry equal hashes, the two XOR folds agree. */
  lemma {:induction false} XorFoldByKeys<K>(keys: seq<K>, hashes: seq<Hash>, keys': seq<K>, hashes': seq<Hash>)
    requires KeysDecide(keys, hashes, keys', hashes')
    requires multiset(keys) == multiset(keys')
    ensures XorFold(hashes) == XorFold(hashes')
    decreases |keys|
  {
    if keys == [] {
      assert |multiset(keys')| == |keys'|;
    } else {
      var n := |keys| - 1;
      assert keys[n] in multiset(keys);
      var j := Occurs(keys[n], keys');
      SameRest(keys, keys', j);
      KeysDecideFewer(keys, hashes, keys', hashes', j);
      XorFoldByKeys(keys[..n], hashes[..n], Remove(keys', j), Remove(hashes', j));
      XorFoldRemove(hashes', j);
    }
  }

  // ---- nothing is lost when one item changes ----

  lemma XorTwice(a: Hash, b: Hash)
    ensures Xor(a, Xor(a, b)) == b
  {
    forall i | 0 <= i < HASH_LEN
      ensures Xor(a, Xor(a, b))[i] == b[i]
    {
      assert Xor(a, Xor(a, b))[i] == a[i] ^ Xor(a, b)[i] == a[i] ^ (a[i] ^ b[i]);
      XorByteTwice(a[i], b[i]);
    }
  }

  lemma XorByteTwice(a: bv8, b: bv8)
    ensures a ^ (a ^ b) == b
  {
  }

  lemma XorCancels(a: Hash, b: Hash, c: Hash)
    ensures Xor(a, b) == Xor(a, c) <==> b == c
  {
    hide Xor;
    XorTwice(a, b);
    XorTwice(a, c);
  }

  /** Changing one hash always changes the fold. */
  lemma XorFoldOneChanged(hashes: seq<Hash>, i: nat, h: Hash)
    requires i < |hashes|
    ensures XorFold(hashes) == XorFold(hashes[i := h]) <==> hashes[i] == h
  {
    var hashes' := hashes[i := h];
    XorFoldRemove(hashes, i);
    XorFoldRemove(hashes', i);
    assert Remove(hashes, i) == Remove(hashes', i);
    XorCancels(XorFold(Remove(hashes, i)), hashes[i], hashes'[i]);
  }

  /** Changing one item changes the fold exactly when it changes the item's hash. */
  lemma FoldOneChanged<A>(h: A -> Hash, items: seq<A>, i: nat, x: A)
    requires i < |items|
    ensures XorFold(Map(h, items)) == XorFold(Map(h, items[i := x])) <==> h(items[i]) == h(x)
  {
    assert Map(h, items[i := x]) == Map(h, items)[i := h(x)];
    XorFoldOneChanged(Map(h, items), i, h(x));
  }

  function Flatten(parts: seq<Hash>): (out: Bytes)
    ensures |out| == HASH_LEN * |parts|
  {
    if parts == [] then []
    else Flatten(parts[..|parts| - 1]) + parts[|parts| - 1]
  }

  lemma {:induction false} FlattenInjective(parts: seq<Hash>, parts': seq<Hash>)
    requires |parts| == |parts'| && Flatten(parts) == Flatten(parts')
    ensures parts == parts'
    decreases |parts|
  {
    if parts != [] {
      var n := |parts| - 1;
      var x, y := Flatten(parts), Flatten(parts');
      assert x[..HASH_LEN * n] == Flatten(parts[..n]) && y[..HASH_LEN * n] == Flatten(parts'[..n]);
      assert x[HASH_LEN * n..] == parts[n] && y[HASH_LEN * n..] == parts'[n];
      FlattenInjective(parts[..n], parts'[..n]);
      assert parts == parts[..n] + [parts[n]] && parts' == parts'[..n] + [parts'[n]];
    }
  }

  lemma Joined2(a: Hash, b: Hash)
    ensures Flatten([a, b]) == a + b
  {
    assert [a, b][..1] == [a] && [a][..0] == [];
    assert Flatten([a]) == a;
  }

  lemma Joined3(a: Hash, b: Hash, c: Hash)
    ensures Flatten([a, b, c]) == a + b + c
  {
    Joined2(a, b);
    assert [a, b, c][..2] == [a, b];
  }

  /** `concat_and_hash2` .. `concat_and_hash6`: the arity is the length of `parts`. */
  function ConcatHash(tw: Digest, parts: seq<Hash>): Hash {
    tw(Flatten(parts))
  }

  /** The buffer-filling form that the macro expands to. */
  method ComputeConcatHash(tw: Digest, parts: seq<Hash>) returns (h: Hash)
    ensures h == ConcatHash(tw, parts)
  {
    var out := new bv8[HASH_LEN * |parts|];
    var start := 0;
    for k := 0 to |parts|
      invariant start == HASH_LEN * k
      invariant start <= out.Length
      invariant out[..start] == Flatten(parts[..k])
    {
      ghost var before := out[..start];
      assert start + HASH_LEN <= out.Length;
      forall i | 0 <= i < HASH_LEN {
        out[start + i] := parts[k][i];
      }
      assert parts[..k + 1][..k] == parts[..k];
      assert out[..start + HASH_LEN] == before + parts[k];
      start := start + HASH_LEN;
    }
    assert parts[..|parts|] == parts;
    assert out[..] == out[..start];
    h := tw(out[..]);
  }
}
