/** Vocabulary shared by every other module. */
module Base {

  type Byte = b: nat | b < 256

  /** A SHA-256 digest; the protocol only compares digests. */
  datatype Digest = Digest(bytes: seq<Byte>)

  const ZERO_DIGEST: Digest := Digest(seq(32, i => 0))

  /** A point of G1, named by its discrete logarithm. */
  type Sig = nat

  datatype Option<+T> = None | Some(value: T)

  function Max(a: nat, b: nat): nat {
    if a < b then b else a
  }

  /** A hash function that does not collide on the given inputs. */
  ghost predicate CollisionFree<T(!new)>(hash: seq<Byte> -> T, inputs: set<seq<Byte>>) {
    forall x, y :: x in inputs && y in inputs && hash(x) == hash(y) ==> x == y
  }

  /** A set of distinct ids below `bound` holds at most `bound` of them. */
  lemma {:induction false} BoundedSetSize(s: set<nat>, bound: nat)
    requires forall i :: i in s ==> i < bound
    ensures |s| <= bound
  {
    if bound == 0 {
      assert s == {};
    } else {
      BoundedSetSize(s - {bound - 1}, bound - 1);
    }
  }

  /** The ids below `n`. */
  ghost function Below(n: nat): (ids: set<nat>)
    ensures |ids| == n && forall i: nat :: i in ids <==> i < n
  {
    if n == 0 then {} else Below(n - 1) + {n - 1}
  }

  lemma {:induction false} SubsetSize<T>(s: set<T>, t: set<T>)
    requires s <= t
    ensures |s| <= |t|
  {
    assert t == s + (t - s);
  }

  lemma MapSize<K, V>(m: map<K, V>)
    ensures |m| == |m.Keys|
  {
  }
}
