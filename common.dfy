/** Small value types shared by the other modules.
    `Vec3` stands for the three-component vector of the `math4` module, which
    is not part of this model: only construction and componentwise addition
    are used by the scene graph. */
module Common {

  datatype Option<+T> = None | Some(value: T)

  /** A 3D vector (`Vec3.make(x, y, z)`). */
  datatype Vec3 = Vec3(x: real, y: real, z: real)

  /** `Vec3.zero`. */
  const Zero3: Vec3 := Vec3(0.0, 0.0, 0.0)

  /** `Vec3.unit`. */
  const Unit3: Vec3 := Vec3(1.0, 1.0, 1.0)

  /** `v.clone.add(w)`: a new vector holding the componentwise sum. */
  function Add3(v: Vec3, w: Vec3): (r: Vec3)
    ensures r.x - w.x == v.x && r.y - w.y == v.y && r.z - w.z == v.z
  {
    Vec3(v.x + w.x, v.y + w.y, v.z + w.z)
  }

  // ------------------------------------------------ JavaScript array calls

  /** `a.indexOf(x)`: the first position of `x`, or -1. */
  function IndexOf<T(==)>(a: seq<T>, x: T): (r: int)
    ensures -1 <= r < |a|
    ensures r == -1 <==> x !in a
    ensures r >= 0 ==> a[r] == x && x !in a[..r]
  {
    if a == [] then -1
    else if a[0] == x then 0
    else var r := IndexOf(a[1..], x); if r == -1 then -1 else assert a[1..][..r] == a[1..r + 1]; r + 1
  }

  /** `a.splice(n, 1)`: a negative start counts from the end, a start past
      the end removes nothing. */
  function SpliceOne<T>(a: seq<T>, n: int): seq<T>
  {
    var start := if n < 0 then (if |a| + n < 0 then 0 else |a| + n) else (if n < |a| then n else |a|);
    if start < |a| then a[..start] + a[start + 1..] else a
  }

  /** Splicing at an index inside the array removes exactly that entry and
      moves every later entry down by one; a start past the end changes
      nothing; -1 removes the last entry. */
  lemma SpliceOneEffect<T>(a: seq<T>, n: int)
    ensures 0 <= n < |a| ==> |SpliceOne(a, n)| == |a| - 1
    ensures 0 <= n < |a| ==> forall i :: 0 <= i < n ==> SpliceOne(a, n)[i] == a[i]
    ensures 0 <= n < |a| ==> forall i :: n <= i < |a| - 1 ==> SpliceOne(a, n)[i] == a[i + 1]
    ensures n >= |a| ==> SpliceOne(a, n) == a
    ensures n == -1 && a != [] ==> SpliceOne(a, n) == a[..|a| - 1]
  {
  }

  /** Splicing never adds entries. */
  lemma SpliceOneShrinks<T>(a: seq<T>, n: int)
    ensures multiset(SpliceOne(a, n)) <= multiset(a)
    ensures forall x :: x in SpliceOne(a, n) ==> x in a
  {
    var start := if n < 0 then (if |a| + n < 0 then 0 else |a| + n) else (if n < |a| then n else |a|);
    if start < |a| {
      var s := SpliceOne(a, n);
      assert s == a[..start] + a[start + 1..];
      DropAtMultiset(a, start);
      forall x | x in s
        ensures x in a
      {
        assert x in multiset(s);
      }
    }
  }

  /** Splicing out the position `indexOf` reports removes the first
      occurrence of that value. */
  lemma SpliceIndexOfRemoves<T>(a: seq<T>, x: T)
    requires x in a
    ensures var i := IndexOf(a, x); SpliceOne(a, i) == a[..i] + a[i + 1..]
    ensures multiset(SpliceOne(a, IndexOf(a, x))) == multiset(a) - multiset{x}
  {
    var i := IndexOf(a, x);
    SpliceAt(a, i);
    DropAtMultiset(a, i);
  }

  lemma SpliceAt<T>(a: seq<T>, i: int)
    requires 0 <= i < |a|
    ensures SpliceOne(a, i) == a[..i] + a[i + 1..]
  {
  }

  lemma DropAtMultiset<T>(a: seq<T>, i: int)
    requires 0 <= i < |a|
    ensures multiset(a[..i] + a[i + 1..]) == multiset(a) - multiset{a[i]}
  {
    assert a == a[..i] + [a[i]] + a[i + 1..];
  }

  /** No value occurs twice. */
  predicate Distinct<T(==)>(a: seq<T>)
  {
    forall i, j :: 0 <= i < j < |a| ==> a[i] != a[j]
  }

  /** Splicing keeps the remaining entries distinct. */
  lemma SpliceOneKeepsDistinct<T>(a: seq<T>, n: int)
    requires Distinct(a)
    ensures Distinct(SpliceOne(a, n))
  {
    var start := if n < 0 then (if |a| + n < 0 then 0 else |a| + n) else (if n < |a| then n else |a|);
    if start < |a| {
      RemoveAtKeepsDistinct(a, start);
    }
  }

  lemma RemoveAtKeepsDistinct<T>(a: seq<T>, k: int)
    requires Distinct(a) && 0 <= k < |a|
    ensures Distinct(a[..k] + a[k + 1..])
  {
    var b := a[..k] + a[k + 1..];
    assert forall i :: 0 <= i < |b| ==> b[i] == a[if i < k then i else i + 1];
  }

  /** In a list without repeats, `indexOf` finds each entry at its own
      position. */
  lemma IndexOfDistinct<T>(a: seq<T>, k: int)
    requires Distinct(a) && 0 <= k < |a|
    ensures IndexOf(a, a[k]) == k
  {
    var r := IndexOf(a, a[k]);
    assert a[r] == a[k];
  }
}
