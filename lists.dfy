/** The array filters the admin pages apply to their state lists. */
module Lists {

  /** `xs.map(f)`. */
  function Map<A, B>(f: A -> B, xs: seq<A>): (r: seq<B>)
    ensures |r| == |xs|
    ensures forall i :: 0 <= i < |xs| ==> r[i] == f(xs[i])
  {
    seq(|xs|, i requires 0 <= i < |xs| => f(xs[i]))
  }

  lemma {:induction false} MapCons<A, B>(f: A -> B, x: A, xs: seq<A>)
    ensures Map(f, [x] + xs) == [f(x)] + Map(f, xs)
  {
    var l, r := Map(f, [x] + xs), [f(x)] + Map(f, xs);
    forall i | 0 <= i < |l|
      ensures l[i] == r[i]
    {
      if i > 0 {
        assert ([x] + xs)[i] == xs[i - 1];
      }
    }
  }

  /** `xs.filter((y) => y !== x)`: every occurrence of `x` removed. */
  function Without<T(==)>(xs: seq<T>, x: T): (r: seq<T>)
    ensures |r| <= |xs|
    ensures x !in r
  {
    if xs == [] then []
    else if xs[0] == x then Without(xs[1..], x)
    else [xs[0]] + Without(xs[1..], x)
  }

  /** Removing a value keeps every other value and its order. */
  lemma {:induction false} WithoutSpec<T>(xs: seq<T>, x: T)
    ensures forall y :: y in Without(xs, x) <==> y in xs && y != x
    ensures x !in xs ==> Without(xs, x) == xs
  {
    if xs != [] {
      WithoutSpec(xs[1..], x);
      assert xs == [xs[0]] + xs[1..];
    }
  }

  /** `xs.filter((y) => !drop.includes(y))`. */
  function WithoutAll<T(==)>(xs: seq<T>, drop: seq<T>): (r: seq<T>)
    ensures |r| <= |xs|
  {
    if xs == [] then []
    else if xs[0] in drop then WithoutAll(xs[1..], drop)
    else [xs[0]] + WithoutAll(xs[1..], drop)
  }

  /** The kept values are exactly those not dropped; when nothing is dropped
      the list comes back whole. */
  lemma {:induction false} WithoutAllSpec<T>(xs: seq<T>, drop: seq<T>)
    ensures forall y :: y in WithoutAll(xs, drop) <==> y in xs && y !in drop
    ensures (forall y :: y in xs ==> y !in drop) ==> WithoutAll(xs, drop) == xs
  {
    if xs != [] {
      WithoutAllSpec(xs[1..], drop);
      assert xs == [xs[0]] + xs[1..];
    }
  }

  /** `xs.filter((_, i) => i !== index)`: the entry at `index` removed, or
      nothing when `index` is out of range. */
  function RemoveAt<T>(xs: seq<T>, index: int): (r: seq<T>)
    ensures 0 <= index < |xs| ==> |r| == |xs| - 1
    ensures !(0 <= index < |xs|) ==> r == xs
    ensures 0 <= index < |xs| ==> forall j :: 0 <= j < |r| ==> r[j] == xs[if j < index then j else j + 1]
  {
    if 0 <= index < |xs| then xs[..index] + xs[index + 1..] else xs
  }

  /** `rows.filter((p) => p.id !== id)`, with `idOf` reading a row's id. */
  function WithoutId<T>(rows: seq<T>, idOf: T -> int, id: int): (r: seq<T>)
    ensures |r| <= |rows|
  {
    if rows == [] then []
    else if idOf(rows[0]) == id then WithoutId(rows[1..], idOf, id)
    else [rows[0]] + WithoutId(rows[1..], idOf, id)
  }

  /** Removing rows by id drops every row with that id and keeps the rest. */
  lemma {:induction false} WithoutIdSpec<T>(rows: seq<T>, idOf: T -> int, id: int)
    ensures forall p :: p in WithoutId(rows, idOf, id) <==> p in rows && idOf(p) != id
  {
    if rows != [] {
      WithoutIdSpec(rows[1..], idOf, id);
      assert rows == [rows[0]] + rows[1..];
    }
  }

  /** `[...new Set(xs)]`: each value once, in order of first appearance. */
  function Dedup<T(==)>(xs: seq<T>): seq<T>
  {
    if xs == [] then []
    else
      var d := Dedup(xs[..|xs| - 1]);
      if xs[|xs| - 1] in d then d else d + [xs[|xs| - 1]]
  }

  predicate Distinct<T(==)>(xs: seq<T>)
  {
    forall i, j :: 0 <= i < j < |xs| ==> xs[i] != xs[j]
  }

  /** The index of the first occurrence of `x` in `xs`. */
  function FirstIndex<T(==)>(xs: seq<T>, x: T): (k: nat)
    requires x in xs
    ensures k < |xs| && xs[k] == x
    ensures forall i :: 0 <= i < k ==> xs[i] != x
  {
    if xs[0] == x then 0 else 1 + FirstIndex(xs[1..], x)
  }

  lemma {:induction false} FirstIndexOfPrefix<T>(xs: seq<T>, x: T, y: T)
    requires x in xs
    ensures FirstIndex(xs + [y], x) == FirstIndex(xs, x)
  {
    var k := FirstIndex(xs, x);
    var k' := FirstIndex(xs + [y], x);
    assert (xs + [y])[k] == x;
    assert xs[k'] == x;
  }

  /** Dedup keeps exactly the values of its input, each once, ordered by
      where each value first appears. */
  lemma {:induction false} DedupSpec<T>(xs: seq<T>)
    ensures forall x :: x in Dedup(xs) <==> x in xs
    ensures Distinct(Dedup(xs))
    ensures forall i, j :: 0 <= i < j < |Dedup(xs)| ==>
      FirstIndex(xs, Dedup(xs)[i]) < FirstIndex(xs, Dedup(xs)[j])
  {
    if xs != [] {
      var init := xs[..|xs| - 1];
      var last := xs[|xs| - 1];
      assert xs == init + [last];
      DedupSpec(init);
      var d := Dedup(init);
      forall x | x in init
        ensures FirstIndex(xs, x) == FirstIndex(init, x)
      {
        FirstIndexOfPrefix(init, x, last);
      }
      if last !in d {
        assert FirstIndex(xs, last) == |init|;
      }
    }
  }

  lemma {:induction false} DedupOfOne<T>(x: T)
    ensures Dedup([x]) == [x]
  {
    assert [x][..0] == [];
  }
}
