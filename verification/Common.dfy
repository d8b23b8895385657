/** Small vocabulary shared by every module: optional values, results, and tables read as partial functions. */
module Common {

  datatype Option<+T> = None | Some(value: T)

  datatype Result<+T, +E> = Ok(value: T) | Err(error: E)

  /** A table lookup: the row stored under a key, if there is one. */
  function Get<X, Y>(m: map<X, Y>, x: X): Option<Y> {
    if x in m then Some(m[x]) else None
  }

  function Elements<T(==)>(s: seq<T>): set<T> {
    set x | x in s
  }

  lemma ElementsAppend<T>(s: seq<T>, x: T)
    ensures Elements(s + [x]) == Elements(s) + {x}
  {
  }

  /** Two tables with the same lookups are the same table. */
  lemma GetExtensional<X(!new), Y>(m: map<X, Y>, m': map<X, Y>)
    requires forall x :: Get(m, x) == Get(m', x)
    ensures m == m'
  {
    assert forall x :: x in m <==> Get(m, x).Some?;
    assert forall x :: x in m' <==> Get(m', x).Some?;
    assert forall x | x in m :: Get(m, x) == Some(m[x]) && Get(m', x) == Some(m'[x]);
  }

  // ---------------------------------------------------------------- tables keyed by an owner first

  /** The rows of one owner. */
  function Slice<A(!new, ==), K(!new, ==), V>(m: map<(A, K), V>, a: A): (s: map<K, V>)
    ensures forall k :: Get(s, k) == Get(m, (a, k))
  {
    map p | p in m && p.0 == a :: p.1 := m[p]
  }

  /** The table with the rows of one owner replaced. */
  function WithSlice<A(!new, ==), K(!new, ==), V>(m: map<(A, K), V>, a: A, s: map<K, V>): (m': map<(A, K), V>)
    ensures forall b, k :: Get(m', (b, k)) == if b == a then Get(s, k) else Get(m, (b, k))
  {
    map p | p in m.Keys + (set k | k in s :: (a, k)) && (p.0 == a ==> p.1 in s) :: if p.0 == a then s[p.1] else m[p]
  }

  lemma SliceOfWith<A(!new), K(!new), V>(m: map<(A, K), V>, a: A, s: map<K, V>, b: A)
    ensures Slice(WithSlice(m, a, s), b) == if b == a then s else Slice(m, b)
  {
    GetExtensional(Slice(WithSlice(m, a, s), b), if b == a then s else Slice(m, b));
  }

  /** A table is what its owners' rows say it is. */
  lemma SlicesDetermine<A(!new), K(!new), V>(m: map<(A, K), V>, m': map<(A, K), V>)
    requires forall a :: Slice(m, a) == Slice(m', a)
    ensures m == m'
  {
    forall p: (A, K) ensures Get(m, p) == Get(m', p) {
      var (a, k) := p;
      assert Get(m, (a, k)) == Get(Slice(m, a), k) == Get(Slice(m', a), k) == Get(m', (a, k));
    }
    GetExtensional(m, m');
  }

  /** The least element of a non-empty set of numbers. */
  ghost function MinOf(s: set<nat>): (m: nat)
    requires s != {}
    ensures m in s && forall x :: x in s ==> m <= x
  {
    var x :| x in s;
    if s == {x} then x
    else
      var y := MinOf(s - {x});
      assert forall z :: z in s ==> z == x || z in s - {x};
      if x < y then x else y
  }
}
