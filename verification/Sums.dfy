/** Sums of integers over finite sets, independent of the order of summation. */
module Sums {
  ghost function Sum<K(!new)>(s: set<K>, f: K -> int): int
  {
    if s == {} then 0 else var k :| k in s; f(k) + Sum(s - {k}, f)
  }

  lemma {:induction false} SumRemove<K(!new)>(s: set<K>, f: K -> int, k: K)
    requires k in s
    ensures Sum(s, f) == f(k) + Sum(s - {k}, f)
    decreases s
  {
    var x :| x in s && Sum(s, f) == f(x) + Sum(s - {x}, f);
    if x == k {
    } else {
      SumRemove(s - {x}, f, k);
      SumRemove(s - {k}, f, x);
      assert s - {x} - {k} == s - {k} - {x};
    }
  }

  lemma {:induction false} SumCongruent<K(!new)>(s: set<K>, f: K -> int, g: K -> int)
    requires forall k :: k in s ==> f(k) == g(k)
    ensures Sum(s, f) == Sum(s, g)
    decreases s
  {
    if s == {} {
    } else {
      var k :| k in s;
      SumRemove(s, f, k);
      SumRemove(s, g, k);
      SumCongruent(s - {k}, f, g);
    }
  }

  lemma {:induction false} SumZero<K(!new)>(s: set<K>, f: K -> int)
    requires forall k :: k in s ==> f(k) == 0
    ensures Sum(s, f) == 0
    decreases s
  {
    if s == {} {
    } else {
      var k :| k in s;
      SumRemove(s, f, k);
      SumZero(s - {k}, f);
    }
  }

  /** Elements on which the summand is zero may be dropped. */
  lemma {:induction false} SumSupport<K(!new)>(s: set<K>, t: set<K>, f: K -> int)
    requires s <= t
    requires forall k :: k in t - s ==> f(k) == 0
    ensures Sum(t, f) == Sum(s, f)
    decreases t
  {
    if t - s == {} {
      assert t == s + (t - s) == s;
    } else {
      var k :| k in t - s;
      SumRemove(t, f, k);
      SumSupport(s, t - {k}, f);
    }
  }

  lemma {:induction false} SumAdd<K(!new)>(s: set<K>, f: K -> int, g: K -> int, h: K -> int)
    requires forall k :: k in s ==> h(k) == f(k) + g(k)
    ensures Sum(s, h) == Sum(s, f) + Sum(s, g)
    decreases s
  {
    if s == {} {
    } else {
      var k :| k in s;
      SumRemove(s, f, k);
      SumRemove(s, g, k);
      SumRemove(s, h, k);
      SumAdd(s - {k}, f, g, h);
    }
  }

  /** Interchange of two finite sums: `f` lists the summand by rows, `g` the same by columns. */
  lemma {:induction false} SumSwap<A(!new), B(!new)>(s: set<A>, t: set<B>, f: A -> B -> int, g: B -> A -> int,
                                                    rowSum: A -> int, colSum: B -> int)
    requires forall a, b :: a in s && b in t ==> f(a)(b) == g(b)(a)
    requires forall a :: a in s ==> rowSum(a) == Sum(t, f(a))
    requires forall b :: b in t ==> colSum(b) == Sum(s, g(b))
    ensures Sum(s, rowSum) == Sum(t, colSum)
    decreases s
  {
    if s == {} {
      SumZero(t, colSum);
    } else {
      var x :| x in s;
      var rest := s - {x};
      SumRemove(s, rowSum, x);
      var others := b => Sum(rest, g(b));
      forall b | b in t ensures colSum(b) == f(x)(b) + others(b) {
        SumRemove(s, g(b), x);
      }
      SumAdd(t, f(x), others, colSum);
      SumSwap(rest, t, f, g, rowSum, others);
    }
  }
}
