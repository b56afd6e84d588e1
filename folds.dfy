/** Sums and products of real weights over finite sets of keys.

    The programs modelled here iterate over Python dictionaries and sets, whose
    order the model does not fix.  These folds pick an arbitrary element of the
    key set, and the Pick lemmas show that the result does not depend on which
    element is taken first, so a loop that visits the keys in any order computes
    the same value.
 */
module RealFolds {

  /** The sum of m[k] over the keys ks.  Callers use this non-recursive name,
      so that facts about it match syntactically whatever unfolding depth the
      verifier is at; the recursion lives in SumOver. */
  ghost function Sum<K>(m: map<K, real>, ks: set<K>): real
    requires ks <= m.Keys
  {
    SumOver(m, ks)
  }

  ghost function SumOver<K>(m: map<K, real>, ks: set<K>): real
    requires ks <= m.Keys
    decreases ks
  {
    if ks == {} then 0.0 else var k :| k in ks; m[k] + SumOver(m, ks - {k})
  }

  /** The product of m[k] over the keys ks (recursion in ProductOver). */
  ghost function Product<K>(m: map<K, real>, ks: set<K>): real
    requires ks <= m.Keys
  {
    ProductOver(m, ks)
  }

  ghost function ProductOver<K>(m: map<K, real>, ks: set<K>): real
    requires ks <= m.Keys
    decreases ks
  {
    if ks == {} then 1.0 else var k :| k in ks; m[k] * ProductOver(m, ks - {k})
  }

  /** Any key may be taken out of a sum first. */
  lemma {:induction false} SumPick<K>(m: map<K, real>, ks: set<K>, k: K)
    requires ks <= m.Keys && k in ks
    ensures Sum(m, ks) == m[k] + Sum(m, ks - {k})
    decreases ks
  {
    var j :| j in ks && SumOver(m, ks) == m[j] + SumOver(m, ks - {j});
    if j != k {
      SumPick(m, ks - {j}, k);
      SumPick(m, ks - {k}, j);
      assert ks - {j} - {k} == ks - {k} - {j};
    }
  }

  /** Any key may be taken out of a product first. */
  lemma {:induction false} ProductPick<K>(m: map<K, real>, ks: set<K>, k: K)
    requires ks <= m.Keys && k in ks
    ensures Product(m, ks) == m[k] * Product(m, ks - {k})
    decreases ks
  {
    var j :| j in ks && ProductOver(m, ks) == m[j] * ProductOver(m, ks - {j});
    if j != k {
      ProductPick(m, ks - {j}, k);
      ProductPick(m, ks - {k}, j);
      assert ks - {j} - {k} == ks - {k} - {j};
    }
  }

  /** Adding one key to the keys of a sum adds its weight. */
  lemma SumAdd<K>(m: map<K, real>, ks: set<K>, k: K)
    requires ks <= m.Keys && k in m && k !in ks
    ensures Sum(m, ks + {k}) == Sum(m, ks) + m[k]
  {
    SumPick(m, ks + {k}, k);
    assert ks + {k} - {k} == ks;
  }

  /** A sum over keys whose every weight is zero is zero. */
  lemma {:induction false} SumZero<K>(m: map<K, real>, ks: set<K>)
    requires ks <= m.Keys
    requires forall k :: k in ks ==> m[k] == 0.0
    ensures Sum(m, ks) == 0.0
    decreases ks
  {
    if ks != {} {
      var k :| k in ks;
      SumPick(m, ks, k);
      SumZero(m, ks - {k});
    }
  }

  /** Sums over the same keys add pointwise: if c[k] == a[k] + b[k] for every key,
      the sum of c is the sum of a plus the sum of b. */
  lemma {:induction false} SumLinear<K>(a: map<K, real>, b: map<K, real>, c: map<K, real>, ks: set<K>)
    requires ks <= a.Keys && ks <= b.Keys && ks <= c.Keys
    requires forall k :: k in ks ==> c[k] == a[k] + b[k]
    ensures Sum(c, ks) == Sum(a, ks) + Sum(b, ks)
    decreases ks
  {
    if ks != {} {
      var k :| k in ks;
      SumPick(a, ks, k);
      SumPick(b, ks, k);
      SumPick(c, ks, k);
      SumLinear(a, b, c, ks - {k});
    }
  }

  /** A sum over keys whose every weight is r is |ks| * r. */
  lemma {:induction false} SumConst<K>(m: map<K, real>, ks: set<K>, r: real)
    requires ks <= m.Keys
    requires forall k :: k in ks ==> m[k] == r
    ensures Sum(m, ks) == (|ks| as real) * r
    decreases ks
  {
    if ks != {} {
      var k :| k in ks;
      SumPick(m, ks, k);
      SumConst(m, ks - {k}, r);
      assert |ks| == |ks - {k}| + 1;
    }
  }

  /** A sum over two disjoint key sets is the sum of the two sums. */
  lemma {:induction false} SumUnion<K>(m: map<K, real>, a: set<K>, b: set<K>)
    requires a <= m.Keys && b <= m.Keys && a !! b
    ensures Sum(m, a + b) == Sum(m, a) + Sum(m, b)
    decreases a
  {
    if a != {} {
      var k :| k in a;
      SumPick(m, a, k);
      SumPick(m, a + b, k);
      assert (a + b) - {k} == (a - {k}) + b;
      SumUnion(m, a - {k}, b);
    } else {
      assert a + b == b;
    }
  }

  /** A product of factors that all lie in [0, 1] lies in [0, 1]. */
  lemma {:induction false} ProductInUnitInterval<K>(m: map<K, real>, ks: set<K>)
    requires ks <= m.Keys
    requires forall k :: k in ks ==> 0.0 <= m[k] <= 1.0
    ensures 0.0 <= Product(m, ks) <= 1.0
    decreases ks
  {
    if ks != {} {
      var k :| k in ks;
      ProductPick(m, ks, k);
      ProductInUnitInterval(m, ks - {k});
      var a, b := m[k], Product(m, ks - {k});
      assert 0.0 <= a * b <= 1.0 by {
        assert a * b <= 1.0 * b;
      }
    }
  }

  /** The product of a sequence of factors, taken left to right. */
  function SeqProduct(s: seq<real>): real
  {
    SeqProductOver(s)
  }

  function SeqProductOver(s: seq<real>): real
  {
    if s == [] then 1.0 else SeqProductOver(s[..|s| - 1]) * s[|s| - 1]
  }

  /** Extending a prefix by one factor multiplies its product by that factor. */
  lemma SeqProductPrefix(s: seq<real>, i: int)
    requires 0 <= i < |s|
    ensures SeqProduct(s[..i + 1]) == SeqProduct(s[..i]) * s[i]
  {
    assert s[..i + 1][..i] == s[..i];
  }

  /** order lists the keys ks, each exactly once. */
  ghost predicate Enumerates<K>(order: seq<K>, ks: set<K>)
  {
    && (forall i, j :: 0 <= i < j < |order| ==> order[i] != order[j])
    && (forall i :: 0 <= i < |order| ==> order[i] in ks)
    && (forall x :: x in ks ==> x in order)
  }

  /** s holds the weights m[order[i]], in the order of order. */
  ghost predicate Lists<K>(s: seq<real>, m: map<K, real>, order: seq<K>)
  {
    |s| == |order| && forall i :: 0 <= i < |s| ==> order[i] in m && s[i] == m[order[i]]
  }

  /** Multiplying out the weights of the keys, listed in any order, gives the
      product over the keys. */
  lemma {:induction false} SeqProductEnumerates<K>(s: seq<real>, m: map<K, real>, order: seq<K>, ks: set<K>)
    requires ks <= m.Keys && Lists(s, m, order) && Enumerates(order, ks)
    ensures SeqProduct(s) == Product(m, ks)
    decreases |order|
  {
    if order == [] {
      assert ks == {};
    } else {
      var n := |order|;
      var last := order[n - 1];
      var rest := ks - {last};
      assert Enumerates(order[..n - 1], rest) by {
        forall x | x in rest
          ensures x in order[..n - 1]
        {
          var i :| 0 <= i < n && order[i] == x;
          assert order[..n - 1][i] == x;
        }
      }
      SeqProductEnumerates(s[..n - 1], m, order[..n - 1], rest);
      ProductPick(m, ks, last);
    }
  }
}
