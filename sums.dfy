/**
 Finite sums of real values over sets of keys.

 The ranker adds up weights while ranging over Go maps, whose iteration order
 is unspecified. A sum over a set is therefore defined by picking an arbitrary
 key, and the lemmas below show that the pick does not matter, which is what
 lets a loop that visits keys in any order be proved against the sum.
 */
module Sums {

  /** The sum of m[k] over every key k in keys. */
  ghost function SumOver<K>(keys: set<K>, m: map<K, real>): real
    requires keys <= m.Keys
    decreases keys
  {
    if keys == {} then 0.0
    else
      var k :| k in keys;
      m[k] + SumOver(keys - {k}, m)
  }

  /** The sum of all values of a map. */
  ghost function Total<K>(m: map<K, real>): real
  {
    SumOver(m.Keys, m)
  }

  /** Any key may be taken out first: the sum does not depend on the order of the keys. */
  lemma {:induction false} SumOverRemove<K>(keys: set<K>, m: map<K, real>, x: K)
    requires keys <= m.Keys && x in keys
    ensures SumOver(keys, m) == m[x] + SumOver(keys - {x}, m)
    decreases keys
  {
    var y :| y in keys && SumOver(keys, m) == m[y] + SumOver(keys - {y}, m);
    if y != x {
      SumOverRemove(keys - {y}, m, x);
      SumOverRemove(keys - {x}, m, y);
      assert keys - {y} - {x} == keys - {x} - {y};
    }
  }

  /** Adding one new key adds its value to the sum. */
  lemma SumOverAdd<K>(keys: set<K>, m: map<K, real>, x: K)
    requires keys <= m.Keys && x in m && x !in keys
    ensures SumOver(keys + {x}, m) == SumOver(keys, m) + m[x]
  {
    SumOverRemove(keys + {x}, m, x);
    assert keys + {x} - {x} == keys;
  }

  /** Two maps that agree on keys have the same sum over keys. */
  lemma {:induction false} SumOverAgree<K>(keys: set<K>, m1: map<K, real>, m2: map<K, real>)
    requires keys <= m1.Keys && keys <= m2.Keys
    requires forall k | k in keys :: m1[k] == m2[k]
    ensures SumOver(keys, m1) == SumOver(keys, m2)
    decreases keys
  {
    if keys != {} {
      var x :| x in keys;
      SumOverRemove(keys, m1, x);
      SumOverRemove(keys, m2, x);
      SumOverAgree(keys - {x}, m1, m2);
    }
  }

  /** The sum of a pointwise sum is the sum of the sums. */
  lemma {:induction false} SumOverLinear<K>(keys: set<K>, f: map<K, real>, g: map<K, real>, h: map<K, real>)
    requires keys <= f.Keys && keys <= g.Keys && keys <= h.Keys
    requires forall k | k in keys :: h[k] == f[k] + g[k]
    ensures SumOver(keys, h) == SumOver(keys, f) + SumOver(keys, g)
    decreases keys
  {
    if keys != {} {
      var x :| x in keys;
      SumOverRemove(keys, f, x);
      SumOverRemove(keys, g, x);
      SumOverRemove(keys, h, x);
      SumOverLinear(keys - {x}, f, g, h);
    }
  }

  /** A common factor comes out of the sum. */
  lemma {:induction false} SumOverScale<K>(keys: set<K>, m: map<K, real>, h: map<K, real>, c: real)
    requires keys <= m.Keys && keys <= h.Keys
    requires forall k | k in keys :: h[k] == c * m[k]
    ensures SumOver(keys, h) == c * SumOver(keys, m)
    decreases keys
  {
    if keys != {} {
      var x :| x in keys;
      SumOverRemove(keys, m, x);
      SumOverRemove(keys, h, x);
      SumOverScale(keys - {x}, m, h, c);
    }
  }

  /** A common factor comes out of the total of a map. */
  lemma TotalScale<K>(m: map<K, real>, h: map<K, real>, c: real)
    requires h.Keys == m.Keys
    requires forall k | k in m :: h[k] == c * m[k]
    ensures Total(h) == c * Total(m)
  {
    SumOverScale(m.Keys, m, h, c);
  }

  /** Adding c at every key adds c once per key to the sum. */
  lemma {:induction false} SumOverShifted<K>(keys: set<K>, m: map<K, real>, h: map<K, real>, c: real)
    requires keys <= m.Keys && keys <= h.Keys
    requires forall k | k in keys :: h[k] == m[k] + c
    ensures SumOver(keys, h) == SumOver(keys, m) + (|keys| as real) * c
    decreases keys
  {
    if keys != {} {
      var x :| x in keys;
      SumOverRemove(keys, m, x);
      SumOverRemove(keys, h, x);
      SumOverShifted(keys - {x}, m, h, c);
    }
  }

  /** Adding c at every key adds c once per key to the total. */
  lemma TotalShifted<K>(m: map<K, real>, h: map<K, real>, c: real)
    requires h.Keys == m.Keys
    requires forall k | k in m :: h[k] == m[k] + c
    ensures Total(h) == Total(m) + (|m| as real) * c
  {
    SumOverShifted(m.Keys, m, h, c);
    assert |m.Keys| == |m|;
  }

  /** A value that is the same at every key sums to that value times the number of keys. */
  lemma {:induction false} SumOverConstant<K>(keys: set<K>, m: map<K, real>, c: real)
    requires keys <= m.Keys
    requires forall k | k in keys :: m[k] == c
    ensures SumOver(keys, m) == (|keys| as real) * c
    decreases keys
  {
    if keys != {} {
      var x :| x in keys;
      SumOverRemove(keys, m, x);
      SumOverConstant(keys - {x}, m, c);
    }
  }

  /** Keys where h is zero contribute nothing: h sums over keys to what m sums over the part where h copies m. */
  lemma {:induction false} SumOverPadded<K>(keys: set<K>, part: set<K>, m: map<K, real>, h: map<K, real>)
    requires part <= keys && part <= m.Keys && keys <= h.Keys
    requires forall k | k in part :: h[k] == m[k]
    requires forall k | k in keys && k !in part :: h[k] == 0.0
    ensures SumOver(keys, h) == SumOver(part, m)
    decreases keys
  {
    if keys != {} {
      var x :| x in keys;
      SumOverRemove(keys, h, x);
      SumOverPadded(keys - {x}, part - {x}, m, h);
      if x in part {
        SumOverRemove(part, m, x);
      } else {
        assert part - {x} == part;
      }
    }
  }

  /** A sum of non-negative values is non-negative, and it is zero exactly when every value is. */
  lemma {:induction false} SumOverNonNegative<K>(keys: set<K>, m: map<K, real>)
    requires keys <= m.Keys
    requires forall k | k in keys :: m[k] >= 0.0
    ensures SumOver(keys, m) >= 0.0
    ensures SumOver(keys, m) == 0.0 <==> forall k | k in keys :: m[k] == 0.0
    decreases keys
  {
    if keys != {} {
      var x :| x in keys;
      SumOverRemove(keys, m, x);
      SumOverNonNegative(keys - {x}, m);
    }
  }

  /**
   Summing a matrix row by row gives the same as summing it column by column.
   M holds the rows, Mt the columns (Mt[c][r] == M[r][c]); rowSums and colSums
   hold the sum of each row over cols and of each column over rows.
   */
  lemma {:induction false} SumOverInterchange<K>(rows: set<K>, cols: set<K>,
                                                 M: map<K, map<K, real>>, Mt: map<K, map<K, real>>,
                                                 rowSums: map<K, real>, colSums: map<K, real>)
    requires rows <= M.Keys && rows <= rowSums.Keys && cols <= Mt.Keys && cols <= colSums.Keys
    requires forall r | r in rows :: cols <= M[r].Keys && rowSums[r] == SumOver(cols, M[r])
    requires forall c | c in cols :: rows <= Mt[c].Keys && colSums[c] == SumOver(rows, Mt[c])
    requires forall r, c | r in rows && c in cols :: Mt[c][r] == M[r][c]
    ensures SumOver(rows, rowSums) == SumOver(cols, colSums)
    decreases rows
  {
    if rows == {} {
      SumOverConstant(cols, colSums, 0.0);
    } else {
      var x :| x in rows;
      var rest := rows - {x};
      var restSums := map c | c in cols :: SumOver(rest, Mt[c]);
      forall c | c in cols
        ensures colSums[c] == M[x][c] + restSums[c]
      {
        SumOverRemove(rows, Mt[c], x);
      }
      SumOverRemove(rows, rowSums, x);
      SumOverInterchange(rest, cols, M, Mt, rowSums, restSums);
      SumOverLinear(cols, M[x], restSums, colSums);
    }
  }
}
