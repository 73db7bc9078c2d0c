/** Table primitives shared by the whole model: nullable cells, IEEE quotients,
    pandas-style column sums, row filters, first-row lookups and de-duplication. */
module Common {

  /** A nullable cell: `None` stands for pandas' NaN/None. */
  datatype Option<+T> = None | Some(value: T)

  /** The value of a numeric cell, with a null counted as zero (what a skip-NaN sum does). */
  function ValueOr0(o: Option<real>): real
  {
    if o.Some? then o.value else 0.0
  }

  /** A quotient as IEEE floating point produces it: finite, NaN, or an infinity. */
  datatype Num = Fin(v: real) | NaN | Inf(negative: bool)

  /** `a / b` on floats: x/0 is an infinity carrying the sign of x, and 0/0 is NaN. */
  function Div(a: real, b: real): Num
  {
    if b != 0.0 then Fin(a / b) else if a == 0.0 then NaN else Inf(a < 0.0)
  }

  /** `a / b` on two nullable columns: a null on either side gives NaN. */
  function DivOpt(a: Option<real>, b: Option<real>): Num
  {
    if a.None? || b.None? then NaN else Div(a.value, b.value)
  }

  /** `x * q` with a nullable float x and a quotient q, as IEEE multiplication. */
  function MulOpt(x: Option<real>, q: Num): Num
  {
    if x.None? then NaN
    else match q
      case NaN => NaN
      case Fin(v) => Fin(x.value * v)
      case Inf(neg) =>
        if x.value == 0.0 then NaN else Inf(neg != (x.value < 0.0))
  }

  /** `fillna(x)` on a float: NaN becomes x, a number or an infinity stays. */
  function FillNa(q: Num, x: real): Num
  {
    if q.NaN? then Fin(x) else q
  }

  /** `a + b` on floats: NaN absorbs everything, and opposite infinities give NaN. */
  function AddNum(a: Num, b: Num): Num
  {
    match (a, b)
      case (NaN, _) => NaN
      case (_, NaN) => NaN
      case (Fin(x), Fin(y)) => Fin(x + y)
      case (Inf(n), Fin(_)) => Inf(n)
      case (Fin(_), Inf(n)) => Inf(n)
      case (Inf(n), Inf(m)) => if n == m then Inf(n) else NaN
  }

  /** A pandas `sum` of a float column: NaN entries are skipped, an empty sum is 0. */
  function NumSum<T>(rows: seq<T>, f: T -> Num): Num
  {
    if rows == [] then Fin(0.0)
    else if f(rows[0]).NaN? then NumSum(rows[1..], f)
    else AddNum(f(rows[0]), NumSum(rows[1..], f))
  }

  /** A float as a nullable cell of reals: NaN and the infinities have no place in it. */
  function Finite(q: Num): Option<real>
  {
    if q.Fin? then Some(q.v) else None
  }

  /** A float product with a finite factor is the product of the nullable cells. */
  lemma FiniteProduct(x: Option<real>, v: real)
    ensures Finite(MulOpt(x, Fin(v))) == Times(x, Some(v))
  {
    if x.Some? {
      var b: Option<real> := Some(v);
      assert MulOpt(x, Fin(v)) == Fin(x.value * v);
      assert Times(x, b).Some? && Times(x, b).value == x.value * v;
    }
  }

  /** Where every entry is a number or NaN standing for zero, the float sum is the real sum. */
  lemma {:induction false} NumSumOfFinite<T>(rows: seq<T>, f: T -> Num, g: T -> real)
    requires forall x :: x in rows ==> f(x) == Fin(g(x)) || (f(x).NaN? && g(x) == 0.0)
    ensures NumSum(rows, f) == Fin(SumOf(rows, g))
  {
    if rows != [] {
      NumSumOfFinite(rows[1..], f, g);
    }
  }

  /** One infinite entry leaves the float sum infinite or NaN, never a number. */
  lemma {:induction false} NumSumWithInfinity<T>(rows: seq<T>, f: T -> Num)
    requires exists x :: x in rows && f(x).Inf?
    ensures !NumSum(rows, f).Fin?
  {
    var x :| x in rows && f(x).Inf?;
    if !f(rows[0]).Inf? {
      assert x in rows[1..];
      NumSumWithInfinity(rows[1..], f);
    }
  }

  /** A product of two nullable floats: a null on either side gives a null. */
  function Times(a: Option<real>, b: Option<real>): (p: Option<real>)
    ensures p.Some? <==> a.Some? && b.Some?
    ensures p.Some? ==> p.value == a.value * b.value
  {
    if a.Some? && b.Some? then Some(a.value * b.value) else None
  }

  /** Sum of `f` over the rows. */
  function SumOf<T>(rows: seq<T>, f: T -> real): real
  {
    if rows == [] then 0.0 else f(rows[0]) + SumOf(rows[1..], f)
  }

  lemma {:induction false} SumOfAppend<T>(a: seq<T>, b: seq<T>, f: T -> real)
    ensures SumOf(a + b, f) == SumOf(a, f) + SumOf(b, f)
  {
    if a == [] {
      assert a + b == b;
    } else {
      assert (a + b)[1..] == a[1..] + b;
      SumOfAppend(a[1..], b, f);
    }
  }

  /** Sums respect a row-by-row bound. */
  lemma {:induction false} SumOfMonotone<T>(rows: seq<T>, f: T -> real, g: T -> real)
    requires forall x :: x in rows ==> f(x) <= g(x)
    ensures SumOf(rows, f) <= SumOf(rows, g)
  {
    if rows != [] {
      SumOfMonotone(rows[1..], f, g);
    }
  }

  /** A row-by-row bound by a multiple of f bounds the sum by that multiple of f's sum. */
  lemma {:induction false} SumOfBelowScaled<T>(rows: seq<T>, f: T -> real, g: T -> real, c: real)
    requires forall x :: x in rows ==> g(x) <= c * f(x)
    ensures SumOf(rows, g) <= c * SumOf(rows, f)
  {
    if rows != [] {
      SumOfBelowScaled(rows[1..], f, g, c);
    }
  }

  lemma {:induction false} SumOfAboveScaled<T>(rows: seq<T>, f: T -> real, g: T -> real, c: real)
    requires forall x :: x in rows ==> c * f(x) <= g(x)
    ensures c * SumOf(rows, f) <= SumOf(rows, g)
  {
    if rows != [] {
      SumOfAboveScaled(rows[1..], f, g, c);
    }
  }

  /** A constant factor comes out of a sum. */
  lemma {:induction false} SumOfScale<T>(rows: seq<T>, f: T -> real, g: T -> real, c: real)
    requires forall x :: x in rows ==> g(x) == c * f(x)
    ensures SumOf(rows, g) == c * SumOf(rows, f)
  {
    if rows != [] {
      SumOfScale(rows[1..], f, g, c);
    }
  }

  /** Each part divided by the total; a 0/0 part, NaN in the source, is 0 here. */
  function Fraction<K>(part: K -> real, total: real): K -> real
  {
    (k: K) => if total != 0.0 then part(k) / total else 0.0
  }

  /** Fractions of a total add up to one when the parts add up to the total. */
  lemma FractionsSumToOne<K>(keys: seq<K>, part: K -> real, total: real)
    requires total != 0.0 && SumOf(keys, part) == total
    ensures SumOf(keys, Fraction(part, total)) == 1.0
  {
    SumOfScale(keys, part, Fraction(part, total), 1.0 / total);
  }

  /** The sum of a row-wise sum is the sum of the two sums. */
  lemma {:induction false} SumOfAdd<T>(rows: seq<T>, f: T -> real, g: T -> real, h: T -> real)
    requires forall x :: x in rows ==> h(x) == f(x) + g(x)
    ensures SumOf(rows, h) == SumOf(rows, f) + SumOf(rows, g)
  {
    if rows != [] {
      SumOfAdd(rows[1..], f, g, h);
    }
  }

  /** A constant summed over the rows is the constant times their number. */
  lemma {:induction false} SumOfConstant<T>(rows: seq<T>, f: T -> real, c: real)
    requires forall x :: x in rows ==> f(x) == c
    ensures SumOf(rows, f) == c * |rows| as real
  {
    if rows != [] {
      SumOfConstant(rows[1..], f, c);
    }
  }

  /** A sum of non-negative terms is non-negative. */
  lemma {:induction false} SumOfNonNegative<T>(rows: seq<T>, f: T -> real)
    requires forall x :: x in rows ==> f(x) >= 0.0
    ensures SumOf(rows, f) >= 0.0
  {
    if rows != [] {
      SumOfNonNegative(rows[1..], f);
    }
  }

  /** A sum over repetition-free keys in which only `k0` contributes is that contribution. */
  lemma {:induction false} SumOfSingleHit<K>(keys: seq<K>, g: K -> real, k0: K)
    requires NoDups(keys) && k0 in keys
    requires forall k :: k in keys && k != k0 ==> g(k) == 0.0
    ensures SumOf(keys, g) == g(k0)
  {
    var t := keys[1..];
    assert NoDups(t) by {
      forall i, j | 0 <= i < j < |t| ensures t[i] != t[j] {
        assert t[i] == keys[i + 1] && t[j] == keys[j + 1];
      }
    }
    if keys[0] == k0 {
      assert k0 !in t by {
        forall i | 0 <= i < |t| ensures t[i] != k0 {
          assert t[i] == keys[i + 1];
        }
      }
      SumOfScale(t, g, g, 0.0);
    } else {
      SumOfSingleHit(t, g, k0);
    }
  }

  /** The row test "the key of this row is k". */
  function KeyIs<T, K(==)>(key: T -> K, k: K): T -> bool
  {
    x => key(x) == k
  }

  /** The total of `f` over the group of rows whose key is k (`groupby(key).sum()`). */
  function GroupTotal<T(!new), K(==)>(rows: seq<T>, key: T -> K, f: T -> real): K -> real
  {
    k => SumOf(Filter(rows, KeyIs(key, k)), f)
  }

  /** The group totals over all the distinct keys add up to the total of the table. */
  lemma {:induction false} GroupTotalsPartition<T(!new), K>(rows: seq<T>, key: T -> K, keys: seq<K>, f: T -> real)
    requires NoDups(keys)
    requires forall x :: x in rows ==> key(x) in keys
    ensures SumOf(keys, GroupTotal(rows, key, f)) == SumOf(rows, f)
  {
    var total := GroupTotal(rows, key, f);
    if rows == [] {
      SumOfScale(keys, total, total, 0.0);
    } else {
      var x := rows[0];
      var rest := rows[1..];
      GroupTotalsPartition(rest, key, keys, f);
      var hit := (k: K) => if key(x) == k then f(x) else 0.0;
      forall k | k in keys ensures total(k) == hit(k) + GroupTotal(rest, key, f)(k) {
        var head := if KeyIs(key, k)(x) then [x] else [];
        assert Filter(rows, KeyIs(key, k)) == head + Filter(rest, KeyIs(key, k));
        SumOfAppend(head, Filter(rest, KeyIs(key, k)), f);
      }
      SumOfAdd(keys, hit, GroupTotal(rest, key, f), total);
      SumOfSingleHit(keys, hit, key(x));
    }
  }

  /** Rows of `s` for which `p` holds, in their original order. */
  function Filter<T(!new)>(s: seq<T>, p: T -> bool): (r: seq<T>)
    ensures |r| <= |s|
    ensures forall x :: x in r <==> x in s && p(x)
  {
    if s == [] then [] else (if p(s[0]) then [s[0]] else []) + Filter(s[1..], p)
  }

  lemma {:induction false} FilterAppend<T(!new)>(a: seq<T>, b: seq<T>, p: T -> bool)
    ensures Filter(a + b, p) == Filter(a, p) + Filter(b, p)
  {
    if a == [] {
      assert a + b == b;
    } else {
      assert (a + b)[1..] == a[1..] + b;
      FilterAppend(a[1..], b, p);
    }
  }

  /** Two predicates that agree on every row select the same rows. */
  lemma {:induction false} FilterCongruent<T(!new)>(s: seq<T>, p: T -> bool, q: T -> bool)
    requires forall x :: x in s ==> p(x) == q(x)
    ensures Filter(s, p) == Filter(s, q)
  {
    if s != [] {
      FilterCongruent(s[1..], p, q);
    }
  }

  /** The conjunction of two row tests. */
  function And<T>(p: T -> bool, q: T -> bool): T -> bool
  {
    x => p(x) && q(x)
  }

  /** Filtering twice is filtering once by the conjunction. */
  lemma {:induction false} FilterFilter<T(!new)>(s: seq<T>, p: T -> bool, q: T -> bool)
    ensures Filter(Filter(s, p), q) == Filter(s, And(p, q))
  {
    if s != [] {
      FilterFilter(s[1..], p, q);
      var head := if p(s[0]) then [s[0]] else [];
      FilterAppend(head, Filter(s[1..], p), q);
    }
  }

  /** A filter that keeps every row changes nothing. */
  lemma {:induction false} FilterKeepsAll<T(!new)>(s: seq<T>, p: T -> bool)
    requires forall x :: x in s ==> p(x)
    ensures Filter(s, p) == s
  {
    if s != [] {
      FilterKeepsAll(s[1..], p);
    }
  }

  /** A filter that no row passes leaves nothing. */
  lemma {:induction false} FilterNone<T(!new)>(s: seq<T>, p: T -> bool)
    requires forall x :: x in s ==> !p(x)
    ensures Filter(s, p) == []
  {
    if s != [] {
      FilterNone(s[1..], p);
    }
  }

  /** A subset is no larger than its superset. */
  lemma SubsetCardinality<T>(a: set<T>, b: set<T>)
    requires a <= b
    ensures |a| <= |b|
  {
    if a != {} {
      var x :| x in a;
      SubsetCardinality(a - {x}, b - {x});
    }
  }

  /** Sum of `f` over the rows that satisfy `p` (a group's column total). */
  function SumWhere<T(!new)>(rows: seq<T>, p: T -> bool, f: T -> real): real
  {
    SumOf(Filter(rows, p), f)
  }

  /** The first row satisfying `p`, as `df.query(...).iloc[0]`; `None` where pandas raises IndexError. */
  function First<T(!new)>(s: seq<T>, p: T -> bool): (r: Option<T>)
    ensures r.None? <==> forall x :: x in s ==> !p(x)
    ensures r.Some? ==> r.value in s && p(r.value)
    ensures r.Some? ==> exists i :: 0 <= i < |s| && s[i] == r.value && forall j :: 0 <= j < i ==> !p(s[j])
  {
    if s == [] then None
    else if p(s[0]) then Some(s[0])
    else
      var t := First(s[1..], p);
      if t.Some? then
        assert forall i :: 0 <= i < |s| - 1 ==> s[1..][i] == s[i + 1];
        t
      else t
  }

  /** `query(...).iloc[0]` is the row at the first index that matches. */
  lemma FirstIsEarliest<T(!new)>(s: seq<T>, p: T -> bool, i: nat)
    requires i < |s| && p(s[i])
    requires forall j :: 0 <= j < i ==> !p(s[j])
    ensures First(s, p) == Some(s[i])
  {
    var r := First(s, p);
    var k :| 0 <= k < |s| && s[k] == r.value && forall j :: 0 <= j < k ==> !p(s[j]);
    assert p(s[k]) && p(s[i]);
  }

  /** The same, for every index at once. */
  lemma FirstIsEveryEarliest<T(!new)>(s: seq<T>, p: T -> bool)
    ensures forall i :: 0 <= i < |s| && p(s[i]) && (forall j :: 0 <= j < i ==> !p(s[j])) ==> First(s, p) == Some(s[i])
  {
    forall i | 0 <= i < |s| && p(s[i]) && (forall j :: 0 <= j < i ==> !p(s[j])) {
      FirstIsEarliest(s, p, i);
    }
  }

  predicate NoDups<T(==)>(s: seq<T>)
  {
    forall i, j :: 0 <= i < j < |s| ==> s[i] != s[j]
  }

  /** No two rows share a key, as after a `groupby(...).sum()`. */
  predicate KeysDistinct<T, K(==)>(s: seq<T>, key: T -> K)
  {
    forall i, j :: 0 <= i < j < |s| ==> key(s[i]) != key(s[j])
  }

  /** A row mask keeps keys distinct. */
  lemma {:induction false} FilterKeepsKeysDistinct<T(!new), K>(s: seq<T>, p: T -> bool, key: T -> K)
    requires KeysDistinct(s, key)
    ensures KeysDistinct(Filter(s, p), key)
  {
    if s != [] {
      var rest := Filter(s[1..], p);
      FilterKeepsKeysDistinct(s[1..], p, key);
      if p(s[0]) {
        var r := Filter(s, p);
        assert r == [s[0]] + rest;
        forall j | 0 < j < |r| ensures key(r[0]) != key(r[j]) {
          assert r[j] == rest[j - 1] && rest[j - 1] in rest;
          var k :| 0 <= k < |s[1..]| && s[1..][k] == r[j];
          assert s[k + 1] == r[j];
        }
      }
    }
  }

  /** `drop_duplicates()`: the distinct values in order of first appearance. */
  function Distinct<T(==,!new)>(s: seq<T>): (r: seq<T>)
    ensures NoDups(r)
    ensures forall x :: x in r <==> x in s
    ensures |r| <= |s|
  {
    if s == [] then []
    else
      var d := Distinct(s[..|s| - 1]);
      var x := s[|s| - 1];
      assert forall y :: y in s <==> y in s[..|s| - 1] || y == x by {
        assert s == s[..|s| - 1] + [x];
      }
      if x in d then d else d + [x]
  }

  /** A sequence without repetitions has as many elements as its set. */
  lemma {:induction false} NoDupsCardinality<T>(s: seq<T>)
    requires NoDups(s)
    ensures |set x | x in s| == |s|
  {
    if s != [] {
      var t := s[1..];
      assert NoDups(t) by {
        forall i, j | 0 <= i < j < |t| ensures t[i] != t[j] {
          assert t[i] == s[i + 1] && t[j] == s[j + 1];
        }
      }
      NoDupsCardinality(t);
      assert s[0] !in t by {
        forall i | 0 <= i < |t| ensures t[i] != s[0] {
          assert t[i] == s[i + 1];
        }
      }
      assert (set x | x in s) == (set x | x in t) + {s[0]} by {
        assert s == [s[0]] + t;
      }
    }
  }

  /** In a sequence without repetitions every element occurs exactly once. */
  lemma {:induction false} NoDupsMultiplicity<T>(s: seq<T>, x: T)
    requires NoDups(s)
    ensures multiset(s)[x] == if x in s then 1 else 0
  {
    if s != [] {
      var t := s[1..];
      assert s == [s[0]] + t;
      assert NoDups(t) by {
        forall i, j | 0 <= i < j < |t| ensures t[i] != t[j] {
          assert t[i] == s[i + 1] && t[j] == s[j + 1];
        }
      }
      assert s[0] !in t by {
        forall i | 0 <= i < |t| ensures t[i] != s[0] {
          assert t[i] == s[i + 1];
        }
      }
      NoDupsMultiplicity(t, x);
    }
  }

  /** Two repetition-free sequences are permutations of each other exactly when they hold the same elements. */
  lemma NoDupsPermutation<T>(a: seq<T>, b: seq<T>)
    requires NoDups(a) && NoDups(b)
    ensures multiset(a) == multiset(b) <==> (forall x :: x in a <==> x in b)
  {
    if multiset(a) == multiset(b) {
      forall x ensures x in a <==> x in b {
        assert x in a <==> x in multiset(a);
        assert x in b <==> x in multiset(b);
      }
    }
    if forall x :: x in a <==> x in b {
      forall x ensures multiset(a)[x] == multiset(b)[x] {
        NoDupsMultiplicity(a, x);
        NoDupsMultiplicity(b, x);
      }
    }
  }

  /** One row per key, in the order of repetition-free keys, lists exactly the rows built
      from the keys, each key once. */
  lemma {:induction false} ListedByKey<K(!new), R(!new)>(keys: seq<K>, rows: seq<R>, keyOf: R -> K, rowOf: K -> R)
    requires NoDups(keys)
    requires |rows| == |keys| && forall i :: 0 <= i < |keys| ==> rows[i] == rowOf(keys[i])
    requires forall k :: keyOf(rowOf(k)) == k
    ensures forall row :: row in rows <==> keyOf(row) in keys && row == rowOf(keyOf(row))
    ensures forall i, j :: 0 <= i < j < |rows| ==> keyOf(rows[i]) != keyOf(rows[j])
  {
    forall row | row in rows ensures keyOf(row) in keys && row == rowOf(keyOf(row)) {
      var i :| 0 <= i < |rows| && rows[i] == row;
      assert keys[i] in keys;
    }
    forall row | keyOf(row) in keys && row == rowOf(keyOf(row)) ensures row in rows {
      var i :| 0 <= i < |keys| && keys[i] == keyOf(row);
      assert rows[i] == row;
    }
  }

  /** The first match in `a + b` is the first match in `a`, or, when `a` has none, the first in `b`. */
  lemma {:induction false} FirstAppend<T(!new)>(a: seq<T>, b: seq<T>, p: T -> bool)
    ensures First(a + b, p) == if First(a, p).Some? then First(a, p) else First(b, p)
  {
    if a != [] {
      assert (a + b)[1..] == a[1..] + b;
      FirstAppend(a[1..], b, p);
    } else {
      assert a + b == b;
    }
  }

  /** A permutation of a sequence without repetitions has none either. */
  lemma NoDupsOfPermutation<T>(a: seq<T>, b: seq<T>)
    requires NoDups(a) && multiset(a) == multiset(b)
    ensures NoDups(b)
  {
    forall i, j | 0 <= i < j < |b| ensures b[i] != b[j] {
      if b[i] == b[j] {
        var x := b[i];
        assert b == b[..j] + b[j..];
        assert x in b[..j] && x in b[j..];
        assert multiset(b)[x] == multiset(b[..j])[x] + multiset(b[j..])[x];
        NoDupsMultiplicity(a, x);
        assert false;
      }
    }
  }
}
