/**
 Cartesian products in the order `itertools.product` yields them: the last factor varies fastest,
 so that entry `i` is `i` written in the mixed radix of the factors' sizes.
 */
module CartesianProduct {
  import opened Sequences

  function Appended<T>(choice: seq<T>, last: seq<T>): seq<seq<T>> {
    seq(|last|, i requires 0 <= i < |last| => choice + [last[i]])
  }

  function AppendEach<T>(last: seq<T>): seq<T> -> seq<seq<T>> {
    choice => Appended(choice, last)
  }

  function Product<T>(factors: seq<seq<T>>): seq<seq<T>> {
    if factors == [] then [[]]
    else FlatMap(AppendEach(factors[|factors| - 1]), Product(factors[..|factors| - 1]))
  }

  /** The number of choices. */
  function Cardinality<T>(factors: seq<seq<T>>): nat {
    if factors == [] then 1
    else Cardinality(factors[..|factors| - 1]) * |factors[|factors| - 1]|
  }

  /** `choice` takes one alternative of each factor. */
  ghost predicate IsChoice<T>(choice: seq<T>, factors: seq<seq<T>>) {
    |choice| == |factors| && forall i :: 0 <= i < |factors| ==> choice[i] in factors[i]
  }

  ghost predicate NoneEmpty<T>(factors: seq<seq<T>>) {
    forall i :: 0 <= i < |factors| ==> factors[i] != []
  }

  /** The digits of `i` in the mixed radix of the factors' sizes, each read as an alternative. */
  function Decode<T>(factors: seq<seq<T>>, i: nat): seq<T>
    requires NoneEmpty(factors)
  {
    if factors == [] then []
    else
      var last := factors[|factors| - 1];
      Decode(factors[..|factors| - 1], i / |last|) + [last[i % |last|]]
  }

  lemma {:induction false} UniformLength<A, B>(f: A -> seq<B>, s: seq<A>, k: nat)
    requires forall x :: x in s ==> |f(x)| == k
    ensures |FlatMap(f, s)| == |s| * k
  {
    if s != [] {
      var front, last := s[..|s| - 1], s[|s| - 1];
      assert last in s && forall x :: x in front ==> x in s;
      UniformLength(f, front, k);
      Distribute(|front|, k);
    }
  }

  lemma Distribute(n: int, k: int)
    ensures (n + 1) * k == n * k + k
  {
  }

  lemma Monotone(a: int, b: int, k: nat)
    ensures a <= b ==> a * k <= b * k
  {
  }

  lemma DivisionFacts(i: nat, n: nat, k: nat)
    requires k > 0 && n > 0 && i < n * k
    ensures i / k < n
    ensures i < (n - 1) * k <==> i / k < n - 1
    ensures i >= (n - 1) * k ==> i / k == n - 1 && i - (n - 1) * k == i % k
  {
    var q, r := i / k, i % k;
    assert i == q * k + r;
    Monotone(n, q, k);
    Monotone(q + 1, n - 1, k);
    Monotone(n - 1, q, k);
  }

  /** Entry `i` of a flat map whose pieces all have length `k`. */
  lemma {:induction false} UniformIndex<A, B>(f: A -> seq<B>, s: seq<A>, k: nat, i: nat)
    requires k > 0 && forall x :: x in s ==> |f(x)| == k
    requires i < |s| * k
    ensures |FlatMap(f, s)| == |s| * k && i / k < |s|
    ensures |f(s[i / k])| == k && FlatMap(f, s)[i] == f(s[i / k])[i % k]
  {
    UniformLength(f, s, k);
    var front, last := s[..|s| - 1], s[|s| - 1];
    UniformLength(f, front, k);
    DivisionFacts(i, |s|, k);
    Distribute(|front|, k);
    var q, before, piece := i / k, FlatMap(f, front), f(last);
    assert FlatMap(f, s) == before + piece;
    hide FlatMap;
    assert s[q] in s && last in s;
    if i < |before| {
      UniformIndex(f, front, k, i);
      assert front[q] == s[q];
    } else {
      assert (before + piece)[i] == piece[i - |before|];
    }
  }

  lemma {:induction false} ProductLength<T>(factors: seq<seq<T>>)
    ensures |Product(factors)| == Cardinality(factors)
  {
    if factors != [] {
      ProductLength(factors[..|factors| - 1]);
      UniformLength(AppendEach(factors[|factors| - 1]), Product(factors[..|factors| - 1]), |factors[|factors| - 1]|);
    }
  }

  /** Mixed-radix enumeration: entry `i` of the product decodes `i`. */
  lemma {:induction false} ProductIsMixedRadix<T>(factors: seq<seq<T>>, i: nat)
    requires NoneEmpty(factors) && i < Cardinality(factors)
    ensures |Product(factors)| == Cardinality(factors)
    ensures Product(factors)[i] == Decode(factors, i)
  {
    hide FlatMap;
    ProductLength(factors);
    if factors != [] {
      var front, last := factors[..|factors| - 1], factors[|factors| - 1];
      ProductLength(front);
      assert last != [];
      UniformIndex(AppendEach(last), Product(front), |last|, i);
      ProductIsMixedRadix(front, i / |last|);
    }
  }

  lemma {:induction false} ProductSound<T>(factors: seq<seq<T>>, choice: seq<T>)
    requires choice in Product(factors)
    ensures IsChoice(choice, factors)
  {
    if factors != [] {
      var front, last := factors[..|factors| - 1], factors[|factors| - 1];
      var j := FlatMapSource(AppendEach(last), Product(front), choice);
      var start := Product(front)[j];
      ProductSound(front, start);
      var k :| 0 <= k < |last| && Appended(start, last)[k] == choice;
      assert choice == start + [last[k]];
    }
  }

  lemma {:induction false} ProductComplete<T>(factors: seq<seq<T>>, choice: seq<T>)
    requires IsChoice(choice, factors)
    ensures choice in Product(factors)
  {
    if factors != [] {
      var front, last := factors[..|factors| - 1], factors[|factors| - 1];
      var start := choice[..|choice| - 1];
      ProductComplete(front, start);
      var j :| 0 <= j < |Product(front)| && Product(front)[j] == start;
      var k :| 0 <= k < |last| && last[k] == choice[|choice| - 1];
      FrontAndLast(choice);
      assert Appended(start, last)[k] == choice;
      FlatMapTarget(AppendEach(last), Product(front), j, choice);
    }
  }

  /** The product lists exactly the choices. */
  lemma ProductExact<T>(factors: seq<seq<T>>, choice: seq<T>)
    ensures choice in Product(factors) <==> IsChoice(choice, factors)
  {
    if choice in Product(factors) {
      ProductSound(factors, choice);
    }
    if IsChoice(choice, factors) {
      ProductComplete(factors, choice);
    }
  }

  /** Factors without repeated alternatives have a product without repeated choices. */
  lemma {:induction false} ProductNoDup<T>(factors: seq<seq<T>>)
    requires forall f :: f in factors ==> NoDup(f)
    ensures NoDup(Product(factors))
  {
    if factors != [] {
      var front, last := factors[..|factors| - 1], factors[|factors| - 1];
      assert last in factors;
      ProductNoDup(front);
      forall choice | choice in Product(front) ensures NoDup(AppendEach(last)(choice)) {
        AppendedNoDup(choice, last);
      }
      forall c, c', y | c in Product(front) && c' in Product(front) && y in AppendEach(last)(c) && y in AppendEach(last)(c')
        ensures c == c'
      {
        assert c == y[..|y| - 1] == c';
      }
      FlatMapNoDup(AppendEach(last), Product(front));
    }
  }

  lemma AppendedNoDup<T>(choice: seq<T>, last: seq<T>)
    requires NoDup(last)
    ensures NoDup(Appended(choice, last))
  {
    var a := Appended(choice, last);
    forall i, j | 0 <= i < j < |a| ensures a[i] != a[j] {
      assert a[i][|choice|] == last[i] && a[j][|choice|] == last[j];
    }
  }

  // ---------------------------------------------------------------- digits

  lemma DivisionUnique(n: nat, d: nat, q: nat, rest: nat)
    requires d > 0 && n == d * q + rest && rest < d
    ensures n / d == q
  {
    var x := n / d;
    assert n == d * x + n % d;
    if x < q {
      LessTimes(d, x + 1, q);
    } else if q < x {
      LessTimes(d, q + 1, x);
    }
  }

  lemma LessTimes(d: nat, a: nat, b: nat)
    requires a <= b
    ensures d * a <= d * b
  {
    assert d * b - d * a == d * (b - a);
  }

  lemma TimesPlus(a: nat, b: nat, c: nat)
    ensures a * (b + c) == a * b + a * c
  {
  }

  lemma TimesTimes(a: nat, b: nat, c: nat)
    ensures a * (b * c) == (a * b) * c
  {
  }

  lemma DividedBy(n: nat, d: nat) returns (q: nat, rest: nat)
    requires d > 0
    ensures q == n / d && n == d * q + rest && rest < d
  {
    q, rest := n / d, n % d;
  }

  lemma Regrouped(n: nat, a: nat, b: nat, x: nat, r: nat, y: nat, s: nat)
    requires n == a * x + r && x == b * y + s && r < a && s < b
    ensures n == (a * b) * y + (a * s + r) && a * s + r < a * b
  {
    TimesPlus(a, b * y, s);
    TimesTimes(a, b, y);
    LessTimes(a, s + 1, b);
    TimesPlus(a, s, 1);
  }

  lemma DivideTwice(n: nat, a: nat, b: nat)
    requires a > 0 && b > 0
    ensures a * b > 0 && n / a / b == n / (a * b)
  {
    var x, r := DividedBy(n, a);
    var y, s := DividedBy(x, b);
    Regrouped(n, a, b, x, r, y, s);
    DivisionUnique(n, a * b, y, a * s + r);
  }

  lemma {:induction false} CardinalityPositive<T>(factors: seq<seq<T>>)
    requires NoneEmpty(factors)
    ensures Cardinality(factors) > 0
  {
    if factors != [] {
      CardinalityPositive(factors[..|factors| - 1]);
      LessTimes(Cardinality(factors[..|factors| - 1]), 1, |factors[|factors| - 1]|);
    }
  }

  /** The last factor turns fastest: the digit at `k` changes once for every choice of the factors behind it. */
  lemma {:induction false} DigitAt<T>(factors: seq<seq<T>>, i: nat, k: nat)
    requires NoneEmpty(factors) && k < |factors|
    ensures |Decode(factors, i)| == |factors| && Cardinality(factors[k + 1..]) > 0
    ensures Decode(factors, i)[k] == factors[k][i / Cardinality(factors[k + 1..]) % |factors[k]|]
  {
    DecodeLength(factors, i);
    var front, last := factors[..|factors| - 1], factors[|factors| - 1];
    if k == |factors| - 1 {
      assert factors[k + 1..] == [];
    } else {
      DigitAt(front, i / |last|, k);
      CardinalitySnoc(factors, k);
      DivideTwice(i, |last|, Cardinality(front[k + 1..]));
    }
  }

  lemma CardinalitySnoc<T>(factors: seq<seq<T>>, k: nat)
    requires k + 1 < |factors|
    ensures Cardinality(factors[k + 1..]) == |factors[|factors| - 1]| * Cardinality(factors[..|factors| - 1][k + 1..])
  {
    assert factors[k + 1..][..|factors[k + 1..]| - 1] == factors[..|factors| - 1][k + 1..];
  }

  lemma {:induction false} DecodeLength<T>(factors: seq<seq<T>>, i: nat)
    requires NoneEmpty(factors)
    ensures |Decode(factors, i)| == |factors|
  {
    if factors != [] {
      DecodeLength(factors[..|factors| - 1], i / |factors[|factors| - 1]|);
    }
  }
}
