/** Helpers shared by every day of the puzzle collection: optional and
    fallible results, Rust's truncating integer division, and decimal text. */
module Common {

  datatype Option<+T> = None | Some(value: T)

  datatype Result<+T, +E> = Ok(value: T) | Err(error: E)

  /** Rust's `/` on signed integers: the quotient is rounded toward zero. */
  function TDiv(a: int, b: int): (q: int)
    requires b != 0
    ensures a >= 0 && b > 0 ==> q == a / b
    ensures (a < 0) == (b < 0) ==> q >= 0
    ensures (a < 0) != (b < 0) ==> q <= 0
  {
    var q0 := Abs(a) / Abs(b);
    if (a < 0) == (b < 0) then q0 else -q0
  }

  /** Rust's `%` on signed integers: the remainder takes the sign of the
      dividend and is smaller in magnitude than the divisor. */
  function TMod(a: int, b: int): (r: int)
    requires b != 0
    ensures a == TDiv(a, b) * b + r
    ensures a >= 0 ==> 0 <= r < Abs(b)
    ensures a < 0 ==> -Abs(b) < r <= 0
  {
    TruncatedRemainder(a, b);
    a - TDiv(a, b) * b
  }

  lemma TruncatedRemainder(a: int, b: int)
    requires b != 0
    ensures a - TDiv(a, b) * b == (if a < 0 then -(Abs(a) % Abs(b)) else Abs(a) % Abs(b))
  {
    var m, n := Abs(a), Abs(b);
    var q0 := m / n;
    var r0 := m % n;
    assert m == q0 * n + r0;
    if a >= 0 && b > 0 {
      assert TDiv(a, b) * b == q0 * n;
    } else if a >= 0 {
      assert TDiv(a, b) * b == (-q0) * (-n) == q0 * n;
    } else if b > 0 {
      assert TDiv(a, b) * b == (-q0) * n == -(q0 * n);
    } else {
      assert TDiv(a, b) * b == q0 * (-n) == -(q0 * n);
    }
  }

  function Abs(x: int): (r: int)
    ensures r >= 0 && (r == x || r == -x)
  {
    if x < 0 then -x else x
  }

  function Min(a: int, b: int): (r: int)
    ensures r <= a && r <= b && (r == a || r == b)
  {
    if a <= b then a else b
  }

  function Max(a: int, b: int): (r: int)
    ensures r >= a && r >= b && (r == a || r == b)
  {
    if a >= b then a else b
  }

  /** Sum of a sequence of integers, left to right. */
  function Sum(s: seq<int>): int
  {
    if s == [] then 0 else Sum(s[..|s| - 1]) + s[|s| - 1]
  }

  /** Summing from the front gives the same total. */
  lemma {:induction false} SumCons(x: int, s: seq<int>)
    ensures Sum([x] + s) == x + Sum(s)
    decreases |s|
  {
    if s == [] {
      assert ([x] + s)[..0] == [];
    } else {
      var s' := s[..|s| - 1];
      assert ([x] + s)[..|s|] == [x] + s';
      SumCons(x, s');
    }
  }

  /** The sum of a concatenation is the sum of its parts. */
  lemma {:induction false} SumAppend(a: seq<int>, b: seq<int>)
    ensures Sum(a + b) == Sum(a) + Sum(b)
    decreases |b|
  {
    if b == [] {
      assert a + b == a;
    } else {
      var b' := b[..|b| - 1];
      assert (a + b)[..|a + b| - 1] == a + b';
      SumAppend(a, b');
    }
  }

  /** Concatenation is associative; stated once so that proofs can name
      the regrouping they need. */
  lemma AppendAssoc<T>(a: seq<T>, b: seq<T>, c: seq<T>)
    ensures (a + b) + c == a + (b + c)
  {
  }

  /** Product of a sequence of integers. */
  function Product(s: seq<int>): int
  {
    if s == [] then 1 else Product(s[..|s| - 1]) * s[|s| - 1]
  }

  predicate IsDigit(c: char) { '0' <= c <= '9' }

  /** Decimal digits of a natural number, most significant first, no leading zero. */
  function NatToString(n: nat): (s: string)
    ensures |s| >= 1 && forall i :: 0 <= i < |s| ==> IsDigit(s[i])
    ensures n > 0 ==> s[0] != '0'
    decreases n
  {
    if n < 10 then [(n + '0' as int) as char]
    else NatToString(n / 10) + [((n % 10) + '0' as int) as char]
  }

  /** Rust's `{}` formatting of a signed integer. */
  function IntToString(v: int): (s: string)
    ensures |s| >= 1
    ensures v < 0 <==> s[0] == '-'
  {
    if v < 0 then "-" + NatToString(-v) else NatToString(v)
  }

  /** Value of a run of decimal digits, most significant first. */
  function DigitsValue(d: string): nat
    requires forall i :: 0 <= i < |d| ==> IsDigit(d[i])
  {
    if d == [] then 0
    else
      assert IsDigit(d[|d| - 1]);
      DigitsValue(d[..|d| - 1]) * 10 + (d[|d| - 1] as int - '0' as int)
  }

  lemma {:induction false} DigitsValueOfNatToString(n: nat)
    ensures DigitsValue(NatToString(n)) == n
    decreases n
  {
    if n >= 10 {
      var s := NatToString(n);
      DigitsValueOfNatToString(n / 10);
      assert s[..|s| - 1] == NatToString(n / 10);
    }
  }

  /** The digits of `IntToString(v)`, behind the sign when `v` is negative. */
  lemma IntDigits(v: int) returns (n: string)
    ensures n != [] && forall i :: 0 <= i < |n| ==> IsDigit(n[i])
    ensures DigitsValue(n) == Abs(v)
    ensures IntToString(v) == if v < 0 then "-" + n else n
  {
    n := NatToString(Abs(v));
    DigitsValueOfNatToString(Abs(v));
  }

  /** A set other than the empty set has a member to pick. */
  lemma NonEmptyHasMember<T>(s: set<T>)
    requires s != {}
    ensures exists x :: x in s
  {
    if forall x :: x !in s {
      assert false;
    }
  }

  /** Some member of a non-empty set, as iteration over a hash set yields it. */
  method Pick<T>(s: set<T>) returns (x: T)
    requires s != {}
    ensures x in s
  {
    NonEmptyHasMember(s);
    x :| x in s;
  }

  function Pow2(n: nat): (r: nat)
    ensures r >= 1
  {
    if n == 0 then 1 else 2 * Pow2(n - 1)
  }

  /** `from_str_radix(.., 2)`: the value of a bit string, most significant
      bit first. */
  function BitsValue(b: seq<bool>): (r: nat)
    ensures r < Pow2(|b|)
  {
    if |b| == 0 then 0 else 2 * BitsValue(b[..|b| - 1]) + (if b[|b| - 1] then 1 else 0)
  }

  /** Appending one bit doubles the value and adds the bit. */
  lemma BitsValueSnoc(a: seq<bool>, x: bool)
    ensures BitsValue(a + [x]) == 2 * BitsValue(a) + (if x then 1 else 0)
  {
    assert (a + [x])[..|a|] == a;
  }

  /** `flat_map` over optional values: the values present, in order. */
  function Somes<T>(xs: seq<Option<T>>): (r: seq<T>)
    ensures |r| <= |xs|
  {
    if xs == [] then []
    else Somes(xs[..|xs| - 1]) + (if xs[|xs| - 1].Some? then [xs[|xs| - 1].value] else [])
  }

  /** When every value is present, nothing is dropped. */
  lemma {:induction false} SomesAll<T>(xs: seq<Option<T>>, ys: seq<T>)
    requires |xs| == |ys| && forall k :: 0 <= k < |xs| ==> xs[k] == Some(ys[k])
    ensures Somes(xs) == ys
  {
    if xs != [] {
      var n := |xs| - 1;
      SomesAll(xs[..n], ys[..n]);
      assert ys == ys[..n] + [ys[n]];
    }
  }

  /** Dropping the absent values commutes with concatenation. */
  lemma {:induction false} SomesAppend<T>(a: seq<Option<T>>, b: seq<Option<T>>)
    ensures Somes(a + b) == Somes(a) + Somes(b)
    decreases |b|
  {
    if b == [] {
      assert a + b == a;
    } else {
      var n := |b| - 1;
      assert (a + b)[..|a + b| - 1] == a + b[..n];
      SomesAppend(a, b[..n]);
    }
  }

  /** A single value sums to itself; an absent one to nothing. */
  lemma SumSomesSingle(v: Option<nat>)
    ensures Sum(Somes([v])) == if v.Some? then v.value else 0
  {
    var one := [v];
    assert one[..0] == [];
    if v.Some? {
      assert [v.value][..0] == [];
    }
  }

  lemma DivUnique(n: int, d: int, q: int, r: int)
    requires d > 0 && 0 <= r < d && n == d * q + r
    ensures n / d == q
  {
    var q', r' := n / d, n % d;
    assert d * (q - q') == r' - r;
    if q - q' >= 1 {
      MulAtLeast(d, q - q');
    } else if q' - q >= 1 {
      MulAtLeast(d, q' - q);
    }
  }

  lemma MulAtLeast(d: nat, k: int)
    requires k >= 1
    ensures d * k >= d
  {
  }

  lemma DivDouble(a: nat, x: nat, m: nat)
    requires m > 0 && x < 2
    ensures (2 * a + x) / (2 * m) == a / m
  {
    var q, r := a / m, a % m;
    assert a == m * q + r;
    assert 2 * a + x == (2 * m) * q + (2 * r + x);
    DivUnique(2 * a + x, 2 * m, q, 2 * r + x);
  }

  /** Bit `j` of a bit string, counted from the most significant end, is
      its `j`-th element. */
  lemma {:induction false} BitsValueBit(b: seq<bool>, j: nat)
    requires j < |b|
    ensures (BitsValue(b) / Pow2(|b| - 1 - j)) % 2 == if b[j] then 1 else 0
    decreases |b|
  {
    var n := |b| - 1;
    var a, x := b[..n], if b[n] then 1 else 0;
    assert b == a + [b[n]];
    BitsValueSnoc(a, b[n]);
    if j < n {
      BitsValueBit(a, j);
      assert a[j] == b[j];
      var e: nat := n - 1 - j;
      assert Pow2(e + 1) == 2 * Pow2(e);
      BitStep(BitsValue(a), x, Pow2(e), if b[j] then 1 else 0);
    } else {
      LastBit(BitsValue(a), x);
    }
  }

  lemma LastBit(v: nat, x: nat)
    requires x < 2
    ensures ((2 * v + x) / Pow2(0)) % 2 == x
  {
  }

  lemma BitStep(v: nat, x: nat, m: nat, bit: nat)
    requires m > 0 && x < 2 && (v / m) % 2 == bit
    ensures ((2 * v + x) / (2 * m)) % 2 == bit
  {
    DivDouble(v, x, m);
  }
}
