/** Decimal numerals, zero-filled numerals, and the order of strings that the position keys rely on. */
module Decimals {
  import opened Arithmetic

  function Digit(d: nat): (ch: char)
    requires d < 10
    ensures '0' <= ch <= '9' && ch as int - '0' as int == d
  {
    (d + '0' as int) as char
  }

  function Decimal(n: nat): (s: string)
    ensures |s| > 0
    ensures forall i :: 0 <= i < |s| ==> '0' <= s[i] <= '9'
  {
    if n < 10 then [Digit(n)] else Decimal(n / 10) + [Digit(n % 10)]
  }

  function Zeros(k: nat): (s: string)
    ensures |s| == k
  {
    seq(k, _ => '0')
  }

  /** A number written with at least `width` characters: short numerals are filled up with zeros, long ones kept. */
  function FillZero(n: nat, width: nat): (s: string)
    ensures |s| >= width
  {
    var s := Decimal(n);
    if |s| >= width then s else Zeros(width - |s|) + s
  }

  function Pow10(k: nat): (p: nat)
    ensures p > 0
  {
    if k == 0 then 1 else 10 * Pow10(k - 1)
  }

  /** Exactly `width` digits: what `FillZero` writes for a number that fits. */
  function Padded(n: nat, width: nat): (s: string)
    ensures |s| == width
  {
    if width == 0 then "" else Padded(n / 10, width - 1) + [Digit(n % 10)]
  }

  lemma {:induction false} PaddedZero(width: nat)
    ensures Padded(0, width) == Zeros(width)
  {
    if width > 0 {
      PaddedZero(width - 1);
      assert Zeros(width) == Zeros(width - 1) + ['0'];
    }
  }

  /** A number needs at most `width` digits exactly when it is below the power of ten. */
  lemma {:induction false} DecimalLength(n: nat, width: nat)
    requires width > 0
    ensures |Decimal(n)| <= width <==> n < Pow10(width)
    decreases width
  {
    if width == 1 {
    } else if n >= 10 {
      DecimalLength(n / 10, width - 1);
    } else {
      Pow10Grows(width);
    }
  }

  lemma {:induction false} Pow10Grows(k: nat)
    requires k > 0
    ensures Pow10(k) >= 10
  {
    if k > 1 {
      Pow10Grows(k - 1);
    }
  }

  lemma {:induction false} FillZeroIsPadded(n: nat, width: nat)
    requires width > 0 && n < Pow10(width)
    ensures FillZero(n, width) == Padded(n, width)
    decreases width
  {
    DecimalLength(n, width);
    if n < 10 {
      PaddedZero(width - 1);
    } else if width > 1 {
      FillZeroIsPadded(n / 10, width - 1);
      assert Zeros(width - |Decimal(n)|) + Decimal(n)
          == (Zeros(width - 1 - |Decimal(n / 10)|) + Decimal(n / 10)) + [Digit(n % 10)];
    }
  }

  // ----- the order of strings -----

  /** `a` and `b` agree up to `d`, where `b` has the greater character. */
  predicate DivergesAt(a: string, b: string, d: nat) {
    d < |a| && d < |b| && a[..d] == b[..d] && a[d] < b[d]
  }

  ghost predicate LexLess(a: string, b: string) {
    exists d: nat :: DivergesAt(a, b, d)
  }

  lemma DivergesOneWay(a: string, b: string, d: nat, e: nat)
    requires DivergesAt(a, b, d)
    ensures !DivergesAt(b, a, e)
  {
    if e < d {
      assert a[e] == a[..d][e] && b[e] == b[..d][e];
    } else if d < e < |a| && e < |b| {
      assert a[d] == a[..e][d] && b[d] == b[..e][d];
    }
  }

  lemma LexLessAsymmetric(a: string, b: string)
    requires LexLess(a, b)
    ensures !LexLess(b, a) && a != b
  {
    var d: nat :| DivergesAt(a, b, d);
    forall e: nat ensures !DivergesAt(b, a, e) {
      DivergesOneWay(a, b, d, e);
    }
  }

  lemma LexLessLeft(p: string, q: string, a: string, b: string)
    requires |p| == |q| && LexLess(p, q)
    ensures LexLess(p + a, q + b)
  {
    var d: nat :| DivergesAt(p, q, d);
    assert (p + a)[..d] == p[..d] && (q + b)[..d] == q[..d];
    assert DivergesAt(p + a, q + b, d);
  }

  lemma LexLessRight(p: string, a: string, b: string)
    requires LexLess(a, b)
    ensures LexLess(p + a, p + b)
  {
    var d: nat :| DivergesAt(a, b, d);
    assert (p + a)[..|p| + d] == p + a[..d] && (p + b)[..|p| + d] == p + b[..d];
    assert DivergesAt(p + a, p + b, |p| + d);
  }

  /** Numerals of equal width are ordered as the numbers they write. */
  lemma {:induction false} PaddedOrder(a: nat, b: nat, width: nat)
    requires a < b < Pow10(width)
    ensures LexLess(Padded(a, width), Padded(b, width))
  {
    var p, q := Padded(a / 10, width - 1), Padded(b / 10, width - 1);
    if a / 10 < b / 10 {
      PaddedOrder(a / 10, b / 10, width - 1);
      LexLessLeft(p, q, [Digit(a % 10)], [Digit(b % 10)]);
    } else {
      assert a / 10 == b / 10 && a % 10 < b % 10;
      assert DivergesAt([Digit(a % 10)], [Digit(b % 10)], 0);
      LexLessRight(p, [Digit(a % 10)], [Digit(b % 10)]);
    }
  }

  lemma PaddedInjective(a: nat, b: nat, width: nat)
    requires a < Pow10(width) && b < Pow10(width)
    ensures Padded(a, width) == Padded(b, width) <==> a == b
  {
    if a < b {
      PaddedOrder(a, b, width);
      LexLessAsymmetric(Padded(a, width), Padded(b, width));
    } else if b < a {
      PaddedOrder(b, a, width);
      LexLessAsymmetric(Padded(b, width), Padded(a, width));
    }
  }

  /** The leading digit of a number written with `width` digits. */
  function Leading(n: nat, width: nat): nat
    requires width > 0
  {
    Quotient(n, Pow10(width - 1))
  }

  lemma {:induction false} PaddedLeading(n: nat, width: nat)
    requires width > 0 && n < Pow10(width)
    ensures Leading(n, width) < 10 && Padded(n, width)[0] == Digit(Leading(n, width))
  {
    if width > 1 {
      PaddedLeading(n / 10, width - 1);
      DivideTwice(n, Pow10(width - 2));
      assert Padded(n, width)[0] == Padded(n / 10, width - 1)[0];
    }
  }

  lemma DivideTwice(n: nat, p: nat)
    requires p > 0
    ensures (n / 10) / p == n / (10 * p)
  {
    var q, r := n / (10 * p), n % (10 * p);
    assert n == q * (10 * p) + r;
    assert n / 10 == q * p + r / 10 by {
      assert n == 10 * (q * p) + r;
    }
    assert r / 10 < p;
    QuotientUnique(n / 10, p, q, r / 10);
  }
}
