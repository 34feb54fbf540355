/**
 Numeric coercion of a cell (`pd.to_numeric(..., errors="coerce")`),
 restricted to decimal integers with an optional sign, and the fixed-width
 zero-padded decimal rendering used for dates.
 */
module Numbers {
  import opened Wrappers
  import opened Text
  import opened Frame

  function DigitValue(c: char): (v: nat)
    requires IsDigit(c)
    ensures v < 10
  {
    c as int - '0' as int
  }

  function DigitChar(v: nat): (c: char)
    requires v < 10
    ensures IsDigit(c) && DigitValue(c) == v
  {
    ('0' as int + v) as char
  }

  predicate AllDigits(s: string) {
    forall i :: 0 <= i < |s| ==> IsDigit(s[i])
  }

  /** The value of a string of decimal digits, most significant first. */
  function DigitsValue(s: string): nat
    requires AllDigits(s)
  {
    if |s| == 0 then 0 else DigitsValue(s[..|s| - 1]) * 10 + DigitValue(s[|s| - 1])
  }

  /** An optional `+` or `-` followed by one or more decimal digits. */
  predicate IsIntLiteral(s: string) {
    if |s| > 0 && (s[0] == '+' || s[0] == '-') then |s| > 1 && AllDigits(s[1..])
    else |s| > 0 && AllDigits(s)
  }

  /** Coerces a cell to an integer; missing or non-numeric text gives `None` (NaN). */
  function ParseInt(c: Cell): (r: Option<int>)
    ensures r.Some? <==> c.Str? && IsIntLiteral(c.s)
    ensures r.Some? && c.s[0] == '-' ==> r.value <= 0
    ensures r.Some? && c.s[0] != '-' ==> r.value >= 0
  {
    match c
    case NA => None
    case Str(s) =>
      if |s| > 0 && (s[0] == '+' || s[0] == '-') then
        if |s| > 1 && AllDigits(s[1..]) then
          var v: int := DigitsValue(s[1..]);
          Some(if s[0] == '-' then -v else v)
        else None
      else if |s| > 0 && AllDigits(s) then Some(DigitsValue(s))
      else None
  }

  function Pow10(w: nat): (p: nat)
    ensures p >= 1
  {
    if w == 0 then 1 else 10 * Pow10(w - 1)
  }

  /** The last `width` decimal digits of `n`, zero-padded on the left. */
  function Pad(n: nat, width: nat): (r: string)
    ensures |r| == width && AllDigits(r)
  {
    if width == 0 then "" else Pad(n / 10, width - 1) + [DigitChar(n % 10)]
  }

  /** Reading back a padded rendering gives the number modulo the width. */
  lemma {:induction false} PadValue(n: nat, width: nat)
    ensures DigitsValue(Pad(n, width)) == n % Pow10(width)
  {
    if width > 0 {
      var r := Pad(n, width);
      assert r[..|r| - 1] == Pad(n / 10, width - 1);
      PadValue(n / 10, width - 1);
      ModSplit(n, Pow10(width - 1));
    }
  }

  lemma ModSplit(n: nat, p: nat)
    requires p >= 1
    ensures (n / 10) % p * 10 + n % 10 == n % (10 * p)
  {
    var q, r := n / 10, n % 10;
    var a, b := q / p, q % p;
    assert n == q * 10 + r;
    assert q == a * p + b;
    assert q * 10 == a * (10 * p) + b * 10 by {
      assert (a * p + b) * 10 == a * p * 10 + b * 10;
    }
    assert b * 10 + r < 10 * p by {
      assert b <= p - 1;
      assert b * 10 <= (p - 1) * 10;
    }
    ModUnique(n, 10 * p, a, b * 10 + r);
  }

  lemma ModUnique(n: int, d: int, k: int, r: int)
    requires d > 0 && 0 <= r < d && n == k * d + r
    ensures n % d == r
  {
    var k', r' := n / d, n % d;
    assert n == k' * d + r';
    var m := k - k';
    assert m * d == r' - r by {
      assert k * d - k' * d == (k - k') * d;
    }
    if m >= 1 {
      MulAtLeast(m, d);
    } else if m <= -1 {
      MulAtLeast(-m, d);
    }
  }

  lemma MulAtLeast(m: int, d: int)
    requires m >= 1 && d > 0
    ensures m * d >= d
  {
    assert m * d == (m - 1) * d + d;
    assert (m - 1) * d >= 0;
  }

  /** The decimal rendering of a natural number, without leading zeros. */
  function ShowNat(n: nat): (r: string)
    ensures |r| > 0 && AllDigits(r)
  {
    if n < 10 then [DigitChar(n)] else ShowNat(n / 10) + [DigitChar(n % 10)]
  }

  function ShowInt(n: int): (r: string) {
    if n < 0 then "-" + ShowNat(-n) else ShowNat(n)
  }

  lemma {:induction false} ShowNatValue(n: nat)
    ensures DigitsValue(ShowNat(n)) == n
  {
    if n >= 10 {
      var r := ShowNat(n);
      assert r[..|r| - 1] == ShowNat(n / 10);
      ShowNatValue(n / 10);
    }
  }

  /** Coercing the rendering of any integer gives that integer back. */
  lemma ParseShowRoundTrip(n: int)
    ensures ParseInt(Str(ShowInt(n))) == Some(n)
  {
    if n < 0 {
      ShowNatValue(-n);
      assert ShowInt(n)[1..] == ShowNat(-n);
    } else {
      ShowNatValue(n);
      assert IsDigit(ShowInt(n)[0]);
    }
  }
}
