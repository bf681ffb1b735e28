/**
 * Decimal numerals: digit strings and their values, integer rendering (`%d`),
 * Go's strconv.Atoi on a 64-bit platform, and Python's float() applied to the
 * digit-and-dot strings that the scraper's patterns capture. Floating point is
 * replaced by the exact decimal value (`real`).
 */
module Numbers {
  import opened Wrappers
  import opened Text

  predicate AllDigits(s: string) {
    forall i :: 0 <= i < |s| ==> IsDigit(s[i])
  }

  lemma DigitsSlice(s: string, p: nat, e: nat)
    requires p <= e <= |s|
    requires forall j :: p <= j < e ==> IsDigit(s[j])
    ensures AllDigits(s[p..e])
  {
    forall j | 0 <= j < e - p ensures IsDigit(s[p..e][j]) {
      assert s[p..e][j] == s[p + j];
    }
  }

  function DigitValue(c: char): nat
    requires IsDigit(c)
  {
    c as int - '0' as int
  }

  function DigitChar(d: nat): (c: char)
    requires d < 10
    ensures IsDigit(c) && DigitValue(c) == d
  {
    ('0' as int + d) as char
  }

  /** The value of a digit string, most significant digit first. */
  function DigitsValue(s: string): nat
    requires AllDigits(s)
  {
    if |s| == 0 then 0 else DigitsValue(s[..|s| - 1]) * 10 + DigitValue(s[|s| - 1])
  }

  function Pow10(n: nat): (r: nat)
    ensures r >= 1
  {
    if n == 0 then 1 else 10 * Pow10(n - 1)
  }

  /** Decimal rendering of a natural number, without leading zeros. */
  function NatToString(n: nat): (r: string)
    ensures |r| >= 1 && AllDigits(r)
    ensures |r| > 1 ==> r[0] != '0'
  {
    if n < 10 then [DigitChar(n)] else NatToString(n / 10) + [DigitChar(n % 10)]
  }

  /** Reading back a rendered number gives the number. */
  lemma {:induction false} NatToStringRoundTrip(n: nat)
    ensures DigitsValue(NatToString(n)) == n
  {
    if n >= 10 {
      NatToStringRoundTrip(n / 10);
      var s := NatToString(n);
      assert s[..|s| - 1] == NatToString(n / 10);
    }
  }

  /** Go's `%d` and strconv.Itoa. */
  function IntToString(n: int): (r: string)
    ensures |r| >= 1
    ensures n >= 0 ==> AllDigits(r)
    ensures n < 0 ==> r[0] == '-' && AllDigits(r[1..])
  {
    if n < 0 then "-" + NatToString(-n) else NatToString(n)
  }

  const MinInt64: int := -0x8000_0000_0000_0000
  const MaxInt64: int := 0x7FFF_FFFF_FFFF_FFFF

  /**
   * Go strconv.Atoi with 64-bit int: an optional sign followed by at least one
   * decimal digit and nothing else, whose value fits in int64.
   */
  function Atoi(s: string): (r: Option<int>)
    ensures r.Some? ==> MinInt64 <= r.value <= MaxInt64
    ensures r.Some? ==> |s| >= 1 && (IsDigit(s[0]) || s[0] == '+' || s[0] == '-')
    ensures r.Some? && IsDigit(s[0]) ==> AllDigits(s) && r.value == DigitsValue(s)
  {
    var signed := |s| > 0 && (s[0] == '+' || s[0] == '-');
    var body := if signed then s[1..] else s;
    if |body| == 0 || !AllDigits(body) then None
    else
      var v := if signed && s[0] == '-' then -(DigitsValue(body) as int) else DigitsValue(body) as int;
      if MinInt64 <= v <= MaxInt64 then Some(v) else None
  }

  /** Every int64 survives rendering with `%d` and parsing with Atoi. */
  lemma AtoiRoundTrip(n: int)
    requires MinInt64 <= n <= MaxInt64
    ensures Atoi(IntToString(n)) == Some(n)
  {
    var s := IntToString(n);
    if n < 0 {
      var t := NatToString(-n);
      assert s == "-" + t;
      assert s[0] == '-' && s[1..] == t;
      NatToStringRoundTrip(-n);
      assert -(DigitsValue(t) as int) == n;
    } else {
      var t := NatToString(n);
      assert s == t && IsDigit(s[0]);
      NatToStringRoundTrip(n);
      assert DigitsValue(t) as int == n;
    }
  }

  predicate DigitOrDot(c: char) { IsDigit(c) || c == '.' }

  /** The strings Python's float() accepts among those made of digits and dots. */
  predicate ValidPyDecimal(s: string) {
    && (exists i :: 0 <= i < |s| && IsDigit(s[i]))
    && (forall i, j :: 0 <= i < |s| && 0 <= j < |s| && s[i] == '.' && s[j] == '.' ==> i == j)
  }

  /** The exact value of `a.b` for digit strings `a` and `b`. */
  function DecimalValue(a: string, b: string): real
    requires AllDigits(a) && AllDigits(b)
  {
    DigitsValue(a) as real + DigitsValue(b) as real / Pow10(|b|) as real
  }

  /**
   * Python float() on a string of digits and dots, with the exact decimal value
   * in place of the nearest double; None where Python raises ValueError.
   */
  function PyFloat(s: string): (r: Option<real>)
    requires forall i :: 0 <= i < |s| ==> DigitOrDot(s[i])
    ensures r.Some? <==> ValidPyDecimal(s)
    ensures r.Some? ==> r.value >= 0.0
  {
    match IndexFrom(s, ".", 0)
    case None =>
      assert forall i :: 0 <= i < |s| ==> s[i] != '.' by {
        forall i | 0 <= i < |s| ensures s[i] != '.' {
          StartsAtChar(s, i, '.');
        }
      }
      if |s| == 0 then None
      else
        assert AllDigits(s) by {
          forall i | 0 <= i < |s| ensures IsDigit(s[i]) {
            assert DigitOrDot(s[i]) && s[i] != '.';
          }
        }
        Some(DigitsValue(s) as real)
    case Some(k) =>
      var a := s[..k];
      var b := s[k + 1..];
      assert s[k] == '.' by { StartsAtChar(s, k, '.'); }
      assert AllDigits(a) by {
        forall i | 0 <= i < k ensures IsDigit(a[i]) {
          StartsAtChar(s, i, '.');
          assert DigitOrDot(s[i]) && s[i] != '.';
          assert a[i] == s[i];
        }
      }
      if !AllDigits(b) then
        assert !ValidPyDecimal(s) by {
          var j :| 0 <= j < |b| && !IsDigit(b[j]);
          assert b[j] == s[k + 1 + j];
          assert DigitOrDot(s[k + 1 + j]);
        }
        None
      else if |a| + |b| == 0 then None
      else
        assert ValidPyDecimal(s) by {
          if |a| > 0 { assert IsDigit(s[0]); } else { assert IsDigit(s[k + 1]); }
          forall i | 0 <= i < |s| && i != k ensures s[i] != '.' {
            if i < k { StartsAtChar(s, i, '.'); } else { assert s[i] == b[i - k - 1]; }
          }
        }
        Some(DecimalValue(a, b))
  }
}
