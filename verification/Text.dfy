/** Text shared by every parser and printer of the model: the lexicographic order that the
    schema events compare with, decimal printing, and the integer parsing of the Rust standard library. */
module Text {

  datatype Option<+T> = None | Some(value: T)

  // ---------- lexicographic order ----------

  /** `a < b` as SurrealQL, `BTreeMap<String, _>` and `str::cmp` compare strings. */
  predicate Less(a: string, b: string) {
    if b == "" then false
    else if a == "" then true
    else a[0] < b[0] || (a[0] == b[0] && Less(a[1..], b[1..]))
  }

  predicate AtMost(a: string, b: string) {
    a == b || Less(a, b)
  }

  lemma {:induction false} LessIrreflexive(a: string)
    ensures !Less(a, a)
  {
    if a != "" {
      LessIrreflexive(a[1..]);
    }
  }

  lemma {:induction false} LessTransitive(a: string, b: string, c: string)
    requires Less(a, b) && Less(b, c)
    ensures Less(a, c)
  {
    if a != "" && a[0] == b[0] && b[0] == c[0] {
      LessTransitive(a[1..], b[1..], c[1..]);
    }
  }

  /** Exactly one of `a < b`, `a == b`, `b < a` holds. */
  lemma {:induction false} LessTotal(a: string, b: string)
    ensures Less(a, b) || a == b || Less(b, a)
    ensures !(Less(a, b) && Less(b, a))
  {
    if a != "" && b != "" {
      LessTotal(a[1..], b[1..]);
      if a[0] == b[0] && a[1..] == b[1..] {
        assert a == [a[0]] + a[1..] == b;
      }
    }
  }

  lemma LessAsymmetric(a: string, b: string)
    requires AtMost(a, b)
    ensures !Less(b, a)
  {
    LessIrreflexive(a);
    LessTotal(a, b);
  }

  /** Heads of one length decide first, tails break the tie. */
  lemma {:induction false} LessAppend(a: string, b: string, s: string, t: string)
    requires |a| == |b|
    ensures Less(a + s, b + t) <==> Less(a, b) || (a == b && Less(s, t))
  {
    if a == "" {
      assert a + s == s && b + t == t;
    } else {
      assert (a + s)[1..] == a[1..] + s && (b + t)[1..] == b[1..] + t;
      LessAppend(a[1..], b[1..], s, t);
      assert a == [a[0]] + a[1..] && b == [b[0]] + b[1..];
    }
  }

  lemma Associative(a: string, b: string, c: string)
    ensures a + (b + c) == a + b + c
  {
  }

  // ---------- decimal numbers ----------

  predicate IsDigit(c: char) {
    '0' <= c <= '9'
  }

  predicate AllDigits(s: string) {
    forall i :: 0 <= i < |s| ==> IsDigit(s[i])
  }

  function DigitValue(c: char): nat
    requires IsDigit(c)
  {
    c as int - '0' as int
  }

  function DigitChar(d: nat): char
    requires d < 10
  {
    ('0' as int + d) as char
  }

  /** The number a digit string denotes. */
  function Value(s: string): nat
    requires AllDigits(s)
  {
    if s == "" then 0 else 10 * Value(s[..|s| - 1]) + DigitValue(s[|s| - 1])
  }

  /** `n.to_string()` */
  function Decimal(n: nat): (s: string)
    ensures s != "" && AllDigits(s)
    ensures Value(s) == n
    ensures |s| > 1 ==> s[0] != '0'
  {
    if n < 10 then [DigitChar(n)]
    else
      var front := Decimal(n / 10);
      var s := front + [DigitChar(n % 10)];
      assert s[..|s| - 1] == front;
      assert |front| == 1 ==> Value(front) == DigitValue(front[0]) by { assert |front| == 1 ==> front[..0] == ""; }
      s
  }

  /** `to_string()` of a signed number, and the text a THROW gives it with `<string>`. */
  function IntText(n: int): string {
    if n < 0 then "-" + Decimal(-n) else Decimal(n)
  }

  function Zeros(n: nat): (s: string)
    ensures |s| == n && AllDigits(s)
  {
    seq(n, _ => '0')
  }

  /** `{n:0width}` for a non-negative number. */
  function Padded(n: nat, width: nat): (s: string)
    ensures AllDigits(s) && Value(s) == n
    ensures |s| >= width && |s| >= 1
  {
    var d := Decimal(n);
    if |d| >= width then d
    else
      ValueOfPadding(width - |d|, d);
      Zeros(width - |d|) + d
  }

  lemma {:induction false} ValueOfPadding(k: nat, d: string)
    requires AllDigits(d)
    ensures AllDigits(Zeros(k) + d) && Value(Zeros(k) + d) == Value(d)
  {
    var s := Zeros(k) + d;
    if d == "" {
      if k > 0 {
        ValueOfPadding(k - 1, "");
        assert Zeros(k - 1) + "" == s[..k - 1];
      }
    } else {
      var d' := d[..|d| - 1];
      ValueOfPadding(k, d');
      assert s[..|s| - 1] == Zeros(k) + d';
    }
  }

  /** Digit strings of one length are ordered as the numbers they denote. */
  lemma {:induction false} DigitsOrder(a: string, b: string)
    requires |a| == |b| && AllDigits(a) && AllDigits(b)
    ensures Less(a, b) <==> Value(a) < Value(b)
    ensures a == b <==> Value(a) == Value(b)
  {
    if a != "" {
      var n := |a| - 1;
      DigitsOrder(a[..n], b[..n]);
      assert a == a[..n] + [a[n]] && b == b[..n] + [b[n]];
      LessAppend(a[..n], b[..n], [a[n]], [b[n]]);
      assert Less([a[n]], [b[n]]) <==> DigitValue(a[n]) < DigitValue(b[n]);
    }
  }

  /** A digit string of n digits denotes a number below 10^n; stated for the widths the printers use. */
  lemma SmallValues(s: string)
    requires AllDigits(s)
    ensures |s| == 1 ==> Value(s) < 10
    ensures |s| == 2 ==> Value(s) < 100
    ensures |s| == 4 ==> Value(s) < 10000
  {
    if |s| > 0 {
      var t := s[..|s| - 1];
      if |t| > 0 {
        var u := t[..|t| - 1];
        if |u| > 0 {
          var v := u[..|u| - 1];
          assert |s| == 4 ==> v[..0] == "" && Value(v) < 10;
        }
      }
    }
  }

  lemma PaddedWidth(n: nat, width: nat)
    requires (width == 2 && n < 100) || (width == 4 && n < 10000)
    ensures |Padded(n, width)| == width
  {
    assert n >= 10 ==> |Decimal(n)| == |Decimal(n / 10)| + 1;
    assert n >= 100 ==> |Decimal(n / 10)| == |Decimal(n / 10 / 10)| + 1;
    assert n >= 1000 ==> |Decimal(n / 10 / 10)| == |Decimal(n / 10 / 10 / 10)| + 1;
  }

  /** Printing to a width a digit string already has gives the string back. */
  lemma PaddedOfValue(s: string)
    requires AllDigits(s) && (|s| == 2 || |s| == 4)
    ensures Padded(Value(s), |s|) == s
  {
    SmallValues(s);
    PaddedWidth(Value(s), |s|);
    DigitsOrder(Padded(Value(s), |s|), s);
  }

  /** `str::parse` of an integer type with the bounds `lo..=hi`: an optional sign (a minus
      only for signed types), at least one digit, and a value the type can hold. */
  function ParseInt(s: string, lo: int, hi: int): Option<int> {
    if s == "" then None
    else
      var negative := s[0] == '-' && lo < 0;
      var body := if s[0] == '+' || negative then s[1..] else s;
      if body == "" || !AllDigits(body) then None
      else
        var v := if negative then -(Value(body) as int) else Value(body);
        if lo <= v <= hi then Some(v) else None
  }

  const I64_MAX: int := 0x7FFF_FFFF_FFFF_FFFF
  const I64_MIN: int := -0x8000_0000_0000_0000
  const I32_MAX: int := 0x7FFF_FFFF
  const I32_MIN: int := -0x8000_0000

  lemma ParseDigits(s: string, lo: int, hi: int)
    requires s != "" && AllDigits(s) && lo <= 0
    ensures ParseInt(s, lo, hi) == if Value(s) <= hi then Some(Value(s)) else None
  {
    assert IsDigit(s[0]);
  }

  /** Digits behind a minus are read as the negative number, and only by signed types. */
  lemma ParseMinus(digits: string, lo: int, hi: int)
    ensures ParseInt("-" + digits, lo, hi)
         == if lo < 0 && digits != "" && AllDigits(digits) && lo <= -(Value(digits) as int) <= hi
            then Some(-(Value(digits) as int)) else None
  {
    var s := "-" + digits;
    assert s[0] == '-' && s[1..] == digits && !IsDigit(s[0]);
  }

  /** Digits behind a plus are read as they are without it. */
  lemma ParsePlus(digits: string, lo: int, hi: int)
    ensures ParseInt("+" + digits, lo, hi)
         == if digits != "" && AllDigits(digits) && lo <= Value(digits) <= hi then Some(Value(digits)) else None
  {
    var s := "+" + digits;
    assert s[0] == '+' && s[1..] == digits;
  }

  /** Nothing else is read. */
  lemma ParseNothingElse(s: string, lo: int, hi: int)
    requires s == "" || (s[0] != '+' && s[0] != '-' && !AllDigits(s))
    ensures ParseInt(s, lo, hi) == None
  {
  }

  // ---------- searching ----------

  /** `s.split_once(c)` for one character: the parts around its first occurrence. */
  function SplitAt(s: string, c: char): (r: Option<(string, string)>)
    ensures r.None? <==> c !in s
    ensures r.Some? ==> c !in r.value.0 && s == r.value.0 + [c] + r.value.1
  {
    if s == "" then None
    else if s[0] == c then Some(("", s[1..]))
    else
      match SplitAt(s[1..], c)
      case None => None
      case Some(p) =>
        assert s == [s[0]] + s[1..];
        Some(([s[0]] + p.0, p.1))
  }

  lemma {:induction false} SplitAtFirst(a: string, c: char, b: string)
    requires c !in a
    ensures SplitAt(a + [c] + b, c) == Some((a, b))
  {
    var s := a + [c] + b;
    if a == "" {
      assert s[1..] == b;
    } else {
      assert s[1..] == a[1..] + [c] + b;
      SplitAtFirst(a[1..], c, b);
      assert [a[0]] + a[1..] == a;
    }
  }
}
