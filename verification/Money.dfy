/** Money text: the form's `parse_dues_to_cents` and the venture page's `fmt_money`. */
module Money {
  import opened Text
  import Calendar
  import Slugs

  datatype DuesError = Negative | TooManyDecimals | NotANumber | TooLarge

  datatype Dues = Cents(cents: int) | Invalid(error: DuesError)

  /** `format!("{:0<2}", frac)` */
  function PadRight(frac: string): string {
    if |frac| == 0 then "00" else if |frac| == 1 then frac + "0" else frac
  }

  predicate FitsI64(n: int) {
    I64_MIN <= n <= I64_MAX
  }

  /** `checked_mul(100)` and `checked_add(frac)` */
  function Combine(whole: int, frac: int): Dues {
    if !FitsI64(whole * 100) then Invalid(TooLarge)
    else if !FitsI64(whole * 100 + frac) then Invalid(TooLarge)
    else Cents(whole * 100 + frac)
  }

  function ParseParts(whole: string, frac: string): Dues {
    if |Slugs.Bytes(frac)| > 2 then Invalid(TooManyDecimals)
    else
      match if whole == "" then Some(0) else ParseInt(whole, I64_MIN, I64_MAX)
      case None => Invalid(NotANumber)
      case Some(w) =>
        match ParseInt(PadRight(frac), I64_MIN, I64_MAX)
        case None => Invalid(NotANumber)
        case Some(f) => Combine(w, f)
  }

  function ParseDues(s: string): Dues {
    if s == "" then Cents(0)
    else if s[0] == '-' then Invalid(Negative)
    else
      match SplitAt(s, '.')
      case Some(p) => ParseParts(p.0, p.1)
      case None => ParseParts(s, "")
  }

  // ---------- exactness ----------

  lemma PadRightDigits(frac: string)
    requires AllDigits(frac) && |frac| <= 2
    ensures AllDigits(PadRight(frac)) && |PadRight(frac)| == 2 && Value(PadRight(frac)) < 100
  {
    SmallValues(PadRight(frac));
  }

  /** The exact number of cents a whole part and up to two decimals denote. */
  function ExactCents(whole: string, frac: string): nat
    requires AllDigits(whole) && AllDigits(frac) && |frac| <= 2
  {
    100 * Value(whole) + (if |frac| == 1 then 10 * Value(frac) else Value(frac))
  }

  lemma PaddedDecimals(frac: string)
    requires AllDigits(frac) && |frac| <= 2
    ensures AllDigits(PadRight(frac)) && Value(PadRight(frac)) == if |frac| == 1 then 10 * Value(frac) else Value(frac)
  {
    if |frac| == 0 {
      assert "00"[..1] == "0" && "0"[..0] == "";
    } else if |frac| == 1 {
      assert (frac + "0")[..1] == frac;
    }
  }

  lemma PartsExact(whole: string, frac: string)
    requires AllDigits(whole) && AllDigits(frac) && |frac| <= 2
    ensures ParseParts(whole, frac)
         == if ExactCents(whole, frac) <= I64_MAX then Cents(ExactCents(whole, frac))
            else if Value(whole) <= I64_MAX then Invalid(TooLarge)
            else Invalid(NotANumber)
  {
    PadRightDigits(frac);
    PaddedDecimals(frac);
    forall i | 0 <= i < |frac| ensures frac[i] as int < 0x80 {
      assert IsDigit(frac[i]);
    }
    Slugs.AsciiBytes(frac);
    ParseDigits(PadRight(frac), I64_MIN, I64_MAX);
    if whole != "" {
      ParseDigits(whole, I64_MIN, I64_MAX);
    }
  }

  lemma DottedExact(whole: string, frac: string)
    requires AllDigits(whole) && AllDigits(frac) && |frac| <= 2
    ensures ParseDues(whole + "." + frac)
         == if ExactCents(whole, frac) <= I64_MAX then Cents(ExactCents(whole, frac))
            else if Value(whole) <= I64_MAX then Invalid(TooLarge)
            else Invalid(NotANumber)
  {
    DigitsLack(whole, '.');
    PartsExact(whole, frac);
    var s := whole + ['.'] + frac;
    assert s == whole + "." + frac;
    assert s[0] != '-' by { assert whole != "" ==> IsDigit(whole[0]) && s[0] == whole[0]; }
    SplitAtFirst(whole, '.', frac);
  }

  lemma PlainExact(whole: string)
    requires AllDigits(whole)
    ensures ParseDues(whole)
         == if ExactCents(whole, "") <= I64_MAX then Cents(ExactCents(whole, ""))
            else if Value(whole) <= I64_MAX then Invalid(TooLarge)
            else Invalid(NotANumber)
  {
    if whole == "" {
      PadRightDigits("");
      assert "00"[..1] == "0" && "0"[..0] == "" && Value("0") == 0 && Value("00") == 0;
    } else {
      assert IsDigit(whole[0]);
      DigitsLack(whole, '.');
      PartsExact(whole, "");
    }
  }

  lemma DigitsLack(d: string, c: char)
    requires AllDigits(d) && !IsDigit(c)
    ensures c !in d
  {
    assert forall i :: 0 <= i < |d| ==> IsDigit(d[i]);
  }

  /** On digit strings with at most two decimals the form reads the exact number of cents,
      and rejects the text exactly when that number does not fit in an i64. */
  lemma DuesExact(whole: string, frac: string, dot: bool)
    requires AllDigits(whole) && AllDigits(frac) && |frac| <= 2 && (frac != "" ==> dot)
    ensures ParseDues(if dot then whole + "." + frac else whole)
         == if ExactCents(whole, frac) <= I64_MAX then Cents(ExactCents(whole, frac))
            else if Value(whole) <= I64_MAX then Invalid(TooLarge)
            else Invalid(NotANumber)
  {
    if dot {
      DottedExact(whole, frac);
    } else {
      PlainExact(whole);
    }
  }

  // ---------- signs inside the text ----------

  /** The whole part as a number, for texts that do not start with a minus. */
  predicate WholeReads(w: string, value: int) {
    if w == "" then value == 0 else w[0] != '-' && ParseInt(w, I64_MIN, I64_MAX) == Some(value)
  }

  lemma {:induction false} ParsedLacksDot(w: string)
    requires w == "" || ParseInt(w, I64_MIN, I64_MAX).Some?
    ensures '.' !in w
  {
    if w != "" {
      var body := if w[0] == '+' || w[0] == '-' then w[1..] else w;
      DigitsLack(body, '.');
      assert w == [w[0]] + w[1..];
    }
  }

  lemma OneDigit(d: char)
    requires IsDigit(d)
    ensures AllDigits([d]) && Value([d]) == DigitValue(d)
  {
    assert [d][..0] == "";
  }

  lemma SignedDigit(sign: char, d: char)
    requires (sign == '-' || sign == '+') && IsDigit(d)
    ensures ParseInt([sign, d], I64_MIN, I64_MAX)
         == Some(if sign == '-' then -(DigitValue(d) as int) else DigitValue(d))
    ensures |Slugs.Bytes([sign, d])| == 2
  {
    OneDigit(d);
    assert [sign, d][1..] == [d];
    Slugs.AsciiBytes([sign, d]);
  }

  /** A signed digit is read as that many cents, not as tenths, and a minus is taken off the whole part. */
  lemma SignedDecimal(w: string, whole: int, sign: char, d: char)
    requires WholeReads(w, whole) && (sign == '-' || sign == '+') && IsDigit(d)
    ensures ParseDues(w + "." + [sign, d])
         == var cents := if sign == '-' then 100 * whole - DigitValue(d) else 100 * whole + DigitValue(d);
            if 100 * whole > I64_MAX || cents > I64_MAX then Invalid(TooLarge) else Cents(cents)
  {
    SignedDigit(sign, d);
    DottedParts(w, [sign, d]);
    WholeIsNatural(w, whole);
  }

  lemma WholeIsNatural(w: string, whole: int)
    requires WholeReads(w, whole)
    ensures whole >= 0 && '.' !in w
  {
    ParsedLacksDot(w);
  }

  /** The text is cut at its first dot. */
  lemma DottedParts(w: string, f: string)
    requires '.' !in w && (w == "" || w[0] != '-')
    ensures ParseDues(w + "." + f) == ParseParts(w, f)
  {
    var s := w + ['.'] + f;
    SplitAtFirst(w, '.', f);
    assert s == w + "." + f && s[0] != '-';
  }

  /** Two characters an i64 accepts and that are negative: a minus and a digit other than zero. */
  lemma NegativePair(f: string)
    requires |f| <= 2 && ParseInt(f, I64_MIN, I64_MAX).Some?
    ensures var v := ParseInt(f, I64_MIN, I64_MAX).value;
            -9 <= v <= 99 && (v < 0 <==> |f| == 2 && f[0] == '-' && '1' <= f[1] <= '9')
  {
    var body := if f[0] == '+' || f[0] == '-' then f[1..] else f;
    SmallValues(body);
    if f[0] == '-' {
      OneDigit(f[1]);
      assert body == [f[1]];
    }
  }

  /** Where a minus slips past the check: two decimals that are a minus and a digit other than
      zero, behind a whole part that is empty or reads as zero. */
  ghost predicate MinusSlipsIn(s: string) {
    exists w, d :: s == w + ".-" + [d] && '1' <= d <= '9' && WholeReads(w, 0)
  }

  lemma PartsNegative(whole: string, frac: string)
    requires whole == "" || whole[0] != '-'
    requires ParseParts(whole, frac).Cents? && ParseParts(whole, frac).cents < 0
    ensures |frac| == 2 && frac[0] == '-' && '1' <= frac[1] <= '9' && WholeReads(whole, 0)
  {
    NegativePair(PadRight(frac));
    if whole != "" {
      assert ParseInt(whole, I64_MIN, I64_MAX).value >= 0;
    }
    assert PadRight(frac)[1] != '0' ==> PadRight(frac) == frac;
  }

  lemma NegativeOnlyIf(s: string)
    requires ParseDues(s).Cents? && ParseDues(s).cents < 0
    ensures MinusSlipsIn(s)
  {
    match SplitAt(s, '.')
    case Some(p) =>
      assert p.0 != "" ==> p.0[0] == s[0];
      PartsNegative(p.0, p.1);
      assert p.1 == ['-'] + [p.1[1]];
      assert s == p.0 + ".-" + [p.1[1]];
    case None =>
      PartsNegative(s, "");
  }

  /** The form means to refuse negative amounts. It returns one on exactly these texts. */
  lemma NegativeExactlyIf(s: string)
    ensures ParseDues(s).Cents? && ParseDues(s).cents < 0 <==> MinusSlipsIn(s)
  {
    if ParseDues(s).Cents? && ParseDues(s).cents < 0 {
      NegativeOnlyIf(s);
    }
    if MinusSlipsIn(s) {
      var w, d :| s == w + ".-" + [d] && '1' <= d <= '9' && WholeReads(w, 0);
      assert s == w + "." + ['-', d];
      SignedDecimal(w, 0, '-', d);
    }
  }

  lemma MinusBehindDigit(a: char, d: char)
    requires IsDigit(a) && IsDigit(d)
    ensures ParseDues([a, '.', '-', d]) == Cents(100 * DigitValue(a) - DigitValue(d))
  {
    OneDigit(a);
    SignedDecimal([a], DigitValue(a), '-', d);
    assert [a, '.', '-', d] == [a] + "." + ['-', d];
  }

  /** Two such texts: one comes out negative, in the other the sign only lowers the amount. */
  lemma SignInDecimals()
    ensures ParseDues("0.-5") == Cents(-5) && ParseDues("5.-5") == Cents(495)
  {
    MinusBehindDigit('0', '5');
    MinusBehindDigit('5', '5');
  }

  // ---------- refusals ----------

  /** A leading minus is refused as negative, and more than two characters behind the first dot as too many decimals. */
  lemma RefusedTexts(w: string, f: string)
    ensures ParseDues("-" + w) == Invalid(Negative)
    ensures '.' !in w && (w == "" || w[0] != '-') && |f| > 2 ==> ParseDues(w + "." + f) == Invalid(TooManyDecimals)
  {
    if '.' !in w && (w == "" || w[0] != '-') {
      DottedParts(w, f);
    }
  }

  /** A character that is neither a digit nor a sign nor the dot is never read as part of a number. */
  predicate NumberChar(c: char) {
    IsDigit(c) || c == '+' || c == '-'
  }

  lemma ParsedChars(s: string)
    requires s == "" || ParseInt(s, I64_MIN, I64_MAX).Some?
    ensures forall i :: 0 <= i < |s| ==> NumberChar(s[i])
    ensures forall i :: 1 <= i < |s| ==> IsDigit(s[i])
  {
    if s != "" {
      var body := if s[0] == '+' || s[0] == '-' then s[1..] else s;
      forall i | 0 <= i < |s| ensures NumberChar(s[i]) && (i > 0 ==> IsDigit(s[i])) {
        if body == s {
          assert IsDigit(body[i]);
        } else if i > 0 {
          assert body[i - 1] == s[i];
        }
      }
    }
  }

  lemma AcceptedParts(w: string, f: string)
    requires ParseParts(w, f).Cents?
    ensures |f| <= 2 && forall i :: 0 <= i < |w| ==> NumberChar(w[i])
    ensures forall i :: 0 <= i < |f| ==> NumberChar(f[i])
  {
    ParsedChars(w);
    ParsedChars(PadRight(f));
    assert forall i :: 0 <= i < |f| ==> f[i] == PadRight(f)[i];
  }

  /** What is accepted starts with no minus and is digits and signs, with at most one dot and at most
      two characters behind it. */
  lemma AcceptedText(s: string)
    requires ParseDues(s).Cents?
    ensures s == "" || s[0] != '-'
    ensures if '.' in s
            then exists w, f :: s == w + "." + f && |f| <= 2 && (forall i :: 0 <= i < |w| ==> NumberChar(w[i]))
                                && forall i :: 0 <= i < |f| ==> NumberChar(f[i])
            else forall i :: 0 <= i < |s| ==> NumberChar(s[i])
  {
    if s != "" {
      match SplitAt(s, '.')
      case Some(p) =>
        AcceptedParts(p.0, p.1);
        assert s == p.0 + "." + p.1;
      case None =>
        AcceptedParts(s, "");
    }
  }

  // ---------- printing ----------

  /** The comma after a digit, if a positive number of whole groups follows it. */
  function Separator(n: nat): string {
    if n > 0 && n % 3 == 0 then "," else ""
  }

  /** The digits with their separating commas. */
  function Grouped(s: string): (r: string)
    ensures s != "" ==> r != ""
  {
    if s == "" then "" else [s[0]] + Separator(|s| - 1) + Grouped(s[1..])
  }

  function Reversed(s: string): (r: string)
    ensures |r| == |s|
  {
    if s == "" then "" else Reversed(s[1..]) + [s[0]]
  }

  lemma {:induction false} ReversedAt(s: string, k: nat)
    requires k < |s|
    ensures Reversed(s)[k] == s[|s| - 1 - k]
  {
    if k < |s| - 1 {
      ReversedAt(s[1..], k);
    }
  }

  lemma ReversedSnoc(s: string, c: char)
    ensures Reversed(s + [c]) == [c] + Reversed(s)
  {
    forall k | 0 <= k < |s| + 1 ensures Reversed(s + [c])[k] == ([c] + Reversed(s))[k] {
      ReversedAt(s + [c], k);
      if k > 0 { ReversedAt(s, k - 1); }
    }
  }

  lemma ReversedSeparator(grouped: string, i: nat)
    ensures Reversed(grouped + Separator(i)) == Separator(i) + Reversed(grouped)
  {
    if Separator(i) == "," {
      ReversedSnoc(grouped, ',');
    } else {
      assert grouped + "" == grouped && "" + Reversed(grouped) == Reversed(grouped);
    }
  }

  lemma SuffixStep(c: char, t: string, grouped: string)
    requires Reversed(grouped) == Grouped(t)
    ensures Reversed(grouped + Separator(|t|) + [c]) == Grouped([c] + t)
  {
    var sep := Separator(|t|);
    assert ([c] + t)[1..] == t;
    ReversedSnoc(grouped + sep, c);
    ReversedSeparator(grouped, |t|);
    assert [c] + (sep + Grouped(t)) == [c] + sep + Grouped(t);
  }

  /** The loop of `fmt_money`: walk the digits from the right, pushing a comma before each third one. */
  method Group(s: string) returns (r: string)
    ensures r == Grouped(s)
  {
    var chars := Reversed(s);
    var grouped := "";
    ghost var done := "";
    for i := 0 to |chars|
      invariant done == s[|s| - i..]
      invariant Reversed(grouped) == Grouped(done)
    {
      ReversedAt(s, i);
      SuffixStep(chars[i], done, grouped);
      assert grouped + "" == grouped;
      done := [chars[i]] + done;
      if i > 0 && i % 3 == 0 {
        grouped := grouped + ",";
      }
      grouped := grouped + [chars[i]];
    }
    assert s[0..] == s;
    r := Reversed(grouped);
  }

  /** Rust's truncating division and remainder. */
  function TruncDiv(a: int, b: int): int
    requires b > 0
  {
    if a >= 0 then a / b else -((-a) / b)
  }

  function TruncRem(a: int, b: int): int
    requires b > 0
  {
    a - b * TruncDiv(a, b)
  }

  /** `unsigned_abs() as i64`: the least i64 wraps back to itself. */
  function WrappedAbs(n: int): int {
    if n == I64_MIN then I64_MIN else if n < 0 then -n else n
  }

  /** `{minor:02}` */
  function TwoPlaces(n: int): string {
    if n < 0 then "-" + Padded(-n, 1) else Padded(n, 2)
  }

  function MoneyText(cents: int, currency: string): string {
    var abs := WrappedAbs(cents);
    var sign := if cents < 0 then "-" else "";
    sign + Grouped(IntText(TruncDiv(abs, 100))) + "." + TwoPlaces(TruncRem(abs, 100)) + " " + currency
  }

  method FmtMoney(cents: int, currency: string) returns (r: string)
    requires FitsI64(cents)
    ensures r == MoneyText(cents, currency)
    ensures cents > I64_MIN ==> Displayed(r) == Cents(cents)
  {
    if cents > I64_MIN {
      DisplayReadsBack(cents, currency);
    }
    var sign := if cents < 0 then "-" else "";
    var abs := WrappedAbs(cents);
    var major := Group(IntText(TruncDiv(abs, 100)));
    r := sign + major + "." + TwoPlaces(TruncRem(abs, 100)) + " " + currency;
  }

  // ---------- grouping and the round trip ----------

  function Without(s: string, c: char): string {
    if s == "" then "" else (if s[0] == c then "" else [s[0]]) + Without(s[1..], c)
  }

  lemma {:induction false} WithoutAppend(s: string, t: string, c: char)
    ensures Without(s + t, c) == Without(s, c) + Without(t, c)
  {
    if s == "" {
      assert s + t == t;
    } else {
      assert (s + t)[1..] == s[1..] + t;
      WithoutAppend(s[1..], t, c);
    }
  }

  lemma {:induction false} WithoutAbsent(s: string, c: char)
    requires c !in s
    ensures Without(s, c) == s
  {
    if s != "" {
      WithoutAbsent(s[1..], c);
    }
  }

  /** Removing the commas gives the digits back. */
  lemma {:induction false} UngroupGrouped(s: string)
    requires ',' !in s
    ensures Without(Grouped(s), ',') == s
  {
    if s != "" {
      var sep, rest := Separator(|s| - 1), Grouped(s[1..]);
      UngroupGrouped(s[1..]);
      assert Without(sep, ',') == "" by { if sep == "," { assert sep[1..] == ""; } }
      WithoutAppend(sep, rest, ',');
      WithoutHead(s[0], sep + rest);
      Associative([s[0]], sep, rest);
      assert s == [s[0]] + s[1..];
    }
  }

  lemma WithoutHead(c: char, t: string)
    requires c != ','
    ensures Without([c] + t, ',') == [c] + Without(t, ',')
  {
    assert ([c] + t)[1..] == t;
  }

  /** Counted from the right, every fourth character is a comma and no other. */
  predicate InThrees(g: string) {
    g != "" && g[0] != ','
    && (forall i :: 0 <= i < |g| ==> (g[i] == ',' <==> (|g| - 1 - i) % 4 == 3))
    && (forall i :: 0 <= i < |g| ==> g[i] == ',' || IsDigit(g[i]))
  }

  lemma OneMoreDigit(c: char, sep: string, h: string)
    requires IsDigit(c) && InThrees(h) && sep == if |h| % 4 == 3 then "," else ""
    ensures InThrees([c] + sep + h)
  {
    var g := [c] + sep + h;
    var k := |sep| + 1;
    forall i | 0 <= i < |g|
      ensures g[i] == ',' <==> (|g| - 1 - i) % 4 == 3
      ensures g[i] == ',' || IsDigit(g[i])
    {
      if i >= k {
        assert g[i] == h[i - k] && |g| - 1 - i == |h| - 1 - (i - k);
      }
    }
  }

  lemma {:induction false} GroupedLength(s: string)
    requires s != ""
    ensures |Grouped(s)| == |s| + (|s| - 1) / 3
  {
    if |s| > 1 {
      GroupedLength(s[1..]);
    }
  }

  lemma SeparatorByLength(n: nat, g: nat)
    requires n > 0 && g == n + (n - 1) / 3
    ensures Separator(n) == if g % 4 == 3 then "," else ""
  {
    var q, r := (n - 1) / 3, (n - 1) % 3;
    Calendar.QuotientIs(n, 3, if r == 2 then q + 1 else q, if r == 2 then 0 else r + 1);
    Calendar.QuotientIs(g, 4, q, r + 1);
  }

  /** The text does not start with a comma and every group after the first has exactly three digits. */
  lemma {:induction false} GroupsOfThree(s: string)
    requires AllDigits(s) && s != ""
    ensures InThrees(Grouped(s))
  {
    assert IsDigit(s[0]);
    if |s| == 1 {
      assert Grouped(s) == [s[0]];
    } else {
      GroupsOfThree(s[1..]);
      GroupedLength(s[1..]);
      SeparatorByLength(|s| - 1, |Grouped(s[1..])|);
      OneMoreDigit(s[0], Separator(|s| - 1), Grouped(s[1..]));
    }
  }

  /** A displayed amount with its currency and commas taken away. */
  function Unformat(s: string): string {
    match SplitAt(s, ' ')
    case Some(p) => Without(p.0, ',')
    case None => Without(s, ',')
  }

  lemma UnformatCuts(text: string, currency: string)
    requires ' ' !in text
    ensures Unformat(text + " " + currency) == Without(text, ',')
  {
    assert text + " " + currency == text + [' '] + currency;
    SplitAtFirst(text, ' ', currency);
  }

  lemma WithoutCommas(g: string, d: string, m: string)
    requires Without(g, ',') == d && ',' !in m
    ensures Without(g + "." + m, ',') == d + "." + m
  {
    assert g + "." + m == g + ("." + m);
    WithoutAppend(g, "." + m, ',');
    WithoutAbsent("." + m, ',');
    assert d + ("." + m) == d + "." + m;
  }

  lemma GroupedLacksSpace(d: string)
    requires AllDigits(d) && d != ""
    ensures ' ' !in Grouped(d)
  {
    GroupsOfThree(d);
  }

  /** The part of a displayed amount before the currency, its commas removed. */
  lemma UnformatAmount(d: string, m: string, currency: string)
    requires AllDigits(d) && d != "" && AllDigits(m)
    ensures Unformat(Grouped(d) + "." + m + " " + currency) == d + "." + m
  {
    GroupedLacksSpace(d);
    DigitsLack(m, ' ');
    UnformatCuts(Grouped(d) + "." + m, currency);
    DigitsLack(d, ',');
    DigitsLack(m, ',');
    UngroupGrouped(d);
    WithoutCommas(Grouped(d), d, m);
  }

  lemma NonNegativeText(cents: nat, currency: string)
    requires cents <= I64_MAX
    ensures MoneyText(cents, currency) == Grouped(Decimal(cents / 100)) + "." + Padded(cents % 100, 2) + " " + currency
  {
    assert WrappedAbs(cents) == cents;
    assert TruncDiv(cents, 100) == cents / 100 && TruncRem(cents, 100) == cents % 100;
    var g := Grouped(Decimal(cents / 100));
    assert "" + g == g;
    assert IntText(cents / 100) == Decimal(cents / 100) && TwoPlaces(cents % 100) == Padded(cents % 100, 2);
  }

  lemma AmountExact(cents: nat)
    ensures |Padded(cents % 100, 2)| == 2
    ensures ExactCents(Decimal(cents / 100), Padded(cents % 100, 2)) == cents
  {
    PaddedWidth(cents % 100, 2);
  }

  /** Reading a displayed amount back gives the amount, for every non-negative i64. */
  lemma ParseFormatted(cents: nat, currency: string)
    requires cents <= I64_MAX
    ensures ParseDues(Unformat(MoneyText(cents, currency))) == Cents(cents)
  {
    var d, m := Decimal(cents / 100), Padded(cents % 100, 2);
    NonNegativeText(cents, currency);
    UnformatAmount(d, m, currency);
    AmountExact(cents);
    DottedExact(d, m);
  }

  // ---------- signed amounts ----------

  /** A displayed amount read back, a leading minus negating the rest. */
  function Displayed(text: string): Dues {
    if text != "" && text[0] == '-' then
      match ParseDues(Unformat(text[1..]))
      case Cents(c) => Cents(-c)
      case Invalid(e) => Invalid(e)
    else ParseDues(Unformat(text))
  }

  lemma StartsWithDigit(cents: nat, currency: string)
    requires cents <= I64_MAX
    ensures MoneyText(cents, currency) != "" && MoneyText(cents, currency)[0] != '-'
  {
    NonNegativeText(cents, currency);
    var d := Decimal(cents / 100);
    assert Grouped(d)[0] == d[0] && IsDigit(d[0]);
  }

  lemma SignApart(sign: string, a: string, b: string, c: string)
    ensures sign + a + "." + b + " " + c == sign + ("" + a + "." + b + " " + c)
  {
    assert "" + a == a;
  }

  lemma NegativeText(cents: int, currency: string)
    requires I64_MIN < cents < 0
    ensures MoneyText(cents, currency) == "-" + MoneyText(-cents, currency)
  {
    var abs := -cents;
    assert WrappedAbs(cents) == abs && WrappedAbs(abs) == abs;
    SignApart("-", Grouped(IntText(TruncDiv(abs, 100))), TwoPlaces(TruncRem(abs, 100)), currency);
  }

  /** Every displayed amount reads back as the amount, except the least i64. */
  lemma DisplayReadsBack(cents: int, currency: string)
    requires I64_MIN < cents <= I64_MAX
    ensures Displayed(MoneyText(cents, currency)) == Cents(cents)
  {
    if cents >= 0 {
      StartsWithDigit(cents, currency);
      ParseFormatted(cents, currency);
    } else {
      NegativeText(cents, currency);
      assert ("-" + MoneyText(-cents, currency))[1..] == MoneyText(-cents, currency);
      ParseFormatted(-cents, currency);
    }
  }

  /** The least i64 wraps back to itself and prints its sign three times: before the
      text, before the units and before the cents. */
  lemma LeastText(currency: string)
    ensures MoneyText(I64_MIN, currency)
         == "-" + Grouped("-" + Decimal(92233720368547758)) + "." + "-8" + " " + currency
  {
    assert TruncDiv(I64_MIN, 100) == -92233720368547758 && TruncRem(I64_MIN, 100) == -8;
    assert TwoPlaces(-8) == "-8";
  }
}
