/** The text channel between the schema events and the client: `map_db_error`. */
module ErrorChannel {
  import opened Text
  import opened Periods
  import opened TenantLedger
  import opened TenantRuns

  datatype Mapped =
    | PeriodLocked(period: string)
    | DuesCapExceeded(paid: int, dues: int)
    | CarryForwardExists
    | Db(message: string)

  // ---------- str methods ----------

  /** `s.split_once(tag)` for a string: the parts around its first occurrence. */
  function SplitOnce(s: string, tag: string): Option<(string, string)> {
    if tag <= s then Some(("", s[|tag|..]))
    else if s == "" then None
    else
      match SplitOnce(s[1..], tag)
      case None => None
      case Some(p) => Some(([s[0]] + p.0, p.1))
  }

  predicate Contains(s: string, tag: string) {
    SplitOnce(s, tag).Some?
  }

  /** The ASCII part of `char::is_whitespace`. */
  predicate IsSpace(c: char) {
    c == ' ' || '\t' <= c <= '\r'
  }

  function TrimStart(s: string): string {
    if s != "" && IsSpace(s[0]) then TrimStart(s[1..]) else s
  }

  function TrimEnd(s: string): string {
    if s != "" && IsSpace(s[|s| - 1]) then TrimEnd(s[..|s| - 1]) else s
  }

  function Trim(s: string): string {
    TrimEnd(TrimStart(s))
  }

  /** `s.split(c).next()` */
  function FirstPart(s: string, c: char): string {
    match SplitAt(s, c)
    case Some(p) => p.0
    case None => s
  }

  /** The second item of `s.split(c)`, if any. */
  function SecondPart(s: string, c: char): Option<string> {
    match SplitAt(s, c)
    case Some(p) => Some(FirstPart(p.1, c))
    case None => None
  }

  function ParseOrZero(s: string): int {
    match ParseInt(s, I64_MIN, I64_MAX)
    case Some(n) => n
    case None => 0
  }

  const LOCK_TAG := "period_locked:"
  const CAP_TAG := "dues_cap_exceeded:"
  const SEED_TAG := "carry_forward_immutable"
  const SEED_DUPLICATE := "Database record `carry_forward:current` already exists"

  function MapDbError(msg: string): Mapped {
    match SplitOnce(msg, LOCK_TAG)
    case Some(p) => PeriodLocked(Trim(FirstPart(p.1, '<')))
    case None =>
      match SplitOnce(msg, CAP_TAG)
      case Some(p) =>
        DuesCapExceeded(
          ParseOrZero(Trim(FirstPart(p.1, '>'))),
          match SecondPart(p.1, '>') case Some(d) => ParseOrZero(Trim(d)) case None => 0)
      case None =>
        if Contains(msg, SEED_TAG) || Contains(msg, SEED_DUPLICATE) then CarryForwardExists else Db(msg)
  }

  // ---------- finding the tag ----------

  /** A tag that ends in a colon, its only one, is found where it was put. */
  predicate IsTag(tag: string) {
    |tag| > 0 && tag[|tag| - 1] == ':' && forall i :: 0 <= i < |tag| - 1 ==> tag[i] != ':'
  }

  lemma TagInsidePrefix(prefix: string, tag: string, rest: string)
    requires IsTag(tag) && prefix != ""
    ensures tag <= prefix + tag + rest ==> tag <= prefix
  {
    var s := prefix + tag + rest;
    var n := |tag| - 1;
    if |prefix| <= n {
      assert s[n] == tag[n - |prefix|];
    } else {
      assert prefix[..n + 1] == s[..n + 1];
    }
  }

  lemma {:induction false} SplitOnceAt(prefix: string, tag: string, rest: string)
    requires IsTag(tag) && !Contains(prefix, tag)
    ensures SplitOnce(prefix + tag + rest, tag) == Some((prefix, rest))
  {
    var s := prefix + tag + rest;
    if prefix == "" {
      assert s == tag + rest && s[|tag|..] == rest;
    } else {
      TagInsidePrefix(prefix, tag, rest);
      assert s[1..] == prefix[1..] + tag + rest;
      SplitOnceAt(prefix[1..], tag, rest);
      assert [prefix[0]] + prefix[1..] == prefix;
    }
  }

  lemma {:induction false} ContainsWhereItIs(prefix: string, tag: string, rest: string)
    ensures Contains(prefix + tag + rest, tag)
  {
    var s := prefix + tag + rest;
    if prefix == "" {
      assert s == tag + rest;
    } else {
      assert s[1..] == prefix[1..] + tag + rest;
      ContainsWhereItIs(prefix[1..], tag, rest);
    }
  }

  /** Two tags that differ in the fourth character from the end. */
  predicate TellApart(tag: string, head: string) {
    IsTag(tag) && IsTag(head) && 4 <= |tag| <= |head| && head[|head| - 4] != tag[|tag| - 4]
  }

  /** A string whose only colon does not end the tag does not hold the tag. */
  lemma {:induction false} NoTagAtColon(s: string, tag: string, k: int)
    requires IsTag(tag) && 4 <= |tag|
    requires forall i :: 0 <= i < |s| && s[i] == ':' ==> i == k
    requires 3 <= k < |s| ==> s[k - 3] != tag[|tag| - 4]
    ensures !Contains(s, tag)
    decreases |s|
  {
    var n := |tag| - 1;
    if |s| > n && s[n] == ':' {
      assert k == n && s[n - 3] != tag[n - 3];
    }
    if s != "" {
      NoTagAtColon(s[1..], tag, k - 1);
    }
  }

  /** A tag is not found in a message built from another tag, if the message's prefix is free of it. */
  lemma {:induction false} NoTagBefore(prefix: string, head: string, rest: string, tag: string)
    requires TellApart(tag, head) && ':' !in rest && !Contains(prefix, tag)
    ensures !Contains(prefix + head + rest, tag)
  {
    var s := prefix + head + rest;
    if prefix == "" {
      assert s == head + rest;
      NoTagAtColon(s, tag, |head| - 1);
    } else {
      var n := |tag| - 1;
      if |prefix| <= n {
        assert s[n] == head[n - |prefix|];
      } else {
        assert prefix[..n + 1] == s[..n + 1];
      }
      assert s[1..] == prefix[1..] + head + rest;
      NoTagBefore(prefix[1..], head, rest, tag);
    }
  }

  // ---------- trimming ----------

  /** No white space at either end. */
  predicate Bare(s: string) {
    s != "" && !IsSpace(s[0]) && !IsSpace(s[|s| - 1])
  }

  lemma TrimPadded(s: string)
    requires Bare(s)
    ensures Trim(" " + s) == s && Trim(" " + s + " ") == s && Trim(s) == s
  {
    assert (" " + s)[1..] == s;
    assert (" " + s + " ")[1..] == s + " ";
    assert (s + " ")[..|s|] == s;
    assert TrimStart(s) == s && TrimEnd(s) == s;
    assert TrimStart(" " + s) == TrimStart(s);
    assert TrimStart(" " + s + " ") == TrimStart(s + " ") == s + " ";
    assert TrimEnd(s + " ") == TrimEnd(s);
  }

  lemma PeriodsAreBare(s: string)
    requires MatchesSchema(s)
    ensures Bare(s) && '<' !in s && ':' !in s
  {
    var y := s[..4];
    assert s[0] == y[0] && s[1] == y[1] && s[2] == y[2] && s[3] == y[3];
    assert IsDigit(y[0]) && IsDigit(y[1]) && IsDigit(y[2]) && IsDigit(y[3]);
    assert |s| > 4 ==> s[4] == '-';
    assert |s| > 5 ==> IsDigit(s[|s| - 1]) && IsDigit(s[|s| - 2]) && (s[5] == 'W' || IsDigit(s[5]));
    forall i | 0 <= i < |s| ensures s[i] != '<' && s[i] != ':' && !IsSpace(s[i]) {
      assert i == 0 || i == 1 || i == 2 || i == 3 || i == 4 || i == 5 || i == |s| - 1 || i == |s| - 2;
    }
  }

  // ---------- round trips ----------

  /** The refused period comes back exactly from the create/update lock throw. */
  lemma LockRoundTrip(prefix: string, period: string, current: string)
    requires !Contains(prefix, LOCK_TAG) && MatchesSchema(period)
    ensures MapDbError(prefix + LockMessage(period, current)) == PeriodLocked(period)
  {
    PeriodsAreBare(period);
    var rest := " " + period + " < " + current;
    assert prefix + LockMessage(period, current) == prefix + LOCK_TAG + rest;
    SplitOnceAt(prefix, LOCK_TAG, rest);
    assert rest == (" " + period + " ") + ['<'] + (" " + current);
    SplitAtFirst(" " + period + " ", '<', " " + current);
    TrimPadded(period);
  }

  lemma DecimalsAreBare(n: nat)
    ensures Bare(Decimal(n)) && '>' !in Decimal(n) && ':' !in Decimal(n)
    ensures n <= I64_MAX ==> ParseOrZero(Decimal(n)) == n
  {
    var d := Decimal(n);
    assert IsDigit(d[0]) && IsDigit(d[|d| - 1]);
    forall i | 0 <= i < |d| ensures d[i] != '>' && d[i] != ':' {
      assert IsDigit(d[i]);
    }
    ParseDigits(d, I64_MIN, I64_MAX);
  }

  /** Both numbers are read back from the text behind the cap tag. */
  lemma NumbersRead(p: string, d: string)
    requires Bare(p) && Bare(d) && '>' !in p && '>' !in d
    ensures var rest := " " + p + " > " + d;
            Trim(FirstPart(rest, '>')) == p && SecondPart(rest, '>').Some? && Trim(SecondPart(rest, '>').value) == d
  {
    var rest := " " + p + " > " + d;
    assert rest == (" " + p + " ") + ['>'] + (" " + d);
    SplitAtFirst(" " + p + " ", '>', " " + d);
    assert '>' !in " " + d;
    TrimPadded(p);
    TrimPadded(d);
  }

  lemma CapTagFound(prefix: string, rest: string)
    requires !Contains(prefix, LOCK_TAG) && !Contains(prefix, CAP_TAG) && ':' !in rest
    ensures var m := prefix + CAP_TAG + rest;
            SplitOnce(m, LOCK_TAG).None? && SplitOnce(m, CAP_TAG) == Some((prefix, rest))
  {
    NoTagBefore(prefix, CAP_TAG, rest, LOCK_TAG);
    SplitOnceAt(prefix, CAP_TAG, rest);
  }

  lemma CapMessageShape(prefix: string, paid: nat, dues: nat)
    ensures prefix + CapMessage(paid, dues) == prefix + CAP_TAG + (" " + Decimal(paid) + " > " + Decimal(dues))
  {
    assert "dues_cap_exceeded: " == CAP_TAG + " ";
  }

  lemma CapTextRead(prefix: string, rest: string, p: string, d: string)
    requires !Contains(prefix, LOCK_TAG) && !Contains(prefix, CAP_TAG) && ':' !in rest
    requires Trim(FirstPart(rest, '>')) == p && SecondPart(rest, '>').Some? && Trim(SecondPart(rest, '>').value) == d
    ensures MapDbError(prefix + CAP_TAG + rest) == DuesCapExceeded(ParseOrZero(p), ParseOrZero(d))
  {
    CapTagFound(prefix, rest);
  }

  /** The post-write sum and the cap come back exactly from the dues-cap throw. */
  lemma CapRoundTrip(prefix: string, paid: int, dues: int)
    requires !Contains(prefix, LOCK_TAG) && !Contains(prefix, CAP_TAG)
    requires 0 < dues < paid <= I64_MAX
    ensures MapDbError(prefix + CapMessage(paid, dues)) == DuesCapExceeded(paid, dues)
  {
    DecimalsAreBare(paid);
    DecimalsAreBare(dues);
    var p, d := Decimal(paid), Decimal(dues);
    NumbersRead(p, d);
    CapTextRead(prefix, " " + p + " > " + d, p, d);
    CapMessageShape(prefix, paid, dues);
  }

  lemma SeedHeadDiffers()
    ensures TellApart(LOCK_TAG, SEED_HEAD) && TellApart(CAP_TAG, SEED_HEAD) && SEED_HEAD == SEED_TAG + ":"
  {
  }

  lemma SeedTextPlain()
    ensures ':' !in SEED_RULE + SEED_REASON
  {
    assert ':' !in SEED_RULE && ':' !in SEED_REASON;
  }

  lemma SeedTagFound(prefix: string, text: string)
    requires !Contains(prefix, LOCK_TAG) && !Contains(prefix, CAP_TAG) && ':' !in text
    ensures var m := prefix + SEED_HEAD + text;
            !Contains(m, LOCK_TAG) && !Contains(m, CAP_TAG) && Contains(m, SEED_TAG)
  {
    SeedHeadDiffers();
    NoTagBefore(prefix, SEED_HEAD, text, LOCK_TAG);
    NoTagBefore(prefix, SEED_HEAD, text, CAP_TAG);
    assert prefix + SEED_HEAD + text == prefix + SEED_TAG + (":" + text);
    ContainsWhereItIs(prefix, SEED_TAG, ":" + text);
  }

  lemma SeedMessageShape(prefix: string)
    ensures prefix + SEED_MESSAGE == prefix + SEED_HEAD + (SEED_RULE + SEED_REASON)
  {
    Associative(prefix, SEED_HEAD, SEED_RULE + SEED_REASON);
  }

  lemma SeedTextRead(message: string)
    requires !Contains(message, LOCK_TAG) && !Contains(message, CAP_TAG) && Contains(message, SEED_TAG)
    ensures MapDbError(message) == CarryForwardExists
  {
  }

  /** Overwriting or deleting the seed reads as `CarryForwardExists`. */
  lemma SeedRoundTrip(prefix: string)
    requires !Contains(prefix, LOCK_TAG) && !Contains(prefix, CAP_TAG)
    ensures MapDbError(prefix + SEED_MESSAGE) == CarryForwardExists
  {
    SeedTextPlain();
    SeedMessageShape(prefix);
    SeedTagFound(prefix, SEED_RULE + SEED_REASON);
    SeedTextRead(prefix + SEED_MESSAGE);
  }

  lemma NoBracketInWords(period: string)
    requires Bare(period) && '<' !in period
    ensures Bare(DELETE_WORDS + period)
            && FirstPart(" " + (DELETE_WORDS + period), '<') == " " + (DELETE_WORDS + period)
  {
    assert '<' !in DELETE_WORDS;
    assert '<' !in " " + (DELETE_WORDS + period);
  }

  lemma LockTextRead(prefix: string, rest: string)
    requires !Contains(prefix, LOCK_TAG)
    ensures MapDbError(prefix + LOCK_TAG + rest) == PeriodLocked(Trim(FirstPart(rest, '<')))
  {
    SplitOnceAt(prefix, LOCK_TAG, rest);
  }

  lemma DeleteMessageShape(prefix: string, period: string)
    ensures prefix + DeleteLockMessage(period) == prefix + LOCK_TAG + (" " + (DELETE_WORDS + period))
  {
    var text := DELETE_WORDS + period;
    assert "period_locked: " == LOCK_TAG + " ";
    Associative("period_locked: ", DELETE_WORDS, period);
    Associative(LOCK_TAG, " ", text);
    Associative(prefix, LOCK_TAG, " " + text);
  }

  /** The delete lock uses the same tag with other words behind it, and the parser takes those
      words for the period: a refused delete never reports the bare period. */
  lemma DeleteThrowMisread(prefix: string, period: string)
    requires !Contains(prefix, LOCK_TAG) && MatchesSchema(period)
    ensures MapDbError(prefix + DeleteLockMessage(period)) == PeriodLocked(DELETE_WORDS + period)
  {
    PeriodsAreBare(period);
    var text := DELETE_WORDS + period;
    DeleteMessageShape(prefix, period);
    NoBracketInWords(period);
    LockTextRead(prefix, " " + text);
    TrimPadded(text);
  }

  lemma WhyThrown(s: State, id: nat, w: Contribution, message: string)
    requires WriteVerdict(s, id, w) == Refused(Thrown(message))
    ensures MatchesSchema(w.period)
    ensures Locked(w, s.now) ==> message == LockMessage(w.period, CurrentPeriodFor(w.cadence, s.now))
    ensures !Locked(w, s.now) ==>
              var paid := Paid(s.rows[id := w], w.userEmail, w.period);
              message == CapMessage(paid, s.settings.duesAmountCents) && 0 < s.settings.duesAmountCents < paid
              && w.status != "rejected"
  {
  }

  lemma CapRefusalRead(prefix: string, s: State, id: nat, w: Contribution)
    requires !Contains(prefix, LOCK_TAG) && !Contains(prefix, CAP_TAG)
    requires id !in s.rows && w.status != "rejected"
    requires 0 < s.settings.duesAmountCents < Paid(s.rows[id := w], w.userEmail, w.period) <= I64_MAX
    ensures MapDbError(prefix + CapMessage(Paid(s.rows[id := w], w.userEmail, w.period), s.settings.duesAmountCents))
         == DuesCapExceeded(Paid(s.rows, w.userEmail, w.period) + w.amountCents, s.settings.duesAmountCents)
  {
    PaidAfterPut(s.rows, id, w, w.userEmail, w.period);
    CapRoundTrip(prefix, Paid(s.rows[id := w], w.userEmail, w.period), s.settings.duesAmountCents);
  }

  lemma WriteRefusalExplained(prefix: string, s: State, id: nat, w: Contribution, message: string)
    requires !Contains(prefix, LOCK_TAG) && !Contains(prefix, CAP_TAG)
    requires id !in s.rows && WriteVerdict(s, id, w) == Refused(Thrown(message))
    requires Paid(s.rows[id := w], w.userEmail, w.period) <= I64_MAX
    ensures MapDbError(prefix + message)
         == if Locked(w, s.now) then PeriodLocked(w.period)
            else DuesCapExceeded(Paid(s.rows, w.userEmail, w.period) + w.amountCents, s.settings.duesAmountCents)
  {
    WhyThrown(s, id, w, message);
    if Locked(w, s.now) {
      LockRoundTrip(prefix, w.period, CurrentPeriodFor(w.cadence, s.now));
    } else {
      CapRefusalRead(prefix, s, id, w);
    }
  }

  /** A payment an event refused reports, through the error text, exactly why: the locked period,
      or the sum it would have made and the dues that forbid it. */
  lemma RefusedPaymentExplained(prefix: string, s: State, id: nat, d: Draft, message: string)
    requires !Contains(prefix, LOCK_TAG) && !Contains(prefix, CAP_TAG)
    requires id !in s.rows && Verdict(s, CreateRow(id, d)) == Refused(Thrown(message))
    requires Paid(s.rows[id := d.Stored(s.now)], d.userEmail, d.period) <= I64_MAX
    ensures var w := d.Stored(s.now);
            MapDbError(prefix + message)
            == if Locked(w, s.now) then PeriodLocked(d.period)
               else DuesCapExceeded(Paid(s.rows, d.userEmail, d.period) + d.amountCents, s.settings.duesAmountCents)
  {
    CreateVerdict(s, id, d);
    WriteRefusalExplained(prefix, s, id, d.Stored(s.now), message);
  }

  /** Blank, tab, line feed, vertical tab, form feed, carriage return. */
  predicate White(c: char) {
    c == ' ' || c as int == 9 || c as int == 10 || c as int == 11 || c as int == 12 || c as int == 13
  }

  predicate AllWhite(s: string) {
    forall i :: 0 <= i < |s| ==> White(s[i])
  }

  lemma {:induction false} TrimStartDrops(before: string, rest: string)
    requires AllWhite(before) && rest != "" && !White(rest[0])
    ensures TrimStart(before + rest) == rest
  {
    if before == "" {
      assert before + rest == rest;
    } else {
      assert White(before[0]) && (before + rest)[1..] == before[1..] + rest;
      TrimStartDrops(before[1..], rest);
    }
  }

  lemma {:induction false} TrimEndDrops(core: string, after: string)
    requires AllWhite(after) && core != "" && !White(core[|core| - 1])
    ensures TrimEnd(core + after) == core
  {
    if after == "" {
      assert core + after == core;
    } else {
      var n := |after| - 1;
      assert White(after[n]) && (core + after)[..|core| + n] == core + after[..n];
      TrimEndDrops(core, after[..n]);
    }
  }

  /** White space at both ends goes, and nothing else. */
  lemma TrimExactly(before: string, core: string, after: string)
    requires AllWhite(before) && AllWhite(after)
    requires core != "" && !White(core[0]) && !White(core[|core| - 1])
    ensures Trim(before + core + after) == core
  {
    Associative(before, core, after);
    TrimStartDrops(before, core + after);
    TrimEndDrops(core, after);
  }

  /** A cap text without a second part, or with parts that are no numbers, reads as zeros. */
  lemma UnreadableCap(prefix: string, p: string, d: string)
    requires !Contains(prefix, LOCK_TAG) && !Contains(prefix, CAP_TAG)
    requires ':' !in p && '>' !in p && ':' !in d && '>' !in d
    requires ParseInt(Trim(p), I64_MIN, I64_MAX).None? && ParseInt(Trim(d), I64_MIN, I64_MAX).None?
    ensures MapDbError(prefix + CAP_TAG + p) == DuesCapExceeded(0, 0)
    ensures MapDbError(prefix + CAP_TAG + (p + ">" + d)) == DuesCapExceeded(0, 0)
  {
    CapTagFound(prefix, p);
    assert p + ">" + d == p + ['>'] + d;
    SplitAtFirst(p, '>', d);
    CapTagFound(prefix, p + ">" + d);
  }

  // ---------- which error a message becomes ----------

  /** The tag stands somewhere in the message. */
  ghost predicate Occurs(message: string, tag: string) {
    exists before, after :: message == before + tag + after
  }

  lemma {:induction false} SplitsAtOccurrence(s: string, tag: string)
    ensures SplitOnce(s, tag).Some? ==> s == SplitOnce(s, tag).value.0 + tag + SplitOnce(s, tag).value.1
  {
    if tag <= s {
      assert s == "" + tag + s[|tag|..];
    } else if s != "" && SplitOnce(s[1..], tag).Some? {
      SplitsAtOccurrence(s[1..], tag);
      var p := SplitOnce(s[1..], tag).value;
      assert s == [s[0]] + s[1..] == [s[0]] + p.0 + tag + p.1;
    }
  }

  lemma ContainsExactly(s: string, tag: string)
    ensures Contains(s, tag) <==> Occurs(s, tag)
  {
    if Contains(s, tag) {
      SplitsAtOccurrence(s, tag);
    }
    if Occurs(s, tag) {
      var before, after :| s == before + tag + after;
      ContainsWhereItIs(before, tag, after);
    }
  }

  /** A message with the lock's tag is a locked period; else one with the cap's tag an exceeded cap; else one that
      speaks of the immutable or the existing seed an existing carry-forward; and any other is passed on as it is. */
  lemma MappedExactly(message: string)
    ensures MapDbError(message).PeriodLocked? <==> Occurs(message, "period_locked:")
    ensures MapDbError(message).DuesCapExceeded?
            <==> !Occurs(message, "period_locked:") && Occurs(message, "dues_cap_exceeded:")
    ensures MapDbError(message) == CarryForwardExists
            <==> !Occurs(message, "period_locked:") && !Occurs(message, "dues_cap_exceeded:")
                 && (Occurs(message, "carry_forward_immutable")
                     || Occurs(message, "Database record `carry_forward:current` already exists"))
    ensures !Occurs(message, "period_locked:") && !Occurs(message, "dues_cap_exceeded:")
            && !Occurs(message, "carry_forward_immutable")
            && !Occurs(message, "Database record `carry_forward:current` already exists")
            ==> MapDbError(message) == Db(message)
  {
    ContainsExactly(message, LOCK_TAG);
    ContainsExactly(message, CAP_TAG);
    ContainsExactly(message, SEED_TAG);
    ContainsExactly(message, SEED_DUPLICATE);
  }
}
