/** Tenant slugs: `is_valid_slug`, the form's `validate_slug`, the schema pattern, and `slugify`. */
module Slugs {
  import opened Text
  import Calendar

  predicate IsLower(c: char) {
    'a' <= c <= 'z'
  }

  predicate IsUpper(c: char) {
    'A' <= c <= 'Z'
  }

  predicate IsAlnum(c: char) {
    IsLower(c) || IsUpper(c) || IsDigit(c)
  }

  function ToLower(c: char): char {
    if IsUpper(c) then ((c as int) + 32) as char else c
  }

  /** Letters of a slug after the first. */
  predicate IsSlugChar(c: char) {
    IsLower(c) || IsDigit(c) || c == '_'
  }

  // ---------- UTF-8 ----------

  function CharBytes(c: char): (b: seq<int>)
    ensures 1 <= |b| <= 4
    ensures c as int < 0x80 ==> b == [c as int]
    ensures c as int >= 0x80 ==> |b| > 1 && forall i :: 0 <= i < |b| ==> 0x80 <= b[i] < 0x100
  {
    var v := c as int;
    if v < 0x80 then [v]
    else if v < 0x800 then [0xC0 + v / 64, 0x80 + v % 64]
    else if v < 0x10000 then [0xE0 + v / 4096, 0x80 + v / 64 % 64, 0x80 + v % 64]
    else [0xF0 + v / 262144, 0x80 + v / 4096 % 64, 0x80 + v / 64 % 64, 0x80 + v % 64]
  }

  predicate Continuation(b: int) {
    0x80 <= b < 0xC0
  }

  /** The bits behind a leading byte, six a byte. */
  lemma SixBits(v: int)
    requires v >= 0
    ensures v == v / 64 * 64 + v % 64
    ensures v / 64 == v / 4096 * 64 + v / 64 % 64
    ensures v / 4096 == v / 262144 * 64 + v / 4096 % 64
  {
    NestedQuotient(v, 64);
    NestedQuotient(v, 4096);
  }

  lemma NestedQuotient(v: int, k: int)
    requires v >= 0 && (k == 64 || k == 4096)
    ensures v / k / 64 == v / (64 * k)
  {
    var q, r := v / k / 64, v / k % 64;
    assert v == k * (64 * q + r) + v % k;
    assert 0 <= k * r + v % k < 64 * k;
    Calendar.QuotientIs(v, 64 * k, q, k * r + v % k);
  }

  /** The UTF-8 forms: which characters take how many bytes, and how the bytes make up the character. */
  lemma CharBytesExactly(c: char)
    ensures var v, b := c as int, CharBytes(c);
            |b| == (if v < 0x80 then 1 else if v < 0x800 then 2 else if v < 0x10000 then 3 else 4)
            && (forall i :: 1 <= i < |b| ==> Continuation(b[i]))
            && v == if |b| == 1 then b[0]
                    else if |b| == 2 then (b[0] - 0xC0) * 64 + (b[1] - 0x80)
                    else if |b| == 3 then ((b[0] - 0xE0) * 64 + (b[1] - 0x80)) * 64 + (b[2] - 0x80)
                    else (((b[0] - 0xF0) * 64 + (b[1] - 0x80)) * 64 + (b[2] - 0x80)) * 64 + (b[3] - 0x80)
  {
    SixBits(c as int);
  }

  /** `s.as_bytes()` */
  function Bytes(s: string): (b: seq<int>)
    ensures |b| >= |s|
  {
    if s == "" then [] else CharBytes(s[0]) + Bytes(s[1..])
  }

  lemma {:induction false} AsciiBytes(s: string)
    requires forall i :: 0 <= i < |s| ==> s[i] as int < 0x80
    ensures |Bytes(s)| == |s| && forall i :: 0 <= i < |s| ==> Bytes(s)[i] == s[i] as int
  {
    if s != "" {
      AsciiBytes(s[1..]);
    }
  }

  /** A string whose bytes are all ASCII consists of ASCII characters. */
  lemma {:induction false} OnlyAsciiBytes(s: string)
    requires forall i :: 0 <= i < |Bytes(s)| ==> Bytes(s)[i] < 0x80
    ensures forall i :: 0 <= i < |s| ==> s[i] as int < 0x80
  {
    if s != "" {
      var head, tail := CharBytes(s[0]), Bytes(s[1..]);
      assert Bytes(s)[0] == head[0];
      forall i | 0 <= i < |tail| ensures tail[i] < 0x80 {
        assert Bytes(s)[|head| + i] == tail[i];
      }
      OnlyAsciiBytes(s[1..]);
      assert s == [s[0]] + s[1..];
    }
  }

  // ---------- the three validators ----------

  /** `^[a-z][a-z0-9_]{2,40}$` */
  predicate MatchesSlugPattern(s: string) {
    3 <= |s| <= 41 && IsLower(s[0]) && forall i :: 1 <= i < |s| ==> IsSlugChar(s[i])
  }

  /** `is_valid_slug`: byte length first, then characters. */
  predicate IsValidSlug(s: string) {
    3 <= |Bytes(s)| <= 41 && s != "" && IsLower(s[0]) && forall i :: 1 <= i < |s| ==> IsSlugChar(s[i])
  }

  datatype SlugIssue = Required | TooShort | TooLong | BadStart | BadCharacter

  predicate LowerByte(b: int) {
    'a' as int <= b <= 'z' as int
  }

  predicate SlugByte(b: int) {
    LowerByte(b) || '0' as int <= b <= '9' as int || b == '_' as int
  }

  /** `validate_slug`, on bytes throughout. */
  function ValidateSlug(s: string): Option<SlugIssue> {
    var bytes := Bytes(s);
    if s == "" then Some(Required)
    else if |bytes| < 3 then Some(TooShort)
    else if |bytes| > 41 then Some(TooLong)
    else if !LowerByte(bytes[0]) then Some(BadStart)
    else if !(forall i :: 0 <= i < |bytes| ==> SlugByte(bytes[i])) then Some(BadCharacter)
    else None
  }

  /** The server, the form and the schema accept the same strings. */
  lemma ValidatorsAgree(s: string)
    ensures IsValidSlug(s) <==> MatchesSlugPattern(s)
    ensures ValidateSlug(s) == None <==> MatchesSlugPattern(s)
  {
    var bytes := Bytes(s);
    if MatchesSlugPattern(s) || IsValidSlug(s) {
      AsciiBytes(s);
      forall i | 0 <= i < |bytes| ensures SlugByte(bytes[i]) {
        assert IsSlugChar(s[i]);
      }
    }
    if ValidateSlug(s) == None {
      OnlyAsciiBytes(s);
      AsciiBytes(s);
      forall i | 0 <= i < |s| ensures IsSlugChar(s[i]) {
        assert SlugByte(bytes[i]);
      }
    }
  }

  // ---------- slugify ----------

  predicate AreWords(words: seq<string>) {
    forall i :: 0 <= i < |words| ==> words[i] != "" && IsWord(words[i])
  }

  predicate IsWord(s: string) {
    forall i :: 0 <= i < |s| ==> IsLower(s[i]) || IsDigit(s[i])
  }

  /** The maximal runs of ASCII letters and digits of a name, lower-cased. */
  function Words(name: string): (w: seq<string>)
    ensures AreWords(w)
    ensures name != "" && IsAlnum(name[|name| - 1]) ==> w != []
  {
    if name == "" then []
    else
      var n := |name| - 1;
      var before, c := Words(name[..n]), ToLower(name[n]);
      if !IsAlnum(name[n]) then before
      else if n > 0 && IsAlnum(name[n - 1]) then before[..|before| - 1] + [before[|before| - 1] + [c]]
      else before + [[c]]
  }

  function Joined(words: seq<string>): string {
    if words == [] then ""
    else if |words| == 1 then words[0]
    else Joined(words[..|words| - 1]) + "_" + words[|words| - 1]
  }

  predicate NoDoubledUnderscore(s: string) {
    forall i :: 0 < i < |s| ==> !(s[i - 1] == '_' && s[i] == '_')
  }

  /** Only slug characters, no two underscores touch, and the last character is none. */
  predicate Tidy(s: string) {
    (forall i :: 0 <= i < |s| ==> IsSlugChar(s[i]))
    && NoDoubledUnderscore(s)
    && (s != "" ==> s[|s| - 1] != '_')
  }

  lemma {:induction false} JoinedTidy(words: seq<string>)
    requires AreWords(words)
    ensures Tidy(Joined(words)) && (words != [] ==> Joined(words) != "")
  {
    if |words| > 1 {
      JoinedTidy(words[..|words| - 1]);
    }
  }

  function DropUntilLower(s: string): (r: string)
    ensures r == "" || IsLower(r[0])
    ensures |r| <= |s| && r == s[|s| - |r|..] && forall i :: 0 <= i < |s| - |r| ==> !IsLower(s[i])
  {
    if s == "" || IsLower(s[0]) then s else DropUntilLower(s[1..])
  }

  function Take(s: string, n: nat): string {
    if |s| <= n then s else s[..n]
  }

  /** What `slugify` means: the words joined by single underscores, from the first letter on, at most 41 long. */
  function Slug(name: string): string {
    Take(DropUntilLower(Joined(Words(name))), 41)
  }

  /** What the loop has pushed after `k` characters: the words so far, and an underscore if a separator
      came after the last of them. */
  predicate Pushed(name: string, k: nat, out: string, prevUnderscore: bool)
    requires k <= |name|
  {
    var words := Words(name[..k]);
    (prevUnderscore <==> k > 0 && !IsAlnum(name[k - 1]) && words != [])
    && out == (if prevUnderscore then Joined(words) + "_" else Joined(words))
    && (out == "" <==> words == [])
  }

  lemma PushLetter(name: string, k: nat, out: string, prevUnderscore: bool)
    requires k < |name| && Pushed(name, k, out, prevUnderscore) && IsAlnum(name[k])
    ensures Pushed(name, k + 1, out + [ToLower(name[k])], false)
  {
    WordsStep(name, k);
    var before := Words(name[..k]);
    assert Joined(before) + "" == Joined(before);
    assert k > 0 && before == [] ==> !IsAlnum(name[k - 1]) by { WordsUnfold(name, k); }
  }

  lemma PushSeparator(name: string, k: nat, out: string, prevUnderscore: bool)
    requires k < |name| && Pushed(name, k, out, prevUnderscore) && !IsAlnum(name[k])
    ensures if !prevUnderscore && out != "" then Pushed(name, k + 1, out + "_", true)
            else Pushed(name, k + 1, out, prevUnderscore)
  {
    WordsStep(name, k);
  }

  method Slugify(name: string) returns (r: string)
    ensures r == Slug(name)
  {
    var out := "";
    var prevUnderscore := false;
    for k := 0 to |name|
      invariant Pushed(name, k, out, prevUnderscore)
    {
      var c := name[k];
      if IsAlnum(c) {
        PushLetter(name, k, out, prevUnderscore);
        out := out + [ToLower(c)];
        prevUnderscore := false;
      } else {
        PushSeparator(name, k, out, prevUnderscore);
        if !prevUnderscore && out != "" {
          out := out + "_";
          prevUnderscore := true;
        }
      }
    }
    assert name[..|name|] == name;
    ghost var joined := Joined(Words(name));
    JoinedTidy(Words(name));
    while out != "" && out[|out| - 1] == '_'
      invariant out == joined || out == joined + "_"
      decreases |out|
    {
      assert out == joined + "_";
      out := out[..|out| - 1];
    }
    r := Take(DropUntilLower(out), 41);
  }

  lemma JoinedSnoc(words: seq<string>, w: string)
    ensures Joined(words + [w]) == if words == [] then w else Joined(words) + "_" + w
  {
    assert (words + [w])[..|words|] == words;
  }

  lemma JoinedExtendLast(words: seq<string>, w: string, c: string)
    ensures Joined(words + [w + c]) == Joined(words + [w]) + c
  {
    JoinedSnoc(words, w);
    JoinedSnoc(words, w + c);
    Associative(Joined(words) + "_", w, c);
  }

  lemma WordsUnfold(name: string, k: nat)
    requires k < |name|
    ensures var before, c := Words(name[..k]), ToLower(name[k]);
            Words(name[..k + 1])
            == if !IsAlnum(name[k]) then before
               else if k > 0 && IsAlnum(name[k - 1]) then before[..|before| - 1] + [before[|before| - 1] + [c]]
               else before + [[c]]
    ensures k > 0 && IsAlnum(name[k - 1]) ==> Words(name[..k]) != []
  {
    var p := name[..k + 1];
    assert p[..k] == name[..k];
    if k > 0 {
      assert p[k - 1] == name[..k][k - 1] == name[k - 1];
    }
  }

  /** One more character: it extends the last word, starts a word, or changes nothing. */
  lemma WordsStep(name: string, k: nat)
    requires k < |name|
    ensures var before, after := Words(name[..k]), Words(name[..k + 1]);
            var c := [ToLower(name[k])];
            if !IsAlnum(name[k]) then after == before
            else
              after != []
              && Joined(after) == Joined(before) + (if before != [] && !IsAlnum(name[k - 1]) then "_" else "") + c
  {
    WordsUnfold(name, k);
    var before, c := Words(name[..k]), [ToLower(name[k])];
    if IsAlnum(name[k]) {
      if k > 0 && IsAlnum(name[k - 1]) {
        var n := |before| - 1;
        assert before == before[..n] + [before[n]];
        JoinedExtendLast(before[..n], before[n], c);
        assert Joined(before) + "" == Joined(before);
      } else {
        JoinedSnoc(before, c);
        assert before == [] ==> Joined(before) + "" + c == c;
      }
    }
  }

  lemma {:induction false} DropKeepsTidy(s: string)
    requires Tidy(s)
    ensures Tidy(DropUntilLower(s))
  {
    if s != "" && !IsLower(s[0]) {
      var t := s[1..];
      assert forall i :: 0 <= i < |t| ==> t[i] == s[i + 1];
      DropKeepsTidy(t);
    }
  }

  lemma TakeShape(d: string)
    requires Tidy(d) && (d == "" || IsLower(d[0]))
    ensures var t := Take(d, 41);
            (|t| < 3 || MatchesSlugPattern(t)) && NoDoubledUnderscore(t)
  {
    var t := Take(d, 41);
    assert forall i :: 0 <= i < |t| ==> t[i] == d[i];
  }

  lemma JoinedShape(words: seq<string>)
    requires AreWords(words)
    ensures var t := Take(DropUntilLower(Joined(words)), 41);
            (|t| < 3 || MatchesSlugPattern(t)) && NoDoubledUnderscore(t)
  {
    JoinedTidy(words);
    DropKeepsTidy(Joined(words));
    TakeShape(DropUntilLower(Joined(words)));
  }

  /** Every proposed slug is too short or accepted everywhere, and never doubles an underscore. */
  lemma SlugShape(name: string)
    ensures |Slug(name)| < 3 || MatchesSlugPattern(Slug(name))
    ensures NoDoubledUnderscore(Slug(name))
  {
    JoinedShape(Words(name));
  }

  // ---------- what slugify keeps ----------

  /** The part of a text before a trailing underscore. */
  function Core(s: string): string {
    if s != "" && s[|s| - 1] == '_' then s[..|s| - 1] else s
  }

  /** Slug characters, beginning with none but a letter or digit, and no two underscores together. */
  predicate Spaced(s: string) {
    (forall i :: 0 <= i < |s| ==> IsSlugChar(s[i])) && NoDoubledUnderscore(s) && (s != "" ==> s[0] != '_')
  }

  predicate WordsAreCore(prefix: string) {
    Joined(Words(prefix)) == Core(prefix) && (Words(prefix) == [] <==> prefix == "")
  }

  lemma {:induction false} PrefixWords(s: string, k: nat)
    requires k <= |s| && Spaced(s)
    ensures WordsAreCore(s[..k])
  {
    if k > 0 {
      PrefixWords(s, k - 1);
      if s[k - 1] == '_' {
        UnderscoreNext(s, k);
      } else {
        LetterNext(s, k);
      }
    }
  }

  lemma UnderscoreNext(s: string, k: nat)
    requires 0 < k <= |s| && Spaced(s) && s[k - 1] == '_' && WordsAreCore(s[..k - 1])
    ensures WordsAreCore(s[..k])
  {
    WordsStep(s, k - 1);
    assert s[..k] == s[..k - 1] + ['_'];
    assert s[..k - 1][k - 2] == s[k - 2] != '_';
  }

  lemma LetterNext(s: string, k: nat)
    requires 0 < k <= |s| && Spaced(s) && s[k - 1] != '_' && WordsAreCore(s[..k - 1])
    ensures WordsAreCore(s[..k])
  {
    assert IsSlugChar(s[k - 1]);
    assert IsAlnum(s[k - 1]) && ToLower(s[k - 1]) == s[k - 1];
    WordsStep(s, k - 1);
    PrefixLetter(s, k);
  }

  /** A letter or digit behind a prefix whose words are known. */
  lemma PrefixLetter(s: string, k: nat)
    requires 0 < k <= |s| && (forall i :: 0 <= i < |s| ==> IsSlugChar(s[i])) && s[k - 1] != '_'
    ensures var before := s[..k - 1];
            Core(s[..k]) == Core(before) + (if k > 1 && s[k - 2] == '_' then "_" else "") + [s[k - 1]]
    ensures k > 1 ==> (s[k - 2] == '_' <==> !IsAlnum(s[k - 2]))
  {
    var before := s[..k - 1];
    assert s[..k] == before + [s[k - 1]];
    if k > 1 && s[k - 2] == '_' {
      assert before == before[..k - 2] + "_";
    } else {
      assert before + "" == before;
    }
  }

  /** A valid slug without doubled or trailing underscores, up to the full 41 characters, is its own proposal. */
  lemma SlugOfSlug(s: string)
    requires MatchesSlugPattern(s) && NoDoubledUnderscore(s) && s[|s| - 1] != '_'
    ensures Slug(s) == s
  {
    assert Spaced(s);
    PrefixWords(s, |s|);
    assert s[..|s|] == s;
  }

  function Lowered(name: string): (r: string)
    ensures |r| == |name| && forall i :: 0 <= i < |r| ==> r[i] == ToLower(name[i])
  {
    seq(|name|, i requires 0 <= i < |name| => ToLower(name[i]))
  }

  lemma LoweredLetter(c: char)
    ensures IsAlnum(ToLower(c)) <==> IsAlnum(c)
    ensures ToLower(ToLower(c)) == ToLower(c)
  {
  }

  lemma {:induction false} LoweredWords(name: string)
    ensures Words(Lowered(name)) == Words(name)
  {
    if name != "" {
      var n := |name| - 1;
      assert Lowered(name)[..n] == Lowered(name[..n]);
      LoweredWords(name[..n]);
      LoweredLetter(name[n]);
      if n > 0 { LoweredLetter(name[n - 1]); }
    }
  }

  /** Capitals make no difference. */
  lemma SlugIgnoresCase(name: string)
    ensures Slug(Lowered(name)) == Slug(name)
  {
    LoweredWords(name);
  }

  /** Which characters separate words makes no difference either: each may as well be a blank. */
  function Blanked(name: string): (r: string)
    ensures |r| == |name| && forall i :: 0 <= i < |r| ==> r[i] == if IsAlnum(name[i]) then name[i] else ' '
  {
    seq(|name|, i requires 0 <= i < |name| => if IsAlnum(name[i]) then name[i] else ' ')
  }

  lemma {:induction false} BlankedWords(name: string)
    ensures Words(Blanked(name)) == Words(name)
  {
    if name != "" {
      var n := |name| - 1;
      assert Blanked(name)[..n] == Blanked(name[..n]);
      BlankedWords(name[..n]);
    }
  }

  lemma SlugIgnoresSeparators(name: string)
    ensures Slug(Blanked(name)) == Slug(name)
  {
    BlankedWords(name);
  }

  /** Which issue the form reports. */
  lemma IssueExactly(s: string)
    ensures ValidateSlug(s) == Some(Required) <==> s == ""
    ensures ValidateSlug(s) == Some(TooShort) <==> s != "" && |Bytes(s)| < 3
    ensures ValidateSlug(s) == Some(TooLong) <==> |Bytes(s)| > 41
    ensures ValidateSlug(s) == Some(BadStart) <==> 3 <= |Bytes(s)| <= 41 && s != "" && !('a' <= s[0] <= 'z')
  {
    if s != "" {
      assert Bytes(s)[0] == CharBytes(s[0])[0];
    }
  }
}
