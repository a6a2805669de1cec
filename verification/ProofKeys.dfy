/** Keys of stored payment proofs: `sanitize_email_frag` and the key format of `put`. */
module ProofKeys {
  import opened Text
  import opened Slugs

  /** The characters `sanitize_email_frag` keeps. */
  predicate Kept(c: char) {
    IsAlnum(c) || c == '.' || c == '_' || c == '-'
  }

  /** `local@domain` becomes `local_at_domain`. */
  function MergeAt(lower: string): string {
    match SplitAt(lower, '@')
    case Some(p) => p.0 + "_at_" + p.1
    case None => lower
  }

  /** What position `i` contributes: itself if kept, a dash if it opens a run of dropped characters. */
  function Piece(s: string, i: nat): string
    requires i < |s|
  {
    if Kept(s[i]) then [s[i]]
    else if i == 0 || Kept(s[i - 1]) then "-"
    else ""
  }

  function Dashed(s: string, n: nat): string
    requires n <= |s|
  {
    if n == 0 then "" else Dashed(s, n - 1) + Piece(s, n - 1)
  }

  function TrimDashStart(s: string): (r: string)
    ensures |r| <= |s| && r == s[|s| - |r|..] && forall i :: 0 <= i < |s| - |r| ==> s[i] == '-'
  {
    if s != "" && s[0] == '-' then TrimDashStart(s[1..]) else s
  }

  function TrimDashEnd(s: string): (r: string)
    ensures r <= s && forall i :: |r| <= i < |s| ==> s[i] == '-'
  {
    if s != "" && s[|s| - 1] == '-' then TrimDashEnd(s[..|s| - 1]) else s
  }

  /** The fragment of an email already lower-cased. */
  function Fragment(lower: string): string {
    var merged := MergeAt(lower);
    TrimDashEnd(TrimDashStart(Dashed(merged, |merged|)))
  }

  /** What is used of `to_lowercase`: no ASCII capital is left, and lower-case ASCII stays as it is. */
  ghost predicate IsLowercasing(toLowercase: string -> string) {
    (forall s :: NoUpper(toLowercase(s))) && forall s :: OnlyFragmentChars(s) ==> toLowercase(s) == s
  }

  /** `sanitize_email_frag`, with the library's `to_lowercase` as a parameter. The fragment holds only
      `[a-z0-9._-]`, has no dash at either end, and sanitizing it again changes nothing. */
  method SanitizeEmailFrag(email: string, toLowercase: string -> string) returns (r: string)
    ensures r == Fragment(toLowercase(email))
    ensures IsLowercasing(toLowercase) ==> IsFragment(r) && Fragment(toLowercase(r)) == r
  {
    var lower := toLowercase(email);
    var merged := MergeAt(lower);
    var out := "";
    var prevDash := false;
    for i := 0 to |merged|
      invariant out == Dashed(merged, i)
      invariant prevDash <==> i > 0 && !Kept(merged[i - 1])
    {
      var c := merged[i];
      if Kept(c) {
        out := out + [c];
        prevDash := false;
      } else if !prevDash {
        out := out + "-";
        prevDash := true;
      }
    }
    r := TrimDashEnd(TrimDashStart(out));
    if IsLowercasing(toLowercase) {
      SanitizedAgain(email, toLowercase);
    }
  }

  /** Only `[a-z0-9._-]`, and no dash at either end. */
  predicate IsFragment(f: string) {
    OnlyFragmentChars(f) && (f != "" ==> f[0] != '-' && f[|f| - 1] != '-')
  }

  lemma SanitizedAgain(email: string, toLowercase: string -> string)
    requires IsLowercasing(toLowercase)
    ensures var f := Fragment(toLowercase(email)); IsFragment(f) && Fragment(toLowercase(f)) == f
  {
    var lower := toLowercase(email);
    assert NoUpper(lower);
    FragmentShape(lower);
    FragmentIdempotent(lower);
  }

  // ---------- what a fragment looks like ----------

  predicate FragmentChar(c: char) {
    IsLower(c) || IsDigit(c) || c == '.' || c == '_' || c == '-'
  }

  /** What `to_lowercase` guarantees of ASCII letters. */
  predicate NoUpper(s: string) {
    forall i :: 0 <= i < |s| ==> !IsUpper(s[i])
  }

  predicate OnlyFragmentChars(s: string) {
    forall i :: 0 <= i < |s| ==> FragmentChar(s[i])
  }

  lemma {:induction false} DashedChars(s: string, n: nat)
    requires n <= |s| && NoUpper(s)
    ensures OnlyFragmentChars(Dashed(s, n))
  {
    if n > 0 {
      DashedChars(s, n - 1);
    }
  }

  lemma {:induction false} TrimStartShape(s: string)
    requires OnlyFragmentChars(s)
    ensures var t := TrimDashStart(s); OnlyFragmentChars(t) && (t != "" ==> t[0] != '-')
  {
    if s != "" && s[0] == '-' {
      TrimStartShape(s[1..]);
    }
  }

  lemma {:induction false} TrimEndShape(s: string)
    requires OnlyFragmentChars(s) && (s != "" ==> s[0] != '-')
    ensures var t := TrimDashEnd(s); OnlyFragmentChars(t) && (t != "" ==> t[0] != '-' && t[|t| - 1] != '-')
  {
    if s != "" && s[|s| - 1] == '-' {
      TrimEndShape(s[..|s| - 1]);
    }
  }

  /** A fragment holds only `[a-z0-9._-]` and has no dash at either end. */
  lemma FragmentShape(lower: string)
    requires NoUpper(lower)
    ensures IsFragment(Fragment(lower))
  {
    var merged := MergeAt(lower);
    assert NoUpper(merged) by {
      match SplitAt(lower, '@')
      case Some(p) =>
        forall i | 0 <= i < |merged| ensures !IsUpper(merged[i]) {
          if i < |p.0| {
            assert merged[i] == lower[i];
          } else if i >= |p.0| + 4 {
            assert merged[i] == lower[i - 3];
          } else {
            assert merged[i] == "_at_"[i - |p.0|];
          }
        }
      case None =>
    }
    DashedChars(merged, |merged|);
    TrimStartShape(Dashed(merged, |merged|));
    TrimEndShape(TrimDashStart(Dashed(merged, |merged|)));
  }

  lemma {:induction false} DashedKeeps(s: string, n: nat)
    requires n <= |s| && OnlyFragmentChars(s)
    ensures Dashed(s, n) == s[..n]
  {
    if n > 0 {
      DashedKeeps(s, n - 1);
      assert s[..n] == s[..n - 1] + [s[n - 1]];
    }
  }

  /** Sanitizing a fragment again changes nothing. */
  lemma FragmentIdempotent(lower: string)
    requires NoUpper(lower)
    ensures Fragment(Fragment(lower)) == Fragment(lower)
  {
    FragmentShape(lower);
    var f := Fragment(lower);
    assert '@' !in f;
    assert MergeAt(f) == f;
    DashedKeeps(f, |f|);
    assert f[..|f|] == f;
  }

  lemma MergeAtJoined(local: string, domain: string)
    requires '@' !in local
    ensures MergeAt(local + ['@'] + domain) == local + "_at_" + domain
  {
    SplitAtFirst(local, '@', domain);
  }

  lemma NothingToTrim(s: string)
    requires OnlyFragmentChars(s) && s != "" && s[0] != '-' && s[|s| - 1] != '-'
    ensures TrimDashEnd(TrimDashStart(Dashed(s, |s|))) == s
  {
    DashedKeeps(s, |s|);
    assert s[..|s|] == s;
  }

  /** An address of kept characters is not altered beyond its `@`: `local@domain` becomes `local_at_domain`. */
  lemma PlainEmailFragment(local: string, domain: string)
    requires OnlyFragmentChars(local) && OnlyFragmentChars(domain) && local != "" && domain != ""
    requires local[0] != '-' && domain[|domain| - 1] != '-'
    ensures Fragment(local + ['@'] + domain) == local + "_at_" + domain
  {
    assert '@' !in local by { assert forall i :: 0 <= i < |local| ==> FragmentChar(local[i]); }
    MergeAtJoined(local, domain);
    NothingToTrim(local + "_at_" + domain);
  }

  lemma {:induction false} DashedAppend(s: string, t: string, k: nat, n: nat)
    requires k <= |t| && n == |s| + k && (s == "" || t == "" || Kept(t[0]) || Kept(s[|s| - 1]))
    ensures Dashed(s + t, n) == Dashed(s, |s|) + Dashed(t, k)
    decreases k
  {
    if k == 0 {
      DashedPrefix(s, t, |s|);
    } else {
      DashedAppend(s, t, k - 1, n - 1);
      PieceBehind(s, t, k - 1);
      Associative(Dashed(s, |s|), Dashed(t, k - 1), Piece(t, k - 1));
    }
  }

  /** Behind another text a position contributes what it does on its own. */
  lemma PieceBehind(s: string, t: string, i: nat)
    requires i < |t| && (s == "" || Kept(t[0]) || Kept(s[|s| - 1]))
    ensures Piece(s + t, |s| + i) == Piece(t, i)
  {
    assert (s + t)[|s| + i] == t[i];
    if i > 0 {
      assert (s + t)[|s| + i - 1] == t[i - 1];
    }
  }

  lemma {:induction false} DashedPrefix(s: string, t: string, n: nat)
    requires n <= |s|
    ensures Dashed(s + t, n) == Dashed(s, n)
  {
    if n > 0 {
      DashedPrefix(s, t, n - 1);
      assert (s + t)[n - 1] == s[n - 1];
    }
  }

  lemma {:induction false} RunBecomesDash(x: string, n: nat)
    requires 0 < n <= |x| && forall i :: 0 <= i < |x| ==> !Kept(x[i])
    ensures Dashed(x, n) == "-"
  {
    if n > 1 {
      RunBecomesDash(x, n - 1);
    }
  }

  /** A run of dropped characters between kept ones becomes a single dash, however long it is. */
  lemma DroppedRun(a: string, x: string, b: string)
    requires OnlyFragmentChars(a) && OnlyFragmentChars(b) && a != "" && b != ""
    requires a[0] != '-' && b[|b| - 1] != '-'
    requires x != "" && forall i :: 0 <= i < |x| ==> !Kept(x[i]) && x[i] != '@'
    ensures Fragment(a + x + b) == a + "-" + b
  {
    DashedRun(a, x, b);
    NoAt(a, x, b);
    assert MergeAt(a + x + b) == a + x + b;
    NothingToTrim(a + "-" + b);
    DashedWhole(a + "-" + b);
  }

  lemma NoAt(a: string, x: string, b: string)
    requires OnlyFragmentChars(a) && OnlyFragmentChars(b) && forall i :: 0 <= i < |x| ==> x[i] != '@'
    ensures '@' !in a + x + b
  {
    assert forall i :: 0 <= i < |a| ==> FragmentChar(a[i]);
    assert forall i :: 0 <= i < |b| ==> FragmentChar(b[i]);
  }

  lemma DashedTogether(s: string, t: string)
    requires s != "" && t != "" && (Kept(t[0]) || Kept(s[|s| - 1]))
    ensures Dashed(s + t, |s + t|) == Dashed(s, |s|) + Dashed(t, |t|)
  {
    DashedAppend(s, t, |t|, |s + t|);
  }

  lemma DashedRun(a: string, x: string, b: string)
    requires OnlyFragmentChars(a) && OnlyFragmentChars(b) && a != "" && b != ""
    requires x != "" && forall i :: 0 <= i < |x| ==> !Kept(x[i])
    ensures Dashed(a + x + b, |a + x + b|) == a + "-" + b
  {
    assert FragmentChar(a[|a| - 1]) && FragmentChar(b[0]);
    DashedTogether(a + x, b);
    DashedTogether(a, x);
    DashedWhole(a);
    DashedWhole(b);
    RunBecomesDash(x, |x|);
  }

  lemma DashedWhole(s: string)
    requires OnlyFragmentChars(s)
    ensures Dashed(s, |s|) == s
  {
    DashedKeeps(s, |s|);
    assert s[..|s|] == s;
  }

  // ---------- keys ----------

  const PREFIX := "tenants"

  /** The prefix under which the gateway accepts a venture's keys: `tenants/{slug}/`. */
  function TenantPrefix(slug: string): string {
    Path(PREFIX, slug + "/")
  }

  function Path(segment: string, rest: string): string {
    segment + ['/'] + rest
  }

  /** `tenants/{slug}/{frag}/{id}.{ext}` */
  function ProofKey(slug: string, lower: string, id: string, ext: string): string {
    Path(PREFIX, Path(slug, Path(Fragment(lower), id + "." + ext)))
  }

  /** The prefix the gateway checks, and the key the store mints, written out. */
  lemma KeyText(slug: string, lower: string, id: string, ext: string)
    ensures TenantPrefix(slug) == "tenants" + "/" + (slug + "/")
    ensures ProofKey(slug, lower, id, ext)
         == "tenants" + "/" + (slug + "/" + (Fragment(lower) + "/" + (id + "." + ext)))
  {
  }

  lemma SlugsHaveNoSlash(slug: string)
    requires MatchesSlugPattern(slug)
    ensures '/' !in slug
  {
    forall i | 0 <= i < |slug| ensures slug[i] != '/' {
      assert i == 0 || IsSlugChar(slug[i]);
    }
  }

  lemma PrefixDecides(a: string, b: string, rest: string)
    requires '/' !in a && '/' !in b
    ensures (b + "/" <= Path(a, rest)) <==> a == b
  {
    var s := Path(a, rest);
    SplitAtFirst(a, '/', rest);
    if b + "/" <= s {
      var tail := s[|b| + 1..];
      assert s == b + ['/'] + tail;
      SplitAtFirst(b, '/', tail);
    }
  }

  lemma SharedHead(head: string, s: string, t: string)
    ensures head + s <= head + t <==> s <= t
  {
    if head + s <= head + t {
      assert t[..|s|] == (head + t)[|head|..|head| + |s|] == (head + s)[|head|..];
    }
    if s <= t {
      assert (head + t)[..|head + s|] == head + s;
    }
  }

  /** A key minted for venture `a` is accepted by the prefix check of venture `b` exactly when they are one. */
  lemma KeyBelongsToItsVenture(a: string, b: string, lower: string, id: string, ext: string)
    requires MatchesSlugPattern(a) && MatchesSlugPattern(b)
    ensures TenantPrefix(b) <= ProofKey(a, lower, id, ext) <==> a == b
  {
    SlugsHaveNoSlash(a);
    SlugsHaveNoSlash(b);
    var rest := Path(Fragment(lower), id + "." + ext);
    SharedHead(PREFIX + ['/'], b + "/", Path(a, rest));
    PrefixDecides(a, b, rest);
  }

  /** `s.split('/')` */
  function Segments(s: string): seq<string>
    decreases |s|
  {
    match SplitAt(s, '/')
    case Some(p) => [p.0] + Segments(p.1)
    case None => [s]
  }

  lemma SegmentsStep(a: string, rest: string)
    requires '/' !in a
    ensures Segments(Path(a, rest)) == [a] + Segments(rest)
  {
    SplitAtFirst(a, '/', rest);
  }

  lemma TwoSegments(c: string, d: string)
    requires '/' !in c && '/' !in d
    ensures Segments(Path(c, d)) == [c, d]
  {
    SegmentsStep(c, d);
    assert SplitAt(d, '/') == None;
  }

  lemma ThreeSegments(b: string, c: string, d: string, cd: string)
    requires '/' !in b && '/' !in c && '/' !in d && cd == Path(c, d)
    ensures Segments(Path(b, cd)) == [b, c, d]
  {
    TwoSegments(c, d);
    SegmentsStep(b, cd);
    assert [b] + [c, d] == [b, c, d];
  }

  lemma FourSegments(a: string, b: string, c: string, d: string, cd: string, bcd: string)
    requires '/' !in a && '/' !in b && '/' !in c && '/' !in d
    requires cd == Path(c, d) && bcd == Path(b, cd)
    ensures Segments(Path(a, bcd)) == [a, b, c, d]
  {
    ThreeSegments(b, c, d, cd);
    SegmentsStep(a, bcd);
    assert [a] + [b, c, d] == [a, b, c, d];
  }

  lemma FragmentHasNoSlash(lower: string)
    requires NoUpper(lower)
    ensures '/' !in Fragment(lower)
  {
    FragmentShape(lower);
    var f := Fragment(lower);
    forall i | 0 <= i < |f| ensures f[i] != '/' {
      assert FragmentChar(f[i]);
    }
  }

  lemma PrefixHasNoSlash()
    ensures '/' !in PREFIX
  {
  }

  lemma KeyOfParts(slug: string, fragment: string, file: string)
    requires '/' !in slug && '/' !in fragment && '/' !in file
    ensures Segments(Path(PREFIX, Path(slug, Path(fragment, file)))) == [PREFIX, slug, fragment, file]
  {
    PrefixHasNoSlash();
    FourSegments(PREFIX, slug, fragment, file, Path(fragment, file), Path(slug, Path(fragment, file)));
  }

  /** A key splits into exactly four segments: the prefix, the slug, the fragment and the file name. */
  lemma KeyHasFourSegments(slug: string, lower: string, id: string, ext: string)
    requires MatchesSlugPattern(slug) && NoUpper(lower) && '/' !in id && '/' !in ext
    ensures Segments(ProofKey(slug, lower, id, ext)) == [PREFIX, slug, Fragment(lower), id + "." + ext]
  {
    SlugsHaveNoSlash(slug);
    FragmentHasNoSlash(lower);
    KeyOfParts(slug, Fragment(lower), id + "." + ext);
  }
}
