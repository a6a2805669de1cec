/** Keys as `BTreeSet<String>` and `BTreeMap<String, _>` keep them: ascending, each once. */
module Ordered {
  import opened Text

  predicate Ascending(s: seq<string>) {
    forall i, j :: 0 <= i < j < |s| ==> Less(s[i], s[j])
  }

  predicate Descending(s: seq<string>) {
    forall i, j :: 0 <= i < j < |s| ==> Less(s[j], s[i])
  }

  lemma AscendingCons(k: string, s: seq<string>)
    requires Ascending(s) && (s != [] ==> Less(k, s[0]))
    ensures Ascending([k] + s)
  {
    forall i, j | 0 <= i < j < |[k] + s| ensures Less(([k] + s)[i], ([k] + s)[j]) {
      if i == 0 && j > 1 {
        LessTransitive(k, s[0], s[j - 1]);
      }
    }
  }

  /** Where a new key goes. */
  function Insert(s: seq<string>, k: string): (r: seq<string>)
    requires Ascending(s)
    ensures Ascending(r)
    ensures forall x :: x in r <==> x in s || x == k
    ensures r != [] && (r[0] == k || (s != [] && r[0] == s[0]))
  {
    if s == [] then [k]
    else if k == s[0] then s
    else if Less(k, s[0]) then
      AscendingCons(k, s);
      [k] + s
    else
      LessTotal(k, s[0]);
      var rest := Insert(s[1..], k);
      AscendingCons(s[0], rest);
      assert s == [s[0]] + s[1..];
      [s[0]] + rest
  }

  lemma AscendingNoRepeats(s: seq<string>, i: nat, j: nat)
    requires Ascending(s) && i < |s| && j < |s|
    ensures s[i] == s[j] <==> i == j
    ensures Less(s[i], s[j]) <==> i < j
  {
    LessIrreflexive(s[i]);
    if j < i {
      LessTotal(s[i], s[j]);
    }
  }

  /** The last key is the greatest. */
  lemma LastIsGreatest(s: seq<string>, k: string)
    requires Ascending(s) && k in s
    ensures AtMost(k, s[|s| - 1])
  {
    var i :| 0 <= i < |s| && s[i] == k;
  }

  ghost predicate SameMembers(a: seq<string>, b: seq<string>) {
    forall x :: x in a <==> x in b
  }

  lemma LastsAgree(a: seq<string>, b: seq<string>)
    requires Ascending(a) && Ascending(b) && SameMembers(a, b) && a != [] && b != []
    ensures a[|a| - 1] == b[|b| - 1]
  {
    var x, y := a[|a| - 1], b[|b| - 1];
    assert x in a && y in b;
    LastIsGreatest(a, y);
    LastIsGreatest(b, x);
    LessTotal(x, y);
  }

  lemma FrontsAgree(a: seq<string>, b: seq<string>)
    requires Ascending(a) && Ascending(b) && SameMembers(a, b) && a != [] && b != []
    ensures SameMembers(a[..|a| - 1], b[..|b| - 1])
  {
    LastsAgree(a, b);
    var f, g := a[..|a| - 1], b[..|b| - 1];
    forall x ensures x in f <==> x in g {
      FrontMembers(a, x);
      FrontMembers(b, x);
    }
  }

  /** An ascending list is determined by its members. */
  lemma {:induction false} AscendingUnique(a: seq<string>, b: seq<string>)
    requires Ascending(a) && Ascending(b) && SameMembers(a, b)
    ensures a == b
  {
    if a == [] {
      assert forall i :: 0 <= i < |b| ==> b[i] in a;
    } else {
      assert a[0] in b;
      var m, n := |a| - 1, |b| - 1;
      LastsAgree(a, b);
      FrontsAgree(a, b);
      AscendingUnique(a[..m], b[..n]);
      assert a == a[..m] + [a[m]] && b == b[..n] + [b[n]];
    }
  }

  lemma FrontMembers(a: seq<string>, x: string)
    requires Ascending(a) && a != []
    ensures x in a[..|a| - 1] <==> x in a && x != a[|a| - 1]
  {
    var m := |a| - 1;
    if x in a[..m] {
      var i :| 0 <= i < m && a[..m][i] == x;
      AscendingNoRepeats(a, i, m);
      assert a[i] in a;
    }
    if x in a && x != a[m] {
      var i :| 0 <= i < |a| && a[i] == x;
      assert a[..m][i] == x;
    }
  }
}
