/** File-name stems: `slugify`, and the tags that `Render`'s `usedSlugs` loop adds to repeated slugs. */
module Slug {
  import opened Text
  import opened Sorting

  predicate IsSafe(c: char) {
    'a' <= c <= 'z' || 'A' <= c <= 'Z' || '0' <= c <= '9' || c == '.' || c == '-' || c == '_'
  }

  predicate AllSafe(s: string) {
    forall c | c in s :: IsSafe(c)
  }

  predicate HasPrefix(s: string, prefix: string) {
    prefix <= s
  }

  const WILDCARD := "_wildcard."

  /** Trimmed, with a leading `*.` spelled out. */
  function Unstarred(host: string): string {
    var s := Trim(host);
    if HasPrefix(s, "*.") then WILDCARD + s[2..] else s
  }

  function SafeOrUnderscore(c: char): char {
    if IsSafe(c) then c else '_'
  }

  function Slugify(host: string): string {
    var s := Unstarred(host);
    seq(|s|, i requires 0 <= i < |s| => SafeOrUnderscore(s[i]))
  }

  method SlugifyHost(host: string) returns (out: string)
    ensures out == Slugify(host)
  {
    var s := Trim(host);
    if HasPrefix(s, "*.") {
      s := "_wildcard." + s[2..];
    }
    out := "";
    for i := 0 to |s|
      invariant |out| == i
      invariant forall j | 0 <= j < i :: out[j] == SafeOrUnderscore(s[j])
    {
      var r := s[i];
      if 'a' <= r <= 'z' || 'A' <= r <= 'Z' || '0' <= r <= '9' || r == '.' || r == '-' || r == '_' {
        out := out + [r];
      } else {
        out := out + ['_'];
      }
    }
  }

  // ----- laws of slugify

  const LOWER := "abcdefghijklmnopqrstuvwxyz"
  const UPPER := "ABCDEFGHIJKLMNOPQRSTUVWXYZ"
  const DIGITS := "0123456789"

  predicate InSafeAlphabet(c: char) {
    c in LOWER || c in UPPER || c in DIGITS || c == '.' || c == '-' || c == '_'
  }

  lemma LowerIs(c: char)
    ensures c in LOWER <==> 'a' <= c <= 'z'
  {
    if 'a' <= c <= 'z' { assert LOWER[c as int - 97] == c; }
  }

  lemma UpperIs(c: char)
    ensures c in UPPER <==> 'A' <= c <= 'Z'
  {
    if 'A' <= c <= 'Z' { assert UPPER[c as int - 65] == c; }
  }

  lemma SafeIsAlphabet(c: char)
    ensures IsSafe(c) <==> InSafeAlphabet(c)
  {
    LowerIs(c);
    UpperIs(c);
    if '0' <= c <= '9' { assert DIGITS[c as int - 48] == c; }
  }

  /** The trimmed host, its leading `*.` spelled out, with an underscore for each unsafe character. */
  lemma SlugifyIs(host: string)
    ensures var t := Trim(host);
      var s := if "*." <= t then "_wildcard." + t[2..] else t;
      && |Slugify(host)| == |s|
      && forall i | 0 <= i < |s| :: Slugify(host)[i] == if InSafeAlphabet(s[i]) then s[i] else '_'
  {
    hide IsSafe, InSafeAlphabet;
    forall c: char ensures IsSafe(c) <==> InSafeAlphabet(c) { SafeIsAlphabet(c); }
  }

  lemma SlugIsSafe(host: string)
    ensures AllSafe(Slugify(host))
  {
  }

  lemma SafeIsFixed(s: string)
    requires AllSafe(s)
    ensures Slugify(s) == s
  {
    assert s != "" ==> s[0] in s && s[|s| - 1] in s;
    TrimTidies(s);
    assert forall i | 0 <= i < |s| :: s[i] in s;
  }

  lemma SlugifyIdempotent(host: string)
    ensures Slugify(Slugify(host)) == Slugify(host)
  {
    SlugIsSafe(host);
    SafeIsFixed(Slugify(host));
  }

  /** Safe characters, an optional leading `*.`, and no literal `_wildcard.` prefix. */
  predicate PlainHost(host: string) {
    AllSafe(if HasPrefix(host, "*.") then host[2..] else host) && !HasPrefix(host, "_wildcard.")
  }

  lemma PlainHostSlug(host: string)
    requires PlainHost(host)
    ensures Slugify(host) == if HasPrefix(host, "*.") then "_wildcard." + host[2..] else host
  {
    if HasPrefix(host, "*.") {
      var rest := host[2..];
      assert host[0] == '*' && host[1] == '.';
      assert |host| > 2 ==> host[|host| - 1] == rest[|rest| - 1] && rest[|rest| - 1] in rest;
      assert Tidy(host);
      TrimTidies(host);
      hide Trim;
      AllSafeConcat(WILDCARD, rest);
      SafeChars(Unstarred(host), host);
    } else {
      SafeIsFixed(host);
    }
  }

  lemma AllSafeConcat(a: string, b: string)
    requires AllSafe(a) && AllSafe(b)
    ensures AllSafe(a + b)
  {
  }

  lemma SafeChars(s: string, host: string)
    requires AllSafe(s) && s == Unstarred(host)
    ensures Slugify(host) == s
  {
    hide Unstarred;
    assert forall i | 0 <= i < |s| :: s[i] in s;
  }

  lemma SlugifyInjective(a: string, b: string)
    requires PlainHost(a) && PlainHost(b) && Slugify(a) == Slugify(b)
    ensures a == b
  {
    PlainHostSlug(a);
    PlainHostSlug(b);
    if HasPrefix(a, "*.") && HasPrefix(b, "*.") {
      assert (WILDCARD + a[2..])[|WILDCARD|..] == a[2..];
      assert (WILDCARD + b[2..])[|WILDCARD|..] == b[2..];
      assert a == "*." + a[2..] && b == "*." + b[2..];
    }
  }

  // ----- tags for repeated slugs

  function Tagged(slug: string, k: nat): string {
    slug + "-" + Decimal(k)
  }

  /** slugs[i] is its own Occurrence-th appearance, counting from 1. */
  function Occurrence(slugs: seq<string>, i: nat): nat
    requires i < |slugs|
  {
    multiset(slugs[..i + 1])[slugs[i]]
  }

  /** The file-name stem given to certificate i. */
  function Stem(slugs: seq<string>, i: nat): string
    requires i < |slugs|
  {
    var k := Occurrence(slugs, i);
    if k <= 1 then slugs[i] else Tagged(slugs[i], k)
  }

  ghost predicate StemsDistinct(slugs: seq<string>) {
    forall i, j | 0 <= i < j < |slugs| :: Stem(slugs, i) != Stem(slugs, j)
  }

  /** Some slug is spelled like the tag of a repeated one. */
  ghost predicate TagTaken(slugs: seq<string>) {
    exists x, k: nat :: 2 <= k <= multiset(slugs)[x] && Tagged(x, k) in slugs
  }

  lemma PrefixCount(slugs: seq<string>, i: nat, j: nat, x: string)
    requires i <= j <= |slugs|
    ensures multiset(slugs[..i])[x] <= multiset(slugs[..j])[x] <= multiset(slugs)[x]
  {
    assert slugs[..j] == slugs[..i] + slugs[i..j];
    assert slugs == slugs[..j] + slugs[j..];
  }

  lemma OccurrenceStep(slugs: seq<string>, i: nat)
    requires i < |slugs|
    ensures multiset(slugs[..i + 1]) == multiset(slugs[..i]) + multiset{slugs[i]}
  {
    assert slugs[..i + 1] == slugs[..i] + [slugs[i]];
  }

  /** The tag's dash is the last one. */
  lemma TaggedShape(x: string, k: nat)
    ensures var s := Tagged(x, k);
      |s| > |x| && s[|x|] == '-' && forall q | |x| < q < |s| :: s[q] != '-'
  {
    DecimalDigits(k);
    var s, d := Tagged(x, k), Decimal(k);
    forall q | |x| < q < |s| ensures s[q] != '-' {
      assert s[q] == d[q - |x| - 1] && d[q - |x| - 1] in d;
    }
  }

  lemma TaggedInjective(x: string, k: nat, y: string, m: nat)
    requires Tagged(x, k) == Tagged(y, m)
    ensures x == y && k == m
  {
    TaggedShape(x, k);
    TaggedShape(y, m);
    var s := Tagged(x, k);
    assert |x| == |y|;
    assert s[..|x|] == x && s[..|x|] == y;
    assert s[|x| + 1..] == Decimal(k) && s[|x| + 1..] == Decimal(m);
    DecimalInjective(k, m);
  }

  lemma {:induction false} KthOccurrence(slugs: seq<string>, x: string, k: nat, n: nat) returns (i: nat)
    requires n <= |slugs| && 1 <= k <= multiset(slugs[..n])[x]
    ensures i < n && slugs[i] == x && Occurrence(slugs, i) == k
    decreases n
  {
    i := n - 1;
    OccurrenceStep(slugs, i);
    if slugs[i] != x || multiset(slugs[..n])[x] != k {
      i := KthOccurrence(slugs, x, k, i);
    }
  }

  /** The stems are pairwise distinct exactly when no slug is spelled `s-k` for a slug s that
      occurs at least k times, k >= 2. */
  lemma StemsDistinctIff(slugs: seq<string>)
    ensures StemsDistinct(slugs) <==> !TagTaken(slugs)
  {
    if TagTaken(slugs) {
      var x, k: nat :| 2 <= k <= multiset(slugs)[x] && Tagged(x, k) in slugs;
      assert slugs[..|slugs|] == slugs;
      var i := KthOccurrence(slugs, x, k, |slugs|);
      assert Tagged(x, k) in multiset(slugs);
      var j := KthOccurrence(slugs, Tagged(x, k), 1, |slugs|);
      assert |Tagged(x, k)| > |x|;
      assert Stem(slugs, i) == Stem(slugs, j) && i != j;
    }
    if !StemsDistinct(slugs) {
      var i, j :| 0 <= i < j < |slugs| && Stem(slugs, i) == Stem(slugs, j);
      EqualStems(slugs, i, j);
    }
  }

  lemma EqualStems(slugs: seq<string>, i: nat, j: nat)
    requires i < j < |slugs| && Stem(slugs, i) == Stem(slugs, j)
    ensures TagTaken(slugs)
  {
    var a, b, k, m := slugs[i], slugs[j], Occurrence(slugs, i), Occurrence(slugs, j);
    OccurrenceStep(slugs, i);
    OccurrenceStep(slugs, j);
    PrefixCount(slugs, i + 1, j, b);
    PrefixCount(slugs, i + 1, i + 1, a);
    PrefixCount(slugs, j + 1, j + 1, b);
    if k >= 2 && m >= 2 {
      TaggedInjective(a, k, b, m);
      assert false;
    } else if k >= 2 {
      assert Tagged(a, k) in slugs;
    } else if m >= 2 {
      assert Tagged(b, m) in slugs;
    }
  }

  /** Three hosts, in main-domain order, of which two share the stem `a_b-2`. */
  lemma TagsCanCollide()
    ensures !StemsDistinct([Slugify("a?b"), Slugify("a_b"), Slugify("a_b-2")])
  {
    hide Slugify;
    assert Slugify("a?b") == "a_b" by { QuestionSlug(); }
    assert Slugify("a_b") == "a_b" by { SafeIsFixed("a_b"); }
    assert Slugify("a_b-2") == "a_b-2" by { SafeIsFixed("a_b-2"); }
    var slugs := ["a_b", "a_b", "a_b-2"];
    assert Tagged("a_b", 2) == "a_b-2" && slugs[2] == "a_b-2";
    assert multiset(slugs)["a_b"] == 2;
    StemsDistinctIff(slugs);
  }

  lemma QuestionSlug()
    ensures Slugify("a?b") == "a_b"
  {
    TrimTidies("a?b");
    hide Trim;
    assert Unstarred("a?b") == "a?b";
  }

  /** The first certificate with a slug is named by it, the kth by `slug-k`. */
  lemma StemIs(slugs: seq<string>, i: nat)
    requires i < |slugs|
    ensures var k := 1 + multiset(slugs[..i])[slugs[i]];
      Stem(slugs, i) == if slugs[i] !in slugs[..i] then slugs[i] else slugs[i] + "-" + Decimal(k)
  {
    OccurrenceStep(slugs, i);
    assert slugs[i] in slugs[..i] <==> slugs[i] in multiset(slugs[..i]);
  }

  /** Slugs that never repeat are used as they are. */
  lemma DistinctSlugsAreStems(slugs: seq<string>, i: nat)
    requires Distinct(slugs) && i < |slugs|
    ensures Stem(slugs, i) == slugs[i]
  {
    DistinctCount(slugs, slugs[i]);
    PrefixCount(slugs, i + 1, i + 1, slugs[i]);
  }
}
