/** Strings as the program uses them: white-space trimming, byte-wise order, decimal printing.

    A Go string is modelled as the sequence of its code points.  Go compares strings
    byte by byte; on UTF-8 that is the order of the code points, which is `Lt` below. */
module Text {

  // ----- strings.TrimSpace

  /** unicode.IsSpace. */
  predicate IsSpace(c: char) {
    var x := c as int;
    9 <= x <= 13 || x == 32 || x == 0x85 || x == 0xA0 || x == 0x1680 || 0x2000 <= x <= 0x200A ||
    x == 0x2028 || x == 0x2029 || x == 0x202F || x == 0x205F || x == 0x3000
  }

  function TrimLeft(s: string): string {
    if s != "" && IsSpace(s[0]) then TrimLeft(s[1..]) else s
  }

  function TrimRight(s: string): string {
    if s != "" && IsSpace(s[|s| - 1]) then TrimRight(s[..|s| - 1]) else s
  }

  function Trim(s: string): string {
    TrimRight(TrimLeft(s))
  }

  /** No white space at either end. */
  predicate Tidy(s: string) {
    s == "" || (!IsSpace(s[0]) && !IsSpace(s[|s| - 1]))
  }

  lemma {:induction false} TrimRightTidy(s: string)
    requires s == "" || !IsSpace(s[0])
    ensures Tidy(TrimRight(s))
    decreases |s|
  {
    if s != "" && IsSpace(s[|s| - 1]) {
      TrimRightTidy(s[..|s| - 1]);
    }
  }

  lemma {:induction false} TrimLeftStart(s: string)
    ensures TrimLeft(s) == "" || !IsSpace(TrimLeft(s)[0])
    decreases |s|
  {
    if s != "" && IsSpace(s[0]) {
      TrimLeftStart(s[1..]);
    }
  }

  /** Trimming leaves a tidy string, and tidy strings are what it leaves alone. */
  lemma TrimTidies(s: string)
    ensures Tidy(Trim(s))
    ensures Tidy(s) <==> Trim(s) == s
    ensures Trim(Trim(s)) == Trim(s)
  {
    TrimLeftStart(s);
    TrimRightTidy(TrimLeft(s));
  }

  predicate AllSpace(s: string) {
    forall c | c in s :: IsSpace(c)
  }

  /** The white space of Unicode, one by one. */
  const WHITE_SPACE := ['\t', '\n', '\U{000B}', '\U{000C}', '\r', ' ', '\U{0085}', '\U{00A0}', '\U{1680}',
    '\U{2000}', '\U{2001}', '\U{2002}', '\U{2003}', '\U{2004}', '\U{2005}', '\U{2006}', '\U{2007}', '\U{2008}',
    '\U{2009}', '\U{200A}', '\U{2028}', '\U{2029}', '\U{202F}', '\U{205F}', '\U{3000}']

  lemma SpacesAre(c: char)
    ensures IsSpace(c) <==> c in WHITE_SPACE
  {
    var x := c as int;
    if IsSpace(c) {
      var i := if x <= 13 then x - 9 else if x == 32 then 5 else if x == 0x85 then 6 else if x == 0xA0 then 7
               else if x == 0x1680 then 8 else if x <= 0x200A then 9 + (x - 0x2000) else if x == 0x2028 then 20
               else if x == 0x2029 then 21 else if x == 0x202F then 22 else if x == 0x205F then 23 else 24;
      assert WHITE_SPACE[i] == c;
    }
  }

  lemma {:induction false} TrimLeftSplits(s: string) returns (a: string)
    ensures s == a + TrimLeft(s) && AllSpace(a)
    decreases |s|
  {
    a := "";
    if s != "" && IsSpace(s[0]) {
      a := TrimLeftSplits(s[1..]);
      assert s == [s[0]] + s[1..];
      a := [s[0]] + a;
    }
  }

  lemma {:induction false} TrimRightSplits(s: string) returns (b: string)
    ensures s == TrimRight(s) + b && AllSpace(b)
    decreases |s|
  {
    b := "";
    if s != "" && IsSpace(s[|s| - 1]) {
      b := TrimRightSplits(s[..|s| - 1]);
      assert s == s[..|s| - 1] + [s[|s| - 1]];
      b := b + [s[|s| - 1]];
    }
  }

  /** Trimming takes white space from both ends, and nothing else. */
  lemma TrimSplits(s: string) returns (a: string, b: string)
    ensures s == a + Trim(s) + b && AllSpace(a) && AllSpace(b) && Tidy(Trim(s))
  {
    a := TrimLeftSplits(s);
    b := TrimRightSplits(TrimLeft(s));
    TrimTidies(s);
  }

  lemma TrimEmptyIff(s: string)
    ensures Trim(s) == "" <==> AllSpace(s)
  {
    var a, b := TrimSplits(s);
    var t := Trim(s);
    if t == "" {
      assert s == a + b;
    } else {
      assert s[|a|] == t[0] && s[|a|] in s;
    }
  }

  // ----- string order

  predicate Lt(a: string, b: string) {
    b != "" && (a == "" || a[0] < b[0] || (a[0] == b[0] && Lt(a[1..], b[1..])))
  }

  /** The first difference decides; a proper prefix comes first. */
  ghost predicate DiffersAt(a: string, b: string, k: nat) {
    k <= |a| && k < |b| && a[..k] == b[..k] && (k == |a| || a[k] < b[k])
  }

  lemma {:induction false} LtIs(a: string, b: string)
    ensures Lt(a, b) <==> exists k :: DiffersAt(a, b, k)
    decreases |a|
  {
    if b != "" && a != "" && a[0] == b[0] {
      LtIs(a[1..], b[1..]);
      if Lt(a, b) {
        var k: nat :| DiffersAt(a[1..], b[1..], k);
        assert a[..k + 1] == [a[0]] + a[1..][..k] && b[..k + 1] == [b[0]] + b[1..][..k];
        assert DiffersAt(a, b, k + 1);
      } else {
        forall k: nat ensures !DiffersAt(a, b, k) {
          if DiffersAt(a, b, k) { DiffersLater(a, b, k); }
        }
      }
    } else if b != "" && (a == "" || a[0] < b[0]) {
      assert DiffersAt(a, b, 0);
    } else {
      forall k: nat ensures !DiffersAt(a, b, k) { NoDifference(a, b, k); }
    }
  }

  lemma NoDifference(a: string, b: string, k: nat)
    requires b == "" || (a != "" && a[0] > b[0])
    ensures !DiffersAt(a, b, k)
  {
    if 0 < k <= |a| && k <= |b| {
      assert a[..k][0] == a[0] && b[..k][0] == b[0];
    }
  }

  lemma DiffersLater(a: string, b: string, k: nat)
    requires DiffersAt(a, b, k) && a != "" && b != "" && a[0] == b[0]
    ensures k > 0 && DiffersAt(a[1..], b[1..], k - 1)
  {
    if k > 0 { assert a[1..][..k - 1] == a[..k][1..] && b[1..][..k - 1] == b[..k][1..]; }
  }

  lemma {:induction false} LtTotal(a: string, b: string)
    ensures Lt(a, b) || a == b || Lt(b, a)
    decreases |a|
  {
    if a != "" && b != "" && a[0] == b[0] {
      LtTotal(a[1..], b[1..]);
      assert a == [a[0]] + a[1..] && b == [b[0]] + b[1..];
    }
  }

  lemma {:induction false} LtAsymmetric(a: string, b: string)
    ensures !(Lt(a, b) && Lt(b, a))
    decreases |a|
  {
    if a != "" && b != "" {
      LtAsymmetric(a[1..], b[1..]);
    }
  }

  lemma {:induction false} LtTransitive(a: string, b: string, c: string)
    requires Lt(a, b) && Lt(b, c)
    ensures Lt(a, c)
    decreases |a|
  {
    if a != "" && a[0] == b[0] == c[0] {
      LtTransitive(a[1..], b[1..], c[1..]);
    }
  }

  // ----- decimal printing (fmt's %d on a non-negative int)

  function Digit(d: nat): char
    requires d < 10
  {
    ('0' as int + d) as char
  }

  function Decimal(n: nat): string {
    if n < 10 then [Digit(n)] else Decimal(n / 10) + [Digit(n % 10)]
  }

  /** Different numbers print differently, and no number prints a '-'. */
  lemma {:induction false} DecimalInjective(m: nat, n: nat)
    requires Decimal(m) == Decimal(n)
    ensures m == n
    decreases m
  {
    DecimalSplit(m);
    DecimalSplit(n);
    if m >= 10 && n >= 10 {
      DecimalInjective(m / 10, n / 10);
    }
  }

  /** The last digit, and what stands before it. */
  lemma DecimalSplit(n: nat)
    ensures var p := Decimal(n);
      |p| >= 1 && (|p| == 1 <==> n < 10) && p[|p| - 1] == Digit(n % 10) && (n >= 10 ==> p[..|p| - 1] == Decimal(n / 10))
  {
    if n >= 10 { assert |Decimal(n / 10)| >= 1; }
  }

  lemma {:induction false} DecimalDigits(n: nat)
    ensures forall c | c in Decimal(n) :: '0' <= c <= '9'
    decreases n
  {
    if n >= 10 {
      DecimalDigits(n / 10);
    }
  }

  /** What a string of decimal digits stands for. */
  function Value(s: string): int {
    if s == "" then 0 else 10 * Value(s[..|s| - 1]) + (s[|s| - 1] as int - 48)
  }

  /** Reading back what was printed; there are no leading zeros. */
  lemma {:induction false} DecimalValue(n: nat)
    ensures Value(Decimal(n)) == n
    ensures n > 0 ==> Decimal(n)[0] != '0'
    decreases n
  {
    DecimalSplit(n);
    var p := Decimal(n);
    if n >= 10 {
      DecimalValue(n / 10);
      assert p[..|p| - 1][0] == p[0];
    } else {
      assert p[..0] == "";
    }
  }
}
