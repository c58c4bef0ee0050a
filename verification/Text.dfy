/** Decimal rendering and the separator arguments behind every formatted key. */
module Text {

  predicate IsDigit(c: char) { '0' <= c <= '9' }

  function Digit(d: nat): (c: char)
    requires d < 10
    ensures IsDigit(c)
  {
    ['0', '1', '2', '3', '4', '5', '6', '7', '8', '9'][d]
  }

  function Decimal(n: nat): (s: string)
    ensures s != [] && forall c | c in s :: IsDigit(c)
  {
    if n < 10 then [Digit(n)] else Decimal(n / 10) + [Digit(n % 10)]
  }

  function SignedDecimal(n: int): string {
    if n < 0 then ['-'] + Decimal(-n) else Decimal(n)
  }

  lemma {:induction false} DecimalInjective(m: nat, n: nat)
    requires Decimal(m) == Decimal(n)
    ensures m == n
  {
    var s, t := Decimal(m), Decimal(n);
    assert s[|s| - 1] == Digit(m % 10) && t[|t| - 1] == Digit(n % 10);
    assert m % 10 == n % 10;
    if m >= 10 && n >= 10 {
      assert s[..|s| - 1] == Decimal(m / 10) && t[..|t| - 1] == Decimal(n / 10);
      DecimalInjective(m / 10, n / 10);
    }
  }

  /** The number that decimal digits denote. */
  ghost function Reading(s: string): int {
    if s == [] then 0 else 10 * Reading(s[..|s| - 1]) + (s[|s| - 1] as int - '0' as int)
  }

  /** The rendering denotes the number, without leading zeros. */
  lemma {:induction false} DecimalReads(n: nat)
    ensures Reading(Decimal(n)) == n && (n > 0 ==> Decimal(n)[0] != '0')
    ensures |Decimal(n)| > 1 ==> n >= 10
  {
    if n >= 10 {
      DecimalReads(n / 10);
      var s := Decimal(n);
      assert s[..|s| - 1] == Decimal(n / 10) && s[|s| - 1] == Digit(n % 10);
      assert s[|s| - 1] as int - '0' as int == n % 10;
    } else {
      assert [Digit(n)][..0] == [];
    }
  }

  lemma SignShows(n: int)
    ensures SignedDecimal(n) != [] && (SignedDecimal(n)[0] == '-' <==> n < 0)
  {
    if n >= 0 {
      var s := Decimal(n);
      assert s[0] in s;
    }
  }

  lemma SignedDecimalInjective(m: int, n: int)
    requires SignedDecimal(m) == SignedDecimal(n)
    ensures m == n
  {
    SignShows(m);
    SignShows(n);
    if m < 0 {
      SharedPrefix(['-'], Decimal(-m), Decimal(-n));
      DecimalInjective(-m, -n);
    } else {
      DecimalInjective(m, n);
    }
  }

  function FirstIndex<T(==)>(s: seq<T>, sep: T): nat {
    if s == [] || s[0] == sep then 0 else 1 + FirstIndex(s[1..], sep)
  }

  function LastIndex<T(==)>(s: seq<T>, sep: T): (i: nat)
    ensures i <= |s|
  {
    if s == [] || s[|s| - 1] == sep then |s| else LastIndex(s[..|s| - 1], sep)
  }

  lemma {:induction false} FirstFieldEnds<T>(a: seq<T>, sep: T, x: seq<T>)
    requires sep !in a
    ensures FirstIndex(a + [sep] + x, sep) == |a|
  {
    if a != [] {
      FirstFieldEnds(a[1..], sep, x);
      assert (a + [sep] + x)[1..] == a[1..] + [sep] + x;
    }
  }

  lemma {:induction false} LastFieldStarts<T>(x: seq<T>, sep: T, a: seq<T>)
    requires sep !in a
    ensures LastIndex(x + [sep] + a, sep) == |x| + 1
  {
    var s := x + [sep] + a;
    if a != [] {
      LastFieldStarts(x, sep, a[..|a| - 1]);
      assert s[..|s| - 1] == x + [sep] + a[..|a| - 1];
    }
  }

  /** A field without the separator ends at the first separator. */
  lemma FirstFieldInjective<T>(a: seq<T>, sep: T, x: seq<T>, b: seq<T>, y: seq<T>)
    requires sep !in a && sep !in b
    requires a + [sep] + x == b + [sep] + y
    ensures a == b && x == y
  {
    FirstFieldEnds(a, sep, x);
    FirstFieldEnds(b, sep, y);
    assert a == (a + [sep] + x)[..|a|] && b == (b + [sep] + y)[..|b|];
    assert x == (a + [sep] + x)[|a| + 1..] && y == (b + [sep] + y)[|b| + 1..];
  }

  /** A field without the separator starts after the last separator. */
  lemma LastFieldInjective<T>(x: seq<T>, sep: T, a: seq<T>, y: seq<T>, b: seq<T>)
    requires sep !in a && sep !in b
    requires x + [sep] + a == y + [sep] + b
    ensures a == b && x == y
  {
    LastFieldStarts(x, sep, a);
    LastFieldStarts(y, sep, b);
    assert x == (x + [sep] + a)[..|x|] && y == (y + [sep] + b)[..|y|];
    assert a == (x + [sep] + a)[|x| + 1..] && b == (y + [sep] + b)[|y| + 1..];
  }

  /** Two strings that start alike, compared after what they share. */
  lemma SharedPrefix<T>(p: seq<T>, x: seq<T>, y: seq<T>)
    requires p + x == p + y
    ensures x == y
  {
    assert x == (p + x)[|p|..] && y == (p + y)[|p|..];
  }
}
