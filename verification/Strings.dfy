/** The string operations the Python sources apply to role names, topics and object names. */
module Strings {

  function LStrip(s: string, c: char): string {
    if s != [] && s[0] == c then LStrip(s[1..], c) else s
  }

  function RStrip(s: string, c: char): string {
    if s != [] && s[|s| - 1] == c then RStrip(s[..|s| - 1], c) else s
  }

  function Strip(s: string, c: char): string {
    RStrip(LStrip(s, c), c)
  }

  function ReplaceChar(s: string, from: char, to: char): string {
    seq(|s|, i requires 0 <= i < |s| => if s[i] == from then to else s[i])
  }

  predicate IsDigit(c: char) {
    '0' <= c <= '9'
  }

  function Digit(n: nat): char
    requires n < 10
  {
    ('0' as int + n) as char
  }

  /** Decimal rendering of a counter, as an f-string prints it. */
  function Decimal(n: nat): string {
    if n < 10 then [Digit(n)] else Decimal(n / 10) + [Digit(n % 10)]
  }

  function ParseDecimal(s: string): nat
    requires forall i :: 0 <= i < |s| ==> IsDigit(s[i])
  {
    if s == [] then 0
    else
      assert IsDigit(s[|s| - 1]);
      ParseDecimal(s[..|s| - 1]) * 10 + (s[|s| - 1] as int - '0' as int)
  }

  lemma {:induction false} DecimalRoundTrip(n: nat)
    ensures forall i :: 0 <= i < |Decimal(n)| ==> IsDigit(Decimal(n)[i])
    ensures ParseDecimal(Decimal(n)) == n
  {
    if n < 10 {
      assert Decimal(n)[..0] == [];
    } else {
      DecimalRoundTrip(n / 10);
      assert Decimal(n)[..|Decimal(n)| - 1] == Decimal(n / 10);
    }
  }

  /** Distinct counters print as distinct decimal strings. */
  lemma DecimalInjective(m: nat, n: nat)
    requires Decimal(m) == Decimal(n)
    ensures m == n
  {
    DecimalRoundTrip(m);
    DecimalRoundTrip(n);
  }

  // ----- path names turned into one component -----

  /** A path name as a component: slashes at the ends dropped, inner ones replaced. */
  function Mangle(name: string, to: char): string {
    ReplaceChar(Strip(name, '/'), '/', to)
  }

  /** One leading slash, none at the end, and no use of the replacement character. */
  predicate PlainPath(name: string, to: char) {
    |name| >= 2 && name[0] == '/' && name[1] != '/' && name[|name| - 1] != '/' && to != '/' && to !in name
  }

  lemma StripPlainPath(name: string, to: char)
    requires PlainPath(name, to)
    ensures Strip(name, '/') == name[1..]
  {
    assert LStrip(name, '/') == LStrip(name[1..], '/') == name[1..];
  }

  lemma ReplaceCharUndone(s: string, from: char, to: char)
    requires to !in s
    ensures ReplaceChar(ReplaceChar(s, from, to), to, from) == s
  {
  }

  /** Mangling loses nothing on plain paths. */
  lemma MangleInjective(a: string, b: string, to: char)
    requires PlainPath(a, to) && PlainPath(b, to)
    requires Mangle(a, to) == Mangle(b, to)
    ensures a == b
  {
    StripPlainPath(a, to);
    StripPlainPath(b, to);
    ReplaceCharUndone(a[1..], '/', to);
    ReplaceCharUndone(b[1..], '/', to);
    assert a == ['/'] + a[1..] && b == ['/'] + b[1..];
  }

  lemma MangleHasNoSlash(name: string, to: char)
    requires to != '/'
    ensures '/' !in Mangle(name, to)
  {
  }

  /** A path ending in a slash-free component determines the component and the rest. */
  lemma LastComponentUnique(p: string, a: string, q: string, b: string)
    requires '/' !in a && '/' !in b
    requires p + "/" + a == q + "/" + b
    ensures p == q && a == b
  {
    var s := p + "/" + a;
    assert s == q + "/" + b;
    assert s[|p|] == '/' && s[|q|] == '/';
    assert |p| == |q|;
    assert p == s[..|p|] && q == s[..|q|];
    assert a == s[|p| + 1..] && b == s[|q| + 1..];
  }
}
