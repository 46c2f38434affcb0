/**
 * The string and path helpers the pipeline and the visualiser rely on:
 * `str.endswith`, `os.path.basename`, `os.path.splitext`, `str(int)`,
 * `list.index`, and the name of a fragment file.
 */
module Paths {

  predicate StartsWith(s: string, prefix: string)
  {
    |prefix| <= |s| && s[..|prefix|] == prefix
  }

  /** `s.endswith(suffix)`, case-sensitive. */
  predicate EndsWith(s: string, suffix: string)
  {
    |suffix| <= |s| && s[|s| - |suffix|..] == suffix
  }

  /**
   * The text after the last `c` in `s`, or all of `s` when `c` does not occur:
   * `s.split(c)[-1]`, `s.rsplit(c, 1)[-1]`, and `os.path.basename` for '/'.
   * The three ensures say it is the longest suffix of `s` free of `c`.
   */
  function AfterLast(s: string, c: char): (r: string)
    ensures EndsWith(s, r)
    ensures c !in r
    ensures |r| < |s| ==> s[|s| - |r| - 1] == c
    decreases |s|
  {
    if |s| == 0 then ""
    else if s[|s| - 1] == c then ""
    else AfterLast(s[..|s| - 1], c) + [s[|s| - 1]]
  }

  /** Any suffix with the three properties above is the one AfterLast returns. */
  lemma AfterLastUnique(s: string, c: char, r: string)
    requires EndsWith(s, r) && c !in r
    requires |r| < |s| ==> s[|s| - |r| - 1] == c
    ensures AfterLast(s, c) == r
  {
    var r' := AfterLast(s, c);
    assert |r| == |r'|;
    assert r == s[|s| - |r|..] == r';
  }

  /** Whatever precedes the last `c`, the text after it is what AfterLast returns. */
  lemma AfterLastAppend(a: string, c: char, d: string)
    requires c !in d
    ensures AfterLast(a + [c] + d, c) == d
  {
    var s := a + [c] + d;
    assert s[|s| - |d|..] == d;
    AfterLastUnique(s, c, d);
  }

  /** `os.path.basename(p)`. */
  function Basename(p: string): string
  {
    AfterLast(p, '/')
  }

  /** A path directly inside `dir`, as `os.path.join(dir, name)` spells it. */
  predicate IsChild(dir: string, p: string)
  {
    StartsWith(p, dir + "/") && '/' !in p[|dir| + 1..]
  }

  /** The base name of a child of `dir` is the part after `dir/`. */
  lemma ChildBasename(dir: string, p: string)
    requires IsChild(dir, p)
    ensures Basename(p) == p[|dir| + 1..]
    ensures p == dir + "/" + Basename(p)
  {
    assert p == (dir + "/") + p[|dir| + 1..];
    assert p == dir + ['/'] + p[|dir| + 1..];
    AfterLastAppend(dir, '/', p[|dir| + 1..]);
  }

  /** Every character of `s` is a '.'. */
  predicate AllDots(s: string)
    decreases |s|
  {
    s == [] || (s[0] == '.' && AllDots(s[1..]))
  }

  lemma {:induction false} AllDotsMeans(s: string)
    ensures AllDots(s) <==> forall k :: 0 <= k < |s| ==> s[k] == '.'
    decreases |s|
  {
    if s != [] {
      AllDotsMeans(s[1..]);
      assert forall k :: 1 <= k < |s| ==> s[k] == s[1..][k - 1];
    }
  }

  /**
   * `os.path.splitext(name)[0]` for a name without '/': the name up to its last
   * '.', unless every character before that dot is itself a dot (".png" and
   * "..png" have no extension).
   */
  function Stem(name: string): string
  {
    var ext := AfterLast(name, '.');
    if |ext| == |name| then name
    else
      var d := |name| - |ext| - 1;
      if AllDots(name[..d]) then name else name[..d]
  }

  /** A name with some character other than '.' before its extension loses exactly the extension. */
  lemma StemOfExtension(b: string, e: string)
    requires '.' !in e
    requires exists k :: 0 <= k < |b| && b[k] != '.'
    ensures Stem(b + "." + e) == b
  {
    var name := b + "." + e;
    assert name == b + ['.'] + e;
    AfterLastAppend(b, '.', e);
    assert name[..|b|] == b;
    AllDotsMeans(b);
  }

  /** A name that is all dots before its last '.' has no extension. */
  lemma StemOfDotOnly(b: string, e: string)
    requires '.' !in e
    requires forall k :: 0 <= k < |b| ==> b[k] == '.'
    ensures Stem(b + "." + e) == b + "." + e
  {
    var name := b + "." + e;
    assert name == b + ['.'] + e;
    AfterLastAppend(b, '.', e);
    assert name[..|b|] == b;
    AllDotsMeans(b);
  }

  function DigitChar(d: nat): char
    requires d < 10
  {
    "0123456789"[d]
  }

  predicate IsDigit(ch: char)
  {
    '0' <= ch <= '9'
  }

  /** `str(n)` for a non-negative integer: its decimal digits, most significant first. */
  function NatToString(n: nat): (r: string)
    ensures |r| > 0
    ensures forall i :: 0 <= i < |r| ==> IsDigit(r[i])
    decreases n
  {
    if n < 10 then [DigitChar(n)] else NatToString(n / 10) + [DigitChar(n % 10)]
  }

  /** The value of a string of decimal digits, as `int(s)` reads it. */
  function DigitsValue(s: string): int
  {
    if s == [] then 0 else 10 * DigitsValue(s[..|s| - 1]) + (s[|s| - 1] as int - '0' as int)
  }

  /** Reading back the digits of `str(n)` gives `n`. */
  lemma {:induction false} NatToStringRoundTrip(n: nat)
    ensures DigitsValue(NatToString(n)) == n
    decreases n
  {
    var r := NatToString(n);
    if n < 10 {
      assert r[..0] == [];
    } else {
      NatToStringRoundTrip(n / 10);
      assert r[..|r| - 1] == NatToString(n / 10);
    }
  }

  /** Distinct numbers have distinct decimal spellings. */
  lemma NatToStringInjective(n: nat, m: nat)
    requires NatToString(n) == NatToString(m)
    ensures n == m
  {
    NatToStringRoundTrip(n);
    NatToStringRoundTrip(m);
  }

  /** `s.index(x)`: the first position of `s` that holds `x`. */
  function IndexOf<T(==)>(s: seq<T>, x: T): (r: nat)
    requires x in s
    ensures r < |s| && s[r] == x
    ensures forall k :: 0 <= k < r ==> s[k] != x
  {
    if s[0] == x then 0 else 1 + IndexOf(s[1..], x)
  }

  /** `f"{dir}/{base}_{index}.ttl"`: the file that holds one chunk's fragment. */
  function FragmentName(dir: string, base: string, index: nat): string
  {
    dir + "/" + base + "_" + NatToString(index) + ".ttl"
  }

  /** In one directory, the base name and the index can be read back from a fragment's name. */
  lemma FragmentNameInjective(dir: string, b1: string, i1: nat, b2: string, i2: nat)
    requires FragmentName(dir, b1, i1) == FragmentName(dir, b2, i2)
    ensures b1 == b2 && i1 == i2
  {
    var d1, d2 := NatToString(i1), NatToString(i2);
    SuffixCancel(dir + "/" + b1 + "_" + d1, dir + "/" + b2 + "_" + d2, ".ttl");
    NoUnderscoreInDigits(i1);
    NoUnderscoreInDigits(i2);
    SplitAtLast(dir + "/" + b1, d1, dir + "/" + b2, d2, '_');
    NatToStringInjective(i1, i2);
    PrefixCancel(dir + "/", b1, b2);
  }

  lemma SuffixCancel(a: string, b: string, suffix: string)
    requires a + suffix == b + suffix
    ensures a == b
  {
    assert |a| == |b|;
    assert a == (a + suffix)[..|a|];
    assert b == (b + suffix)[..|b|];
  }

  lemma PrefixCancel(prefix: string, a: string, b: string)
    requires prefix + a == prefix + b
    ensures a == b
  {
    assert a == (prefix + a)[|prefix|..];
    assert b == (prefix + b)[|prefix|..];
  }

  /** Splitting at the last `c` gives the same parts when `c` occurs in neither tail. */
  lemma SplitAtLast(p1: string, d1: string, p2: string, d2: string, c: char)
    requires c !in d1 && c !in d2
    requires p1 + [c] + d1 == p2 + [c] + d2
    ensures p1 == p2 && d1 == d2
  {
    AfterLastAppend(p1, c, d1);
    AfterLastAppend(p2, c, d2);
    SuffixCancel(p1 + [c], p2 + [c], d1);
    assert p1 == (p1 + [c])[..|p1|];
    assert p2 == (p2 + [c])[..|p2|];
  }

  lemma NoUnderscoreInDigits(n: nat)
    ensures '_' !in NatToString(n)
  {
    var d := NatToString(n);
    forall i | 0 <= i < |d| ensures d[i] != '_' {
      assert IsDigit(d[i]);
    }
  }
}
