/** String helpers used by the pipeline: Python's decimal rendering of
    integers (f-strings, str(n)), reading them back, str.replace,
    str.lower and str.endswith, all over `string = seq<char>`. */
module Text {

  datatype Option<+T> = None | Some(value: T)

  predicate IsDigit(c: char) { '0' <= c <= '9' }

  predicate AllDigits(s: string) { forall k :: 0 <= k < |s| ==> IsDigit(s[k]) }

  function DigitChar(d: nat): (c: char)
    requires d < 10
    ensures IsDigit(c) && c as int - '0' as int == d
  {
    ('0' as int + d) as char
  }

  function DigitValue(c: char): nat
    requires IsDigit(c)
  {
    c as int - '0' as int
  }

  /** The decimal rendering of a non-negative integer, as `str(n)` gives it. */
  function Decimal(n: nat): (s: string)
    ensures |s| >= 1 && AllDigits(s)
    ensures |s| > 1 ==> s[0] != '0'
    decreases n
  {
    if n < 10 then [DigitChar(n)] else Decimal(n / 10) + [DigitChar(n % 10)]
  }

  /** The value of a string of decimal digits, most significant first. */
  function DigitsValue(s: string): nat
    requires AllDigits(s)
    decreases |s|
  {
    if s == [] then 0 else DigitsValue(s[..|s| - 1]) * 10 + DigitValue(s[|s| - 1])
  }

  /** Reading a non-negative integer column back from the metadata table. */
  function ParseNat(s: string): (r: Option<nat>)
    ensures r.Some? <==> s != [] && AllDigits(s)
  {
    if s != [] && AllDigits(s) then Some(DigitsValue(s)) else None
  }

  lemma {:induction false} DecimalValue(n: nat)
    ensures DigitsValue(Decimal(n)) == n
    decreases n
  {
    if n >= 10 {
      var s := Decimal(n);
      assert s[..|s| - 1] == Decimal(n / 10);
      DecimalValue(n / 10);
    }
  }

  /** Writing a number and reading it back gives the number. */
  lemma ParseDecimal(n: nat)
    ensures ParseNat(Decimal(n)) == Some(n)
  {
    DecimalValue(n);
  }

  lemma DecimalInjective(a: nat, b: nat)
    ensures Decimal(a) == Decimal(b) <==> a == b
  {
    if Decimal(a) == Decimal(b) {
      DecimalValue(a);
      DecimalValue(b);
    }
  }

  /** The position of the last occurrence of `c` in `s`, or -1. */
  function LastIndex(s: string, c: char): (k: int)
    ensures -1 <= k < |s|
    decreases |s|
  {
    if s == [] then -1 else if s[|s| - 1] == c then |s| - 1 else LastIndex(s[..|s| - 1], c)
  }

  lemma {:induction false} LastIndexOfSplit(a: string, sep: char, d: string)
    requires sep !in d
    ensures LastIndex(a + [sep] + d, sep) == |a|
    decreases |d|
  {
    if d != [] {
      var s := a + [sep] + d;
      assert s[|s| - 1] == d[|d| - 1] != sep;
      assert s[..|s| - 1] == a + [sep] + d[..|d| - 1];
      LastIndexOfSplit(a, sep, d[..|d| - 1]);
    }
  }

  /** A string split at the last occurrence of a separator that does not occur
      in the tail can be split only one way. */
  lemma SplitAtLast(sep: char, a1: string, d1: string, a2: string, d2: string)
    requires sep !in d1 && sep !in d2
    requires a1 + [sep] + d1 == a2 + [sep] + d2
    ensures a1 == a2 && d1 == d2
  {
    var s := a1 + [sep] + d1;
    LastIndexOfSplit(a1, sep, d1);
    LastIndexOfSplit(a2, sep, d2);
    assert a1 == s[..|a1|] == a2;
    assert d1 == s[|a1| + 1..] == d2;
  }

  /** Python's `str.endswith`. */
  predicate EndsWith(s: string, suffix: string)
  {
    |suffix| <= |s| && s[|s| - |suffix|..] == suffix
  }

  function LowerChar(c: char): (r: char)
    ensures 'A' <= c <= 'Z' ==> 'a' <= r <= 'z'
    ensures !('A' <= c <= 'Z') ==> r == c
  {
    if 'A' <= c <= 'Z' then (c as int - 'A' as int + 'a' as int) as char else c
  }

  /** `str.lower` restricted to ASCII letters. */
  function Lower(s: string): (r: string)
    ensures |r| == |s|
    ensures forall k :: 0 <= k < |s| ==> r[k] == LowerChar(s[k])
  {
    seq(|s|, k requires 0 <= k < |s| => LowerChar(s[k]))
  }

  /** The extension test shared by the upload handler and the detector loop:
      `name.lower().endswith(('.jpg', '.jpeg', '.png'))`. */
  predicate HasImageExtension(name: string)
  {
    var l := Lower(name);
    EndsWith(l, ".jpg") || EndsWith(l, ".jpeg") || EndsWith(l, ".png")
  }

  lemma EndsWithSuffix(p: string, suffix: string)
    ensures EndsWith(p + suffix, suffix)
  {
    assert (p + suffix)[|p|..] == suffix;
  }

  /** Any name ending in ".jpg" passes the extension test. */
  lemma JpgIsImage(p: string)
    ensures HasImageExtension(p + ".jpg")
  {
    var l := Lower(p + ".jpg");
    assert l[|l| - 4..] == ".jpg";
  }

  /** Python's `s.replace(pat, rep)`: every non-overlapping occurrence of
      `pat`, scanned from the left, is replaced. */
  function ReplaceAll(s: string, pat: string, rep: string): string
    requires pat != []
    decreases |s|
  {
    if |s| < |pat| then s
    else if s[..|pat|] == pat then rep + ReplaceAll(s[|pat|..], pat, rep)
    else [s[0]] + ReplaceAll(s[1..], pat, rep)
  }

  /** A prefix that does not contain the first character of the pattern is
      left as it is by `ReplaceAll`. */
  lemma {:induction false} ReplaceAllSkipsPrefix(p: string, t: string, pat: string, rep: string)
    requires pat != [] && pat[0] !in p
    ensures ReplaceAll(p + t, pat, rep) == p + ReplaceAll(t, pat, rep)
    decreases |p|
  {
    if p != [] {
      var s := p + t;
      if |s| >= |pat| {
        assert s[..|pat|][0] == p[0] != pat[0];
        assert s[1..] == p[1..] + t;
        ReplaceAllSkipsPrefix(p[1..], t, pat, rep);
        calc {
          ReplaceAll(s, pat, rep);
          [s[0]] + ReplaceAll(s[1..], pat, rep);
          [p[0]] + (p[1..] + ReplaceAll(t, pat, rep));
          { assert [p[0]] + p[1..] == p; }
          p + ReplaceAll(t, pat, rep);
        }
      } else {
        assert ReplaceAll(t, pat, rep) == t;
        assert ReplaceAll(s, pat, rep) == s;
      }
    } else {
      assert p + t == t;
    }
  }

  /** A string that ends with the pattern, and has no other place where the
      pattern's first character occurs, has exactly its suffix replaced. */
  lemma ReplaceSuffix(p: string, pat: string, rep: string)
    requires pat != [] && pat[0] !in p
    ensures ReplaceAll(p + pat, pat, rep) == p + rep
  {
    ReplaceAllSkipsPrefix(p, pat, pat, rep);
    assert pat[|pat|..] == [];
  }
}
