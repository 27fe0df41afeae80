/**
 * The pieces of the JavaScript runtime and of Node's `path` module that the
 * migrator relies on: `String.prototype.trim`, POSIX `path.basename` and the
 * decimal rendering of an integer inside a template literal.
 */
module StringOps {

  /** The characters `String.prototype.trim` removes: ECMAScript WhiteSpace and LineTerminator. */
  predicate IsJsWhitespace(c: char) {
    || c == '\t' || c == '\n' || c == '\U{B}' || c == '\U{C}' || c == '\r' || c == ' '
    || c == '\U{A0}' || c == '\U{1680}' || ('\U{2000}' <= c <= '\U{200A}')
    || c == '\U{2028}' || c == '\U{2029}' || c == '\U{202F}' || c == '\U{205F}'
    || c == '\U{3000}' || c == '\U{FEFF}'
  }

  predicate AllWhitespace(s: string) {
    forall k :: 0 <= k < |s| ==> IsJsWhitespace(s[k])
  }

  /** Drops the leading whitespace: what is left is a suffix of `s`. */
  function TrimStart(s: string): (r: string)
    ensures |r| <= |s| && r == s[|s| - |r|..]
    ensures AllWhitespace(s[..|s| - |r|])
    ensures r == [] || !IsJsWhitespace(r[0])
    decreases |s|
  {
    if |s| > 0 && IsJsWhitespace(s[0]) then
      var r := TrimStart(s[1..]);
      assert s[..|s| - |r|] == [s[0]] + s[1..][..|s| - 1 - |r|];
      r
    else s
  }

  /** Drops the trailing whitespace: what is left is a prefix of `s`. */
  function TrimEnd(s: string): (r: string)
    ensures |r| <= |s| && r == s[..|r|]
    ensures AllWhitespace(s[|r|..])
    ensures r == [] || !IsJsWhitespace(r[|r| - 1])
    decreases |s|
  {
    if |s| > 0 && IsJsWhitespace(s[|s| - 1]) then
      var r := TrimEnd(s[..|s| - 1]);
      assert s[|r|..] == s[..|s| - 1][|r|..] + [s[|s| - 1]];
      r
    else s
  }

  /** `String.prototype.trim`: `s` without its leading and trailing whitespace. */
  function Trim(s: string): (r: string)
    ensures |r| <= |s|
    ensures r == [] || (!IsJsWhitespace(r[0]) && !IsJsWhitespace(r[|r| - 1]))
  {
    TrimEnd(TrimStart(s))
  }

  /** `s` is what `TrimStart` drops, then what it keeps. */
  lemma TrimStartJoin(s: string)
    ensures s == s[..|s| - |TrimStart(s)|] + TrimStart(s)
  {
  }

  /** `t` is what `TrimEnd` keeps, then what it drops. */
  lemma TrimEndJoin(t: string)
    ensures t == TrimEnd(t) + t[|TrimEnd(t)|..]
  {
  }

  /** The whitespace trimming removes from each end of `s`. */
  lemma TrimPieces(s: string)
    ensures var t := TrimStart(s);
      && AllWhitespace(s[..|s| - |t|]) && AllWhitespace(t[|Trim(s)|..])
      && s == s[..|s| - |t|] + (Trim(s) + t[|Trim(s)|..])
  {
    var t := TrimStart(s);
    TrimStartJoin(s);
    TrimEndJoin(t);
  }

  /** Trimming removes only whitespace: `s` is the trimmed text with whitespace on either side. */
  lemma TrimSplits(s: string)
    ensures exists w1, w2 :: AllWhitespace(w1) && AllWhitespace(w2) && s == w1 + (Trim(s) + w2)
  {
    TrimPieces(s);
    var t := TrimStart(s);
    var w1, w2 := s[..|s| - |t|], t[|Trim(s)|..];
    assert AllWhitespace(w1) && AllWhitespace(w2) && s == w1 + (Trim(s) + w2);
  }

  lemma {:induction false} TrimStartSkips(w: string, x: string)
    requires AllWhitespace(w)
    requires x == [] || !IsJsWhitespace(x[0])
    ensures TrimStart(w + x) == x
    decreases |w|
  {
    if w == [] {
      assert w + x == x;
    } else {
      assert (w + x)[1..] == w[1..] + x;
      TrimStartSkips(w[1..], x);
    }
  }

  lemma {:induction false} TrimEndSkips(x: string, w: string)
    requires AllWhitespace(w)
    requires x == [] || !IsJsWhitespace(x[|x| - 1])
    ensures TrimEnd(x + w) == x
    decreases |w|
  {
    if w == [] {
      assert x + w == x;
    } else {
      assert (x + w)[..|x + w| - 1] == x + w[..|w| - 1];
      TrimEndSkips(x, w[..|w| - 1]);
    }
  }

  /** Trim is determined by its contract: whitespace around a core without outer whitespace trims to that core. */
  lemma TrimCharacterization(w1: string, r: string, w2: string)
    requires AllWhitespace(w1) && AllWhitespace(w2)
    requires r == [] || (!IsJsWhitespace(r[0]) && !IsJsWhitespace(r[|r| - 1]))
    ensures Trim(w1 + r + w2) == r
  {
    if r == [] {
      assert w1 + r + w2 == (w1 + w2) + [];
      TrimStartSkips(w1 + w2, []);
    } else {
      assert w1 + r + w2 == w1 + (r + w2);
      TrimStartSkips(w1, r + w2);
      TrimEndSkips(r, w2);
    }
  }

  /** Removes the trailing `/` characters. */
  function StripTrailingSlashes(p: string): (r: string)
    ensures |r| <= |p| && r == p[..|r|]
    ensures forall k :: |r| <= k < |p| ==> p[k] == '/'
    ensures r == [] || r[|r| - 1] != '/'
    decreases |p|
  {
    if |p| > 0 && p[|p| - 1] == '/' then StripTrailingSlashes(p[..|p| - 1]) else p
  }

  /** The text after the last `/` (all of `q` when it has none). */
  function AfterLastSlash(q: string): (r: string)
    ensures |r| <= |q| && r == q[|q| - |r|..]
    ensures '/' !in r
    ensures |r| < |q| ==> q[|q| - |r| - 1] == '/'
    ensures q != [] && q[|q| - 1] != '/' ==> r != []
    decreases |q|
  {
    if |q| == 0 || q[|q| - 1] == '/' then [] else AfterLastSlash(q[..|q| - 1]) + [q[|q| - 1]]
  }

  /** Node's POSIX `path.basename(p)`: the last non-empty segment, or "" when `p` is only slashes. */
  function Basename(p: string): (r: string)
    ensures '/' !in r
    ensures (exists k :: 0 <= k < |p| && p[k] != '/') ==> r != []
  {
    AfterLastSlash(StripTrailingSlashes(p))
  }

  lemma {:induction false} AfterLastSlashJoin(dir: string, name: string)
    requires '/' !in name
    ensures AfterLastSlash(dir + "/" + name) == name
    decreases |name|
  {
    var q := dir + "/" + name;
    if name != [] {
      var n := |name|;
      assert q[..|q| - 1] == dir + "/" + name[..n - 1];
      AfterLastSlashJoin(dir, name[..n - 1]);
      assert name == name[..n - 1] + [name[n - 1]];
    }
  }

  /** Basename undoes joining a directory and a file name. */
  lemma BasenameOfJoin(dir: string, name: string)
    requires name != [] && '/' !in name
    ensures Basename(dir + "/" + name) == name
  {
    AfterLastSlashJoin(dir, name);
  }

  function DigitChar(d: nat): char
    requires d < 10
  {
    "0123456789"[d]
  }

  function DigitValue(c: char): nat
    requires '0' <= c <= '9'
  {
    (c as int) - ('0' as int)
  }

  predicate IsDigits(s: string) {
    s != [] && forall k :: 0 <= k < |s| ==> '0' <= s[k] <= '9'
  }

  /** The decimal digits of a natural number, most significant first, without leading zeros. */
  function NatDigits(n: nat): (r: string)
    ensures IsDigits(r)
    ensures |r| > 1 ==> r[0] != '0'
    decreases n
  {
    if n < 10 then [DigitChar(n)] else NatDigits(n / 10) + [DigitChar(n % 10)]
  }

  function ParseDigits(s: string): nat
    requires IsDigits(s)
    decreases |s|
  {
    if |s| == 1 then DigitValue(s[0])
    else ParseDigits(s[..|s| - 1]) * 10 + DigitValue(s[|s| - 1])
  }

  /** `${n}` for an integer-valued JavaScript number. */
  function Decimal(n: int): (r: string)
    ensures '/' !in r
  {
    if n < 0 then "-" + NatDigits(-n) else NatDigits(n)
  }

  /** An optional minus sign followed by digits. */
  predicate IsDecimalText(s: string) {
    IsDigits(s) || (s != [] && s[0] == '-' && IsDigits(s[1..]))
  }

  function ParseDecimal(s: string): int
    requires IsDecimalText(s)
  {
    if s[0] == '-' then -(ParseDigits(s[1..]) as int) else ParseDigits(s)
  }

  lemma {:induction false} NatDigitsRoundTrip(n: nat)
    ensures ParseDigits(NatDigits(n)) == n
    decreases n
  {
    if n >= 10 {
      var d := NatDigits(n);
      assert d[..|d| - 1] == NatDigits(n / 10);
      NatDigitsRoundTrip(n / 10);
    }
  }

  /** Parsing the decimal rendering gives the number back. */
  lemma DecimalRoundTrip(n: int)
    ensures IsDecimalText(Decimal(n)) && ParseDecimal(Decimal(n)) == n
  {
    if n < 0 {
      NegativeRoundTrip(n);
    } else {
      NatDigitsParse(n);
    }
  }

  lemma NatDigitsParse(n: nat)
    ensures IsDecimalText(NatDigits(n)) && ParseDecimal(NatDigits(n)) == n
  {
    var s := NatDigits(n);
    assert s[0] != '-';
    NatDigitsRoundTrip(n);
  }

  lemma NegativeRoundTrip(n: int)
    requires n < 0
    ensures IsDecimalText(Decimal(n)) && ParseDecimal(Decimal(n)) == n
  {
    var d := NatDigits(-n);
    var s := "-" + d;
    assert s[1..] == d;
    NatDigitsRoundTrip(-n);
  }

  /** Distinct integers render as distinct decimal strings. */
  lemma DecimalInjective(a: int, b: int)
    requires Decimal(a) == Decimal(b)
    ensures a == b
  {
    DecimalRoundTrip(a);
    DecimalRoundTrip(b);
  }
}
