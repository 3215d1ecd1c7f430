/**
 * The pieces of Python's built-in text handling that the log digest relies on:
 * `str.split`, `str.replace`, `str.isspace`, `int(str)` and the decimal
 * rendering `str(n)` / `"%0Nd" % n`.
 */
module Text {
  import opened Wrappers

  // ---------------------------------------------------------------- characters

  predicate IsDigit(c: char) { '0' <= c <= '9' }

  predicate NotColon(c: char) { c != ':' }

  /** Python's `str.isspace` on one character (the characters `int()` strips). */
  predicate IsSpace(c: char) {
    || ('\t' <= c <= '\r')
    || ('\U{1C}' <= c <= '\U{1F}')
    || c == ' ' || c == '\U{85}' || c == '\U{A0}' || c == '\U{1680}'
    || ('\U{2000}' <= c <= '\U{200A}')
    || c == '\U{2028}' || c == '\U{2029}' || c == '\U{202F}' || c == '\U{205F}' || c == '\U{3000}'
  }

  /** Every character of `s` satisfies `p`. */
  predicate All(s: string, p: char -> bool) {
    forall i :: 0 <= i < |s| ==> p(s[i])
  }

  function DigitValue(c: char): nat
    requires IsDigit(c)
  {
    c as int - '0' as int
  }

  function DigitChar(d: nat): (c: char)
    requires d < 10
    ensures IsDigit(c) && DigitValue(c) == d
  {
    ('0' as int + d) as char
  }

  // ---------------------------------------------------------------- decimal numbers

  function Pow10(k: nat): (p: nat)
    ensures p >= 1
  {
    if k == 0 then 1 else 10 * Pow10(k - 1)
  }

  /** The value of a string of decimal digits, most significant digit first. */
  function DigitsValue(s: string): nat
    requires All(s, IsDigit)
  {
    if s == [] then 0 else 10 * DigitsValue(s[..|s| - 1]) + DigitValue(s[|s| - 1])
  }

  /** A digit string as Python's `str(n)` writes one: no leading zero except "0" itself. */
  predicate Canonical(s: string) {
    |s| > 0 && All(s, IsDigit) && (s[0] == '0' ==> |s| == 1)
  }

  /** `str(n)` for a non-negative integer. */
  function Dec(n: nat): (s: string)
    ensures Canonical(s)
    ensures n < 10 <==> |s| == 1
  {
    if n < 10 then [DigitChar(n)] else Dec(n / 10) + [DigitChar(n % 10)]
  }

  function Zeros(k: nat): (z: string)
    ensures |z| == k && All(z, c => c == '0')
  {
    if k == 0 then [] else Zeros(k - 1) + ['0']
  }

  /** `"%0*d" % (width, n)`: zero-padded on the left to `width` characters. */
  function Pad(n: nat, width: nat): string
  {
    var d := Dec(n);
    if |d| < width then Zeros(width - |d|) + d else d
  }

  lemma {:induction false} DecValue(n: nat)
    ensures DigitsValue(Dec(n)) == n
  {
    if n >= 10 {
      var d := Dec(n);
      assert d[..|d| - 1] == Dec(n / 10);
      DecValue(n / 10);
    }
  }

  lemma {:induction false} PositiveValue(s: string)
    requires Canonical(s) && s[0] != '0'
    ensures DigitsValue(s) > 0
  {
    if |s| > 1 {
      PositiveValue(s[..|s| - 1]);
    }
  }

  /** A canonical digit string is the rendering of its own value. */
  lemma {:induction false} CanonicalIsDec(s: string)
    requires Canonical(s)
    ensures Dec(DigitsValue(s)) == s
  {
    if |s| > 1 {
      var init := s[..|s| - 1];
      assert init[0] == s[0];
      PositiveValue(init);
      CanonicalIsDec(init);
      assert s == init + [s[|s| - 1]];
    }
  }

  lemma {:induction false} DecLength(n: nat, w: nat)
    requires 1 <= w && n < Pow10(w)
    ensures |Dec(n)| <= w
  {
    if n >= 10 {
      DecLength(n / 10, w - 1);
    }
  }

  lemma {:induction false} LeadingZerosValue(z: string, s: string)
    requires All(z, c => c == '0') && All(s, IsDigit)
    ensures All(z + s, IsDigit) && DigitsValue(z + s) == DigitsValue(s)
  {
    if s == [] {
      assert z + s == z;
      ZerosValue(z);
    } else {
      var init := s[..|s| - 1];
      LeadingZerosValue(z, init);
      assert (z + s)[..|z + s| - 1] == z + init;
    }
  }

  lemma {:induction false} ZerosValue(z: string)
    requires All(z, c => c == '0')
    ensures All(z, IsDigit) && DigitsValue(z) == 0
  {
    if z != [] {
      ZerosValue(z[..|z| - 1]);
    }
  }

  /** A digit string is below the next power of ten. */
  lemma {:induction false} DigitsBound(s: string)
    requires All(s, IsDigit)
    ensures DigitsValue(s) < Pow10(|s|)
  {
    if s != [] {
      DigitsBound(s[..|s| - 1]);
    }
  }

  lemma {:induction false} Pow10Monotone(j: nat, k: nat)
    requires j <= k
    ensures Pow10(j) <= Pow10(k)
  {
    if j < k {
      Pow10Monotone(j, k - 1);
    }
  }

  /** `"%0*d"` yields exactly `width` digits whose value is `n`, when `n` fits. */
  lemma PadValue(n: nat, width: nat)
    requires 1 <= width && n < Pow10(width)
    ensures |Pad(n, width)| == width && All(Pad(n, width), IsDigit)
    ensures DigitsValue(Pad(n, width)) == n
  {
    DecLength(n, width);
    DecValue(n);
    if |Dec(n)| < width {
      LeadingZerosValue(Zeros(width - |Dec(n)|), Dec(n));
    }
  }

  // ---------------------------------------------------------------- int(str)

  /** CPython refuses to convert a decimal string of more digits than this. */
  const MaxStrDigits: nat := 4300

  function LStrip(s: string): (r: string)
    ensures |r| <= |s| && r == s[|s| - |r|..]
    ensures r == [] || !IsSpace(r[0])
  {
    if s != [] && IsSpace(s[0]) then LStrip(s[1..]) else s
  }

  function RStrip(s: string): (r: string)
    ensures |r| <= |s| && r == s[..|r|]
    ensures r == [] || !IsSpace(r[|r| - 1])
  {
    if s != [] && IsSpace(s[|s| - 1]) then RStrip(s[..|s| - 1]) else s
  }

  predicate IsDigitOrUnderscore(c: char) { IsDigit(c) || c == '_' }

  /** Digits in which single underscores may separate two digits, as `int()` allows. */
  predicate Underscored(s: string) {
    && |s| > 0 && IsDigit(s[0]) && IsDigit(s[|s| - 1])
    && All(s, IsDigitOrUnderscore)
    && forall i :: 0 <= i < |s| - 1 && s[i] == '_' ==> s[i + 1] != '_'
  }

  function WithoutUnderscores(s: string): (r: string)
    requires All(s, IsDigitOrUnderscore)
    ensures All(r, IsDigit) && |r| <= |s|
  {
    if s == [] then []
    else if s[0] == '_' then WithoutUnderscores(s[1..])
    else [s[0]] + WithoutUnderscores(s[1..])
  }

  /**
   * Python's `int(s)` for a `str` argument and base 10; `None` where it raises
   * ValueError. Because of the digit limit, every value it yields has at most
   * 4300 digits.
   */
  function PyInt(s: string): (r: Option<int>)
    ensures r.Some? ==> -(Pow10(MaxStrDigits) as int) < r.value < Pow10(MaxStrDigits)
  {
    var t := RStrip(LStrip(s));
    var negative := |t| > 0 && t[0] == '-';
    var body := if |t| > 0 && (t[0] == '+' || t[0] == '-') then t[1..] else t;
    if !Underscored(body) then None
    else
      var digits := WithoutUnderscores(body);
      if |digits| > MaxStrDigits then None
      else
        DigitsBound(digits);
        Pow10Monotone(|digits|, MaxStrDigits);
        if negative then Some(-(DigitsValue(digits) as int))
        else Some(DigitsValue(digits))
  }

  lemma {:induction false} NoUnderscores(s: string)
    requires All(s, IsDigit)
    ensures WithoutUnderscores(s) == s
  {
    if s != [] {
      NoUnderscores(s[1..]);
    }
  }

  /** A plain run of at most 4300 ASCII digits converts to its decimal value. */
  lemma DigitRunToInt(s: string)
    requires |s| > 0 && All(s, IsDigit) && |s| <= MaxStrDigits
    ensures PyInt(s) == Some(DigitsValue(s) as int)
  {
    assert !IsSpace(s[0]) && !IsSpace(s[|s| - 1]);
    assert LStrip(s) == s;
    assert RStrip(s) == s;
    assert s[0] != '+' && s[0] != '-';
    DigitsUnderscored(s);
    NoUnderscores(s);
  }

  lemma DigitsUnderscored(s: string)
    requires |s| > 0 && All(s, IsDigit)
    ensures Underscored(s)
  {
    assert forall i :: 0 <= i < |s| ==> IsDigitOrUnderscore(s[i]);
  }

  /** `int(str(n)) == n`. */
  lemma IntOfDec(n: nat)
    requires |Dec(n)| <= MaxStrDigits
    ensures PyInt(Dec(n)) == Some(n as int)
  {
    DigitRunToInt(Dec(n));
    DecValue(n);
  }

  // ---------------------------------------------------------------- str.split / join

  function Count(s: string, c: char): nat
  {
    if s == [] then 0 else (if s[0] == c then 1 else 0) + Count(s[1..], c)
  }

  /** `s.split(sep)` for a one-character separator: one more piece than separators. */
  function Split(s: string, sep: char): (r: seq<string>)
    ensures |r| == Count(s, sep) + 1
    ensures forall i :: 0 <= i < |r| ==> sep !in r[i]
  {
    if s == [] then [[]]
    else
      var rest := Split(s[1..], sep);
      if s[0] == sep then [[]] + rest
      else [[s[0]] + rest[0]] + rest[1..]
  }

  /** `sep.join(parts)`. */
  function Join(parts: seq<string>, sep: char): string
  {
    if parts == [] then []
    else if |parts| == 1 then parts[0]
    else parts[0] + [sep] + Join(parts[1..], sep)
  }

  /** Joining the pieces of a split gives back the original text. */
  lemma {:induction false} JoinOfSplit(s: string, sep: char)
    ensures Join(Split(s, sep), sep) == s
  {
    if s != [] {
      var rest := Split(s[1..], sep);
      JoinOfSplit(s[1..], sep);
      if s[0] == sep {
        assert s == [] + [sep] + s[1..];
      } else if |rest| == 1 {
        assert s == [s[0]] + rest[0];
      } else {
        var r := Split(s, sep);
        assert r[1..] == rest[1..];
        assert s == [s[0]] + (rest[0] + [sep] + Join(rest[1..], sep));
      }
    }
  }

  lemma {:induction false} SplitWithout(x: string, sep: char)
    requires sep !in x
    ensures Split(x, sep) == [x]
  {
    if x != [] {
      SplitWithout(x[1..], sep);
      assert [x[0]] + x[1..] == x;
    }
  }

  lemma {:induction false} SplitAtFirst(x: string, sep: char, y: string)
    requires sep !in x
    ensures Split(x + [sep] + y, sep) == [x] + Split(y, sep)
  {
    if x == [] {
      assert x + [sep] + y == [sep] + y;
      assert ([sep] + y)[1..] == y;
    } else {
      SplitAtFirst(x[1..], sep, y);
      assert (x + [sep] + y)[1..] == x[1..] + [sep] + y;
      assert [x[0]] + x[1..] == x;
    }
  }

  /** Splitting pieces that hold no separator, once joined, gives back the pieces. */
  lemma {:induction false} SplitOfJoin(parts: seq<string>, sep: char)
    requires |parts| > 0
    requires forall i :: 0 <= i < |parts| ==> sep !in parts[i]
    ensures Split(Join(parts, sep), sep) == parts
  {
    if |parts| == 1 {
      SplitWithout(parts[0], sep);
    } else {
      SplitOfJoin(parts[1..], sep);
      SplitAtFirst(parts[0], sep, Join(parts[1..], sep));
      assert [parts[0]] + parts[1..] == parts;
    }
  }

  /** `s.split(sep, 1)`: the text before and after the first separator, if any. */
  function SplitFirst(s: string, sep: char): (r: Option<(string, string)>)
    ensures r.None? <==> sep !in s
    ensures r.Some? ==> s == r.value.0 + [sep] + r.value.1 && sep !in r.value.0
  {
    if s == [] then None
    else if s[0] == sep then Some(([], s[1..]))
    else match SplitFirst(s[1..], sep)
      case None => None
      case Some((a, b)) => Some(([s[0]] + a, b))
  }

  // ---------------------------------------------------------------- str.replace

  /** `s.replace(pat, rep)`: every non-overlapping occurrence, scanning left to right. */
  function Replace(s: string, pat: string, rep: string): string
    requires |pat| > 0
  {
    if |s| < |pat| then s
    else if s[..|pat|] == pat then rep + Replace(s[|pat|..], pat, rep)
    else [s[0]] + Replace(s[1..], pat, rep)
  }

  /** Text that cannot start an occurrence is copied unchanged. */
  lemma {:induction false} ReplaceSkips(x: string, y: string, pat: string, rep: string)
    requires |pat| > 0 && pat[0] !in x
    ensures Replace(x + y, pat, rep) == x + Replace(y, pat, rep)
  {
    if x != [] {
      var s := x + y;
      assert x[0] in x;
      assert s[1..] == x[1..] + y;
      ReplaceSkips(x[1..], y, pat, rep);
      if |s| >= |pat| {
        assert s[..|pat|][0] == x[0] != pat[0];
        assert Replace(s, pat, rep) == [x[0]] + Replace(s[1..], pat, rep);
        assert Replace(s, pat, rep) == [x[0]] + x[1..] + Replace(y, pat, rep);
      } else {
        ReplaceShort(s, pat, rep);
        ReplaceShort(y, pat, rep);
      }
      assert [x[0]] + x[1..] == x;
    } else {
      assert x + y == y;
    }
  }

  lemma ReplaceShort(s: string, pat: string, rep: string)
    requires 0 < |pat| && |s| < |pat|
    ensures Replace(s, pat, rep) == s
  {
  }

  /** An occurrence at the front is replaced. */
  lemma ReplaceFront(y: string, pat: string, rep: string)
    requires |pat| > 0
    ensures Replace(pat + y, pat, rep) == rep + Replace(y, pat, rep)
  {
    assert (pat + y)[..|pat|] == pat;
    assert (pat + y)[|pat|..] == y;
  }

  // ---------------------------------------------------------------- scanning

  /** The longest prefix of `s` whose characters all satisfy `p`. */
  function TakeWhile(s: string, p: char -> bool): (r: string)
    ensures r <= s && All(r, p)
    ensures |r| == |s| || !p(s[|r|])
  {
    if s != [] && p(s[0]) then [s[0]] + TakeWhile(s[1..], p) else []
  }

  /** The prefix is determined by the first character that fails `p`. */
  lemma TakeWhileOf(x: string, y: string, p: char -> bool)
    requires All(x, p) && (y == [] || !p(y[0]))
    ensures TakeWhile(x + y, p) == x
  {
    var r := TakeWhile(x + y, p);
    assert |r| == |x|;
    assert r == (x + y)[..|x|];
  }
}
