/** Decimal rendering of integers, zero padding, and splitting and joining on
    a separator character, stripping, and Python's `int()` of a decimal
    string: the string operations that JavaScript template literals
    (`toString`, `padStart`) and Python (`str`, `split`, `join`, `strip`,
    `int`) perform in the modelled code. */
module Text {
  import opened Wrappers

  predicate IsDigit(c: char) { '0' <= c <= '9' }

  predicate AllDigits(s: string) { forall i :: 0 <= i < |s| ==> IsDigit(s[i]) }

  function DigitChar(d: nat): (c: char)
    requires d < 10
    ensures IsDigit(c) && (c as int) - ('0' as int) == d
  {
    (('0' as int) + d) as char
  }

  function DigitValue(c: char): (d: nat)
    requires IsDigit(c)
    ensures d < 10
  {
    (c as int) - ('0' as int)
  }

  /** Value of a string of decimal digits, most significant first. */
  function DigitsValue(s: string): nat
    requires AllDigits(s)
  {
    if s == [] then 0 else DigitsValue(s[..|s| - 1]) * 10 + DigitValue(s[|s| - 1])
  }

  /** Decimal rendering of a natural number without leading zeros, as
      JavaScript's `Number.prototype.toString()` and Python's `str` give it. */
  function NatToString(n: nat): (s: string)
    ensures |s| >= 1
  {
    if n < 10 then [DigitChar(n)] else NatToString(n / 10) + [DigitChar(n % 10)]
  }

  /** Decimal rendering of an integer; negative numbers get a leading '-'. */
  function IntToString(i: int): (s: string)
    ensures |s| >= 1
  {
    if i < 0 then "-" + NatToString(-i) else NatToString(i)
  }

  /** `s.padStart(width, c)`: prefix copies of `c` until `s` is `width` long. */
  function PadStart(s: string, width: nat, c: char): (r: string)
    ensures |r| == if |s| >= width then |s| else width
    ensures |s| >= width ==> r == s
    ensures |s| < width ==> r[width - |s|..] == s && forall i :: 0 <= i < width - |s| ==> r[i] == c
  {
    if |s| >= width then s else seq(width - |s|, _ => c) + s
  }

  lemma {:induction false} NatToStringDigits(n: nat)
    ensures AllDigits(NatToString(n))
    ensures DigitsValue(NatToString(n)) == n
  {
    var s := NatToString(n);
    if n >= 10 {
      NatToStringDigits(n / 10);
      assert s[..|s| - 1] == NatToString(n / 10);
    }
  }

  /** The rendering is as short as the number allows: below 10^k it has at most k digits. */
  lemma {:induction false} NatToStringLength(n: nat, k: nat)
    requires n < Pow10(k)
    ensures |NatToString(n)| <= if k == 0 then 1 else k
  {
    if n >= 10 {
      assert k != 0 && k != 1;
      NatToStringLength(n / 10, k - 1);
    }
  }

  function Pow10(k: nat): (p: nat)
    ensures p >= 1
  {
    if k == 0 then 1 else 10 * Pow10(k - 1)
  }

  /** Leading zeros do not change the value of a digit string. */
  lemma {:induction false} LeadingZerosValue(z: nat, s: string)
    requires AllDigits(s)
    ensures AllDigits(seq(z, _ => '0') + s)
    ensures DigitsValue(seq(z, _ => '0') + s) == DigitsValue(s)
  {
    var t := seq(z, _ => '0') + s;
    if s == [] {
      ZerosValue(z);
      assert t == seq(z, _ => '0');
    } else {
      LeadingZerosValue(z, s[..|s| - 1]);
      assert t[..|t| - 1] == seq(z, _ => '0') + s[..|s| - 1];
    }
  }

  lemma {:induction false} ZerosValue(z: nat)
    ensures AllDigits(seq(z, _ => '0'))
    ensures DigitsValue(seq(z, _ => '0')) == 0
  {
    if z > 0 {
      ZerosValue(z - 1);
      assert seq(z, _ => '0')[..z - 1] == seq(z - 1, _ => '0');
    }
  }

  /** Zero padding a rendered number to `width` digits keeps its value, and
      gives exactly `width` digits when the number is below 10^width. */
  lemma PaddedNat(n: nat, width: nat)
    ensures AllDigits(PadStart(NatToString(n), width, '0'))
    ensures DigitsValue(PadStart(NatToString(n), width, '0')) == n
    ensures width >= 1 && n < Pow10(width) ==> |PadStart(NatToString(n), width, '0')| == width
  {
    var s := NatToString(n);
    NatToStringDigits(n);
    if |s| < width {
      LeadingZerosValue(width - |s|, s);
    }
    if width >= 1 && n < Pow10(width) {
      NatToStringLength(n, width);
    }
  }

  /** Python's `str.split(sep)` and JavaScript's `split` for a one-character separator. */
  function Split(s: string, sep: char): (r: seq<string>)
    ensures |r| >= 1
  {
    if s == [] then [""]
    else if s[0] == sep then [""] + Split(s[1..], sep)
    else var rest := Split(s[1..], sep); [[s[0]] + rest[0]] + rest[1..]
  }

  /** Python's `sep.join(parts)`. */
  function Join(parts: seq<string>, sep: string): string
  {
    if parts == [] then "" else if |parts| == 1 then parts[0] else parts[0] + sep + Join(parts[1..], sep)
  }

  lemma {:induction false} SplitNoSeparator(s: string, sep: char)
    requires sep !in s
    ensures Split(s, sep) == [s]
  {
    if s != [] {
      SplitNoSeparator(s[1..], sep);
      assert [s[0]] + s[1..] == s;
    }
  }

  lemma {:induction false} SplitAfterPart(a: string, sep: char, b: string)
    requires sep !in a
    ensures Split(a + [sep] + b, sep) == [a] + Split(b, sep)
  {
    if a == [] {
      assert (a + [sep] + b)[1..] == b;
    } else {
      SplitAfterPart(a[1..], sep, b);
      assert (a + [sep] + b)[1..] == a[1..] + [sep] + b;
      assert [a[0]] + a[1..] == a;
    }
  }

  /** Splitting a join on a separator that no part contains gives back the parts. */
  lemma {:induction false} SplitJoin(parts: seq<string>, sep: char)
    requires |parts| >= 1
    requires forall i :: 0 <= i < |parts| ==> sep !in parts[i]
    ensures Split(Join(parts, [sep]), sep) == parts
  {
    if |parts| == 1 {
      SplitNoSeparator(parts[0], sep);
    } else {
      SplitJoin(parts[1..], sep);
      SplitAfterPart(parts[0], sep, Join(parts[1..], [sep]));
      assert parts[0] + [sep] + Join(parts[1..], [sep]) == Join(parts, [sep]);
    }
  }

  lemma JoinPrepend(x: string, rest: seq<string>, sep: string)
    requires |rest| >= 1
    ensures Join([x] + rest, sep) == x + sep + Join(rest, sep)
  {
    assert ([x] + rest)[1..] == rest;
  }
  /** The characters Python's `str.strip()` and `int()` remove: those for
      which `str.isspace()` holds, ASCII and Unicode alike. */
  const Whitespace: set<char> := {
    ' ', '\t', '\n', '\r', '\U{B}', '\U{C}', '\U{1C}', '\U{1D}', '\U{1E}', '\U{1F}',
    '\U{85}', '\U{A0}', '\U{1680}',
    '\U{2000}', '\U{2001}', '\U{2002}', '\U{2003}', '\U{2004}', '\U{2005}',
    '\U{2006}', '\U{2007}', '\U{2008}', '\U{2009}', '\U{200A}',
    '\U{2028}', '\U{2029}', '\U{202F}', '\U{205F}', '\U{3000}'}

  /** Whitespace lies outside the printable ASCII range, so digits, signs
      and other visible ASCII characters are never stripped. */
  lemma WhitespaceOutsidePrintable(c: char)
    requires ' ' < c < '\U{85}'
    ensures c !in Whitespace
  {
  }

  /** `s.lstrip(chars)`: the longest suffix of `s` not starting with one of `cs`. */
  function LStrip(s: string, cs: set<char>): (r: string)
    ensures |r| <= |s| && r == s[|s| - |r|..]
    ensures forall i :: 0 <= i < |s| - |r| ==> s[i] in cs
    ensures r != [] ==> r[0] !in cs
  {
    if s != [] && s[0] in cs then LStrip(s[1..], cs) else s
  }

  /** `s.rstrip(chars)`: the longest prefix of `s` not ending with one of `cs`. */
  function RStrip(s: string, cs: set<char>): (r: string)
    ensures |r| <= |s| && r == s[..|r|]
    ensures forall i :: |r| <= i < |s| ==> s[i] in cs
    ensures r != [] ==> r[|r| - 1] !in cs
  {
    if s != [] && s[|s| - 1] in cs then RStrip(s[..|s| - 1], cs) else s
  }

  /** `s.strip(chars)` */
  function Strip(s: string, cs: set<char>): string
  {
    RStrip(LStrip(s, cs), cs)
  }

  /** A string that neither starts nor ends with a character of `cs` is its own strip. */
  lemma StripUnchanged(s: string, cs: set<char>)
    requires s != [] ==> s[0] !in cs && s[|s| - 1] !in cs
    ensures Strip(s, cs) == s
  {
  }

  /** Python's `int(s)` in base 10: surrounding whitespace, an optional sign
      and at least one decimal digit; anything else raises (`None`). */
  function ParseInt(s: string): Option<int>
  {
    var t := Strip(s, Whitespace);
    if |t| >= 2 && (t[0] == '-' || t[0] == '+') && AllDigits(t[1..]) then
      Some(if t[0] == '-' then -(DigitsValue(t[1..]) as int) else DigitsValue(t[1..]))
    else if |t| >= 1 && AllDigits(t) then Some(DigitsValue(t))
    else None
  }

  /** A string that starts with neither a sign nor a digit, and needs no
      stripping, is not an integer. */
  lemma ParseIntRejects(s: string)
    requires s != [] && s[0] !in Whitespace && s[|s| - 1] !in Whitespace
    requires !IsDigit(s[0]) && s[0] != '-' && s[0] != '+'
    ensures ParseInt(s) == None
  {
    StripUnchanged(s, Whitespace);
  }

  /** `str(n)` is made of digits and at most a leading '-'. */
  lemma IntToStringChars(n: int)
    ensures forall i :: 0 <= i < |IntToString(n)| ==> IsDigit(IntToString(n)[i]) || (i == 0 && IntToString(n)[i] == '-')
  {
    var s := IntToString(n);
    if n < 0 {
      NatToStringDigits(-n);
      assert forall i :: 1 <= i < |s| ==> s[i] == NatToString(-n)[i - 1];
    } else {
      NatToStringDigits(n);
    }
  }

  /** `int(str(n)) == n` */
  lemma ParseIntToString(n: int)
    ensures ParseInt(IntToString(n)) == Some(n)
  {
    var s := IntToString(n);
    if n < 0 {
      NatToStringDigits(-n);
      assert s[1..] == NatToString(-n);
    } else {
      NatToStringDigits(n);
    }
    WhitespaceOutsidePrintable(s[0]);
    WhitespaceOutsidePrintable(s[|s| - 1]);
    StripUnchanged(s, Whitespace);
  }
}
