/** Python's `uuid.UUID`: a 128-bit value, rendered by `str()` as 32 lowercase
    hexadecimal digits grouped 8-4-4-4-12 by hyphens, and parsed back by
    `UUID(s)` after surrounding braces and all hyphens are removed. */
module Uuids {
  import opened Wrappers
  import opened Text

  /** The 32 hexadecimal digits of the value, most significant first. */
  type Uuid = d: seq<int> | |d| == 32 && forall i :: 0 <= i < |d| ==> 0 <= d[i] < 16
    witness seq(32, _ => 0)

  predicate IsHex(c: char)
  {
    '0' <= c <= '9' || 'a' <= c <= 'f' || 'A' <= c <= 'F'
  }

  function HexChar(d: int): (c: char)
    requires 0 <= d < 16
    ensures IsHex(c) && c != '-' && c != '/' && c != '{' && c != '}'
  {
    if d < 10 then (('0' as int) + d) as char else (('a' as int) + d - 10) as char
  }

  /** The digit a hexadecimal character stands for, either case. */
  function HexValue(c: char): (d: int)
    requires IsHex(c)
    ensures 0 <= d < 16
  {
    if '0' <= c <= '9' then (c as int) - ('0' as int)
    else if 'a' <= c <= 'f' then (c as int) - ('a' as int) + 10
    else (c as int) - ('A' as int) + 10
  }

  function Hex(ds: seq<int>): (s: string)
    requires forall i :: 0 <= i < |ds| ==> 0 <= ds[i] < 16
    ensures |s| == |ds|
  {
    seq(|ds|, i requires 0 <= i < |ds| => HexChar(ds[i]))
  }

  /** `str(u)` */
  function Format(u: Uuid): (s: string)
    ensures |s| == 36
  {
    Hex(u[..8]) + "-" + Hex(u[8..12]) + "-" + Hex(u[12..16]) + "-" + Hex(u[16..20]) + "-" + Hex(u[20..])
  }

  /** `str(u)` has hyphens at 8, 13, 18 and 23 and hexadecimal digits
      elsewhere; in particular no '/'. */
  lemma FormatShape(u: Uuid)
    ensures var s := Format(u);
      && s[8] == '-' && s[13] == '-' && s[18] == '-' && s[23] == '-'
      && '/' !in s
      && (forall i :: 0 <= i < 36 && i != 8 && i != 13 && i != 18 && i != 23 ==> IsHex(s[i]))
  {
  }

  /** `s.replace('-', '')` */
  function RemoveHyphens(s: string): (r: string)
    ensures '-' !in r
  {
    if s == [] then [] else (if s[0] == '-' then [] else [s[0]]) + RemoveHyphens(s[1..])
  }

  lemma {:induction false} RemoveHyphensAppend(a: string, b: string)
    ensures RemoveHyphens(a + b) == RemoveHyphens(a) + RemoveHyphens(b)
  {
    if a != [] {
      RemoveHyphensAppend(a[1..], b);
      var x := if a[0] == '-' then [] else [a[0]];
      assert (a + b)[0] == a[0];
      assert (a + b)[1..] == a[1..] + b;
      assert RemoveHyphens(a + b) == x + RemoveHyphens(a[1..] + b);
      assert RemoveHyphens(a) == x + RemoveHyphens(a[1..]);
    } else {
      assert a + b == b;
    }
  }

  lemma {:induction false} RemoveHyphensNone(s: string)
    requires '-' !in s
    ensures RemoveHyphens(s) == s
  {
    if s != [] {
      RemoveHyphensNone(s[1..]);
      assert [s[0]] + s[1..] == s;
    }
  }

  /** `UUID(s)`: braces stripped from both ends, hyphens removed, then exactly
      32 hexadecimal digits; anything else raises (`None`). */
  function Parse(s: string): (r: Option<Uuid>)
    ensures r.Some? ==> |RemoveHyphens(Strip(s, {'{', '}'}))| == 32
  {
    var h := RemoveHyphens(Strip(s, {'{', '}'}));
    if |h| == 32 && forall i :: 0 <= i < 32 ==> IsHex(h[i]) then
      Some(seq(32, i requires 0 <= i < 32 => HexValue(h[i])))
    else None
  }

  lemma RemoveHyphensFirst(y: string)
    ensures RemoveHyphens("-" + y) == RemoveHyphens(y)
  {
    assert ("-" + y)[0] == '-';
    assert ("-" + y)[1..] == y;
  }

  lemma RemoveHyphensGroup(x: string, y: string)
    requires '-' !in y
    ensures RemoveHyphens(x + "-" + y) == RemoveHyphens(x) + y
  {
    assert x + "-" + y == x + ("-" + y);
    RemoveHyphensAppend(x, "-" + y);
    RemoveHyphensNone(y);
    RemoveHyphensFirst(y);
  }

  lemma HexNoHyphen(ds: seq<int>)
    requires forall k :: 0 <= k < |ds| ==> 0 <= ds[k] < 16
    ensures '-' !in Hex(ds)
  {
    forall k | 0 <= k < |ds|
      ensures Hex(ds)[k] != '-'
    {
    }
  }

  lemma HexConcat(u: Uuid, i: int, j: int, k: int)
    requires 0 <= i <= j <= k <= 32
    ensures Hex(u[i..j]) + Hex(u[j..k]) == Hex(u[i..k])
  {
  }

  /** Removing the hyphens of `str(u)` leaves the 32 digits. */
  lemma FormatDigits(u: Uuid)
    ensures RemoveHyphens(Format(u)) == Hex(u)
  {
    var a, b, c, d, e := Hex(u[..8]), Hex(u[8..12]), Hex(u[12..16]), Hex(u[16..20]), Hex(u[20..]);
    HexNoHyphen(u[..8]);
    HexNoHyphen(u[8..12]);
    HexNoHyphen(u[12..16]);
    HexNoHyphen(u[16..20]);
    HexNoHyphen(u[20..]);
    RemoveHyphensNone(a);
    RemoveHyphensGroup(a, b);
    RemoveHyphensGroup(a + "-" + b, c);
    RemoveHyphensGroup(a + "-" + b + "-" + c, d);
    RemoveHyphensGroup(a + "-" + b + "-" + c + "-" + d, e);
    assert u[..8] == u[0..8] && u[20..] == u[20..32] && u == u[0..32];
    HexConcat(u, 0, 8, 12);
    HexConcat(u, 0, 12, 16);
    HexConcat(u, 0, 16, 20);
    HexConcat(u, 0, 20, 32);
  }

  lemma HexCharValue(d: int)
    requires 0 <= d < 16
    ensures HexValue(HexChar(d)) == d
  {
  }

  /** `UUID(str(u)) == u` */
  lemma FormatParse(u: Uuid)
    ensures Parse(Format(u)) == Some(u)
  {
    StripUnchanged(Format(u), {'{', '}'});
    FormatDigits(u);
    var h := Hex(u);
    forall i | 0 <= i < 32
      ensures IsHex(h[i]) && HexValue(h[i]) == u[i]
    {
      HexCharValue(u[i]);
    }
    assert seq(32, i requires 0 <= i < 32 => HexValue(h[i])) == u;
  }
}
