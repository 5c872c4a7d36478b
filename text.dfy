/** String operations the controllers rely on: lower-casing, space replacement,
    case-insensitive substring search, number formatting and JavaScript's
    `parseInt`. Characters are compared as code points; only ASCII letters are
    case-folded. */
module Text {
  import opened Outcomes

  predicate IsUpper(c: char) { 'A' <= c <= 'Z' }

  predicate IsDigit(c: char) { '0' <= c <= '9' }

  function LowerChar(c: char): (r: char)
    ensures !IsUpper(r)
    ensures IsUpper(c) ==> r as int == c as int + 32
    ensures !IsUpper(c) ==> r == c
  {
    if IsUpper(c) then (c as int + 32) as char else c
  }

  /** `String.prototype.toLowerCase`, restricted to ASCII letters. */
  function Lower(s: string): (r: string)
    ensures |r| == |s|
    ensures forall i :: 0 <= i < |r| ==> !IsUpper(r[i])
    ensures forall i :: 0 <= i < |s| && !IsUpper(s[i]) ==> r[i] == s[i]
    ensures forall i :: 0 <= i < |s| ==> r[i] == LowerChar(s[i])
  {
    seq(|s|, i requires 0 <= i < |s| => LowerChar(s[i]))
  }

  /** `s.replace(/ /g, "-")`: every space becomes a hyphen. */
  function ReplaceSpaces(s: string): (r: string)
    ensures |r| == |s|
    ensures ' ' !in r
    ensures forall i :: 0 <= i < |s| && s[i] != ' ' ==> r[i] == s[i]
    ensures forall i :: 0 <= i < |s| && s[i] == ' ' ==> r[i] == '-'
  {
    seq(|s|, i requires 0 <= i < |s| => if s[i] == ' ' then '-' else s[i])
  }

  /** `p` occurs in `s` starting at index `i`. */
  predicate OccursAt(p: string, s: string, i: int)
  {
    0 <= i && i + |p| <= |s| && s[i..i + |p|] == p
  }

  /** Substring search, scanning `s` from the left. */
  function IsSubstring(p: string, s: string): (r: bool)
    ensures r <==> exists i :: OccursAt(p, s, i)
    decreases |s|
  {
    if |p| > |s| then
      false
    else if s[..|p|] == p then
      assert OccursAt(p, s, 0);
      true
    else
      var r := IsSubstring(p, s[1..]);
      if r then
        var i :| OccursAt(p, s[1..], i);
        assert s[1..][i..i + |p|] == s[i + 1..i + 1 + |p|];
        assert OccursAt(p, s, i + 1);
        r
      else
        assert !OccursAt(p, s, 0) by { assert s[0..|p|] == s[..|p|]; }
        forall i | OccursAt(p, s, i) ensures OccursAt(p, s[1..], i - 1) {
          assert s[1..][i - 1..i - 1 + |p|] == s[i..i + |p|];
        }
        r
  }

  /** Case-insensitive substring search: the needle occurs in the field at
      some position, character by character, once ASCII capitals are folded.
      This is the `$regex` match with option "i" for a search text without
      regular-expression metacharacters and without non-ASCII letters. */
  predicate ContainsIgnoreCase(field: string, needle: string)
  {
    IsSubstring(Lower(needle), Lower(field))
  }

  /** At index `i` of the field, every character of the needle equals the
      field's character up to ASCII case. */
  predicate FoldedMatchAt(field: string, needle: string, i: int)
  {
    0 <= i && i + |needle| <= |field| &&
    forall k :: 0 <= k < |needle| ==> LowerChar(field[i + k]) == LowerChar(needle[k])
  }

  lemma FoldedMatchAtOccurs(field: string, needle: string, i: int)
    ensures FoldedMatchAt(field, needle, i) <==> OccursAt(Lower(needle), Lower(field), i)
  {
    var p, s := Lower(needle), Lower(field);
    if 0 <= i && i + |needle| <= |field| {
      var w := s[i..i + |p|];
      assert forall k :: 0 <= k < |p| ==> w[k] == LowerChar(field[i + k]);
      assert forall k :: 0 <= k < |p| ==> p[k] == LowerChar(needle[k]);
      if !FoldedMatchAt(field, needle, i) {
        var k :| 0 <= k < |needle| && LowerChar(field[i + k]) != LowerChar(needle[k]);
        assert w[k] != p[k];
      }
    }
  }

  /** The search matches exactly when the needle matches the field up to
      ASCII case at some index. */
  lemma {:induction false} ContainsIgnoreCaseMeaning(field: string, needle: string)
    ensures ContainsIgnoreCase(field, needle) <==> exists i :: FoldedMatchAt(field, needle, i)
  {
    if ContainsIgnoreCase(field, needle) {
      var i :| OccursAt(Lower(needle), Lower(field), i);
      FoldedMatchAtOccurs(field, needle, i);
    }
    forall i | FoldedMatchAt(field, needle, i) ensures OccursAt(Lower(needle), Lower(field), i) {
      FoldedMatchAtOccurs(field, needle, i);
    }
  }

  /** A field holding "ABC" matches the search "abc". */
  lemma SearchExample()
    ensures ContainsIgnoreCase("xABCx", "abc")
  {
    assert OccursAt(Lower("abc"), Lower("xABCx"), 1);
  }

  /** The search ignores the case of the search text. */
  lemma {:induction false} SearchIgnoresNeedleCase(field: string, needle: string)
    ensures ContainsIgnoreCase(field, Lower(needle)) == ContainsIgnoreCase(field, needle)
  {
    assert Lower(Lower(needle)) == Lower(needle);
  }

  /** The search ignores the case of the searched field. */
  lemma {:induction false} SearchIgnoresFieldCase(field: string, needle: string)
    ensures ContainsIgnoreCase(Lower(field), needle) == ContainsIgnoreCase(field, needle)
  {
    assert Lower(Lower(field)) == Lower(field);
  }

  function DigitChar(d: nat): (c: char)
    requires d < 10
    ensures IsDigit(c)
  {
    ('0' as int + d) as char
  }

  function DigitValue(c: char): (d: nat)
    requires IsDigit(c)
    ensures d < 10 && DigitChar(d) == c
  {
    c as int - '0' as int
  }

  /** The value of a string of decimal digits. */
  function DecimalValue(s: string): nat
    requires forall i :: 0 <= i < |s| ==> IsDigit(s[i])
  {
    if s == [] then 0 else DecimalValue(s[..|s| - 1]) * 10 + DigitValue(s[|s| - 1])
  }

  /** The decimal rendering of `n`, as a template literal `${n}` prints it. */
  function NatToDecimal(n: nat): (r: string)
    ensures |r| >= 1
    ensures forall i :: 0 <= i < |r| ==> IsDigit(r[i])
    ensures r[0] == '0' ==> n == 0
    ensures |r| == 1 <==> n < 10
    ensures DecimalValue(r) == n
  {
    if n < 10 then
      [DigitChar(n)]
    else
      var r := NatToDecimal(n / 10) + [DigitChar(n % 10)];
      assert r[..|r| - 1] == NatToDecimal(n / 10);
      r
  }

  function HexDigitValue(c: char): (d: Option<nat>)
    ensures d.Some? ==> d.value < 16
    ensures IsDigit(c) ==> d == Some(c as int - '0' as int)
  {
    if IsDigit(c) then Some(c as int - '0' as int)
    else if 'a' <= c <= 'f' then Some(c as int - 'a' as int + 10)
    else if 'A' <= c <= 'F' then Some(c as int - 'A' as int + 10)
    else None
  }

  /** The characters JavaScript's `parseInt` skips before the number: tab,
      line feed, vertical tab, form feed, carriage return, space, no-break
      space, the line and paragraph separators and the byte-order mark. */
  predicate IsJsSpace(c: char)
  {
    c as int in {0x09, 0x0A, 0x0B, 0x0C, 0x0D, 0x20, 0xA0, 0x2028, 0x2029, 0xFEFF}
  }

  function SkipSpace(s: string): (r: string)
    ensures |r| <= |s| && r == s[|s| - |r|..]
    ensures r != [] ==> !IsJsSpace(r[0])
    ensures s == [] || !IsJsSpace(s[0]) ==> r == s
  {
    if s != [] && IsJsSpace(s[0]) then SkipSpace(s[1..]) else s
  }

  /** The longest prefix of `s` made of decimal digits. */
  function DigitPrefix(s: string): (r: string)
    ensures |r| <= |s| && r == s[..|r|]
    ensures forall i :: 0 <= i < |r| ==> IsDigit(r[i])
    ensures |r| < |s| ==> !IsDigit(s[|r|])
  {
    if s != [] && IsDigit(s[0]) then [s[0]] + DigitPrefix(s[1..]) else []
  }

  /** The value of the longest prefix of hexadecimal digits of `s`, and its length. */
  function HexPrefix(s: string, acc: nat, len: nat): (r: (nat, nat))
    ensures r.1 >= len
    decreases |s|
  {
    if s != [] && HexDigitValue(s[0]).Some? then
      HexPrefix(s[1..], acc * 16 + HexDigitValue(s[0]).value, len + 1)
    else
      (acc, len)
  }

  /** The digits after the sign: a `0x`/`0X` prefix selects base 16,
      otherwise the longest run of decimal digits is converted; None when no
      digit follows. */
  function ParseMagnitude(u: string): Option<nat>
  {
    if |u| >= 2 && u[0] == '0' && (u[1] == 'x' || u[1] == 'X') then
      var h := HexPrefix(u[2..], 0, 0);
      if h.1 == 0 then None else Some(h.0)
    else
      var d := DigitPrefix(u);
      if d == [] then None else Some(DecimalValue(d))
  }

  /** JavaScript's `parseInt(s)` with no radix argument: leading white space
      is skipped, an optional sign is read and the magnitude follows. None
      stands for NaN, the result when no digit follows. */
  function ParseInt(s: string): (r: Option<int>)
    ensures var t := SkipSpace(s);
      t == [] || !(IsDigit(t[0]) || t[0] == '-' || t[0] == '+') ==> r.None?
  {
    var t := SkipSpace(s);
    var negative := t != [] && t[0] == '-';
    var u := if t != [] && (t[0] == '-' || t[0] == '+') then t[1..] else t;
    match ParseMagnitude(u)
    case None => None
    case Some(m) =>
      var v: int := if negative then -(m as int) else m;
      Some(v)
  }

  lemma DigitPrefixOfDigits(s: string)
    requires forall i :: 0 <= i < |s| ==> IsDigit(s[i])
    ensures DigitPrefix(s) == s
  {
  }

  lemma MagnitudeOfDecimal(n: nat)
    ensures ParseMagnitude(NatToDecimal(n)) == Some(n)
  {
    var r := NatToDecimal(n);
    DigitPrefixOfDigits(r);
    assert |r| >= 2 ==> r[0] != '0';
  }

  /** Without white space or a sign in front, `parseInt` reads the magnitude. */
  lemma ParseIntUnsigned(u: string)
    requires u != [] && !IsJsSpace(u[0]) && u[0] != '-' && u[0] != '+'
    ensures ParseMagnitude(u).None? ==> ParseInt(u).None?
    ensures ParseMagnitude(u).Some? ==> ParseInt(u) == Some(ParseMagnitude(u).value as int)
  {
    assert SkipSpace(u) == u;
  }

  /** With a minus sign in front, `parseInt` negates the magnitude. */
  lemma ParseIntNegative(u: string)
    ensures ParseMagnitude(u).None? ==> ParseInt("-" + u).None?
    ensures ParseMagnitude(u).Some? ==> ParseInt("-" + u) == Some(-(ParseMagnitude(u).value as int))
  {
    var m := "-" + u;
    assert !IsJsSpace(m[0]);
    assert SkipSpace(m) == m;
    assert m[1..] == u;
  }

  lemma DecimalStartsWithDigit(n: nat)
    ensures var r := NatToDecimal(n); !IsJsSpace(r[0]) && r[0] != '-' && r[0] != '+'
  {
    assert IsDigit(NatToDecimal(n)[0]);
  }

  /** `parseInt` reads back every number that `NatToDecimal` prints. */
  lemma ParseIntOfDecimal(n: nat)
    ensures ParseInt(NatToDecimal(n)) == Some(n as int)
  {
    MagnitudeOfDecimal(n);
    DecimalStartsWithDigit(n);
    ParseIntUnsigned(NatToDecimal(n));
  }

  /** With a minus sign in front, `parseInt` reads back the negated number. */
  lemma ParseIntOfNegatedDecimal(n: nat)
    ensures ParseInt("-" + NatToDecimal(n)) == Some(-(n as int))
  {
    MagnitudeOfDecimal(n);
    ParseIntNegative(NatToDecimal(n));
  }

  /** `parseInt(raw) || fallback`: NaN and 0 are falsy and give the fallback;
      every other parsed value, negative ones included, is kept. */
  function ParamOr(raw: string, fallback: int): (r: int)
    ensures ParseInt(raw).None? ==> r == fallback
    ensures ParseInt(raw) == Some(0) ==> r == fallback
    ensures ParseInt(raw).Some? && ParseInt(raw).value != 0 ==> r == ParseInt(raw).value
    ensures fallback != 0 ==> r != 0
  {
    match ParseInt(raw)
    case Some(v) => if v != 0 then v else fallback
    case None => fallback
  }

  /** An absent parameter gives the fallback. */
  lemma ParamOrAbsent(fallback: int)
    ensures ParamOr("", fallback) == fallback
  {
    assert SkipSpace("") == "";
    assert ParseMagnitude("") == None by { assert DigitPrefix("") == ""; }
  }

  /** A decimal number other than 0 passes through, with its sign; "0" gives
      the fallback. */
  lemma ParamOrDecimal(n: nat, fallback: int)
    ensures n > 0 ==> ParamOr(NatToDecimal(n), fallback) == n
    ensures n > 0 ==> ParamOr("-" + NatToDecimal(n), fallback) == -(n as int)
    ensures n == 0 ==> ParamOr(NatToDecimal(n), fallback) == fallback
  {
    ParseIntOfDecimal(n);
    ParseIntOfNegatedDecimal(n);
  }

  /** The slug stem `title.replace(/ /g, "-").toLowerCase()`: spaces become
      hyphens, ASCII capitals become small letters, everything else is kept. */
  function Slugify(title: string): (r: string)
    ensures |r| == |title|
    ensures ' ' !in r
    ensures forall i :: 0 <= i < |r| ==> !IsUpper(r[i])
    ensures forall i :: 0 <= i < |title| ==> r[i] == (if title[i] == ' ' then '-' else LowerChar(title[i]))
  {
    Lower(ReplaceSpaces(title))
  }

  /** The stem of "Hello World". */
  lemma SlugifyExample()
    ensures Slugify("Hello World") == "hello-world"
  {
  }
}
