/** The Python `str` operations the ingestion pipeline relies on, written out
    as functions over `seq<char>`: `strip`, `lower`, `split`, `join`,
    `isdigit`, `str(int)`/`int(str)`, and the two regular expressions
    `\([^)]*\)` (removal of parenthetical groups) and `\d+` (digit runs). */
module Text {

  /** Python's `str.isspace` for a single character. */
  predicate IsSpace(c: char) {
    c == ' ' || ('\t' <= c <= '\r') || ('\U{1C}' <= c <= '\U{1F}')
    || c == '\U{85}' || c == '\U{A0}' || c == '\U{1680}'
    || ('\U{2000}' <= c <= '\U{200A}') || c == '\U{2028}' || c == '\U{2029}'
    || c == '\U{202F}' || c == '\U{205F}' || c == '\U{3000}'
  }

  /** A string with no leading and no trailing whitespace. */
  predicate Stripped(s: string) {
    |s| == 0 || (!IsSpace(s[0]) && !IsSpace(s[|s| - 1]))
  }

  /** `s.lstrip()`: drops the leading whitespace. */
  function TrimLeft(s: string): (r: string)
    ensures |r| <= |s|
    ensures r == [] || !IsSpace(r[0])
    decreases |s|
  {
    if |s| > 0 && IsSpace(s[0]) then TrimLeft(s[1..]) else s
  }

  /** `lstrip` keeps a suffix and drops only whitespace. */
  lemma {:induction false} TrimLeftShape(s: string)
    ensures var r := TrimLeft(s);
      r == s[|s| - |r|..] && forall i :: 0 <= i < |s| - |r| ==> IsSpace(s[i])
    decreases |s|
  {
    if |s| > 0 && IsSpace(s[0]) {
      TrimLeftShape(s[1..]);
    }
  }

  /** `s.rstrip()`: drops the trailing whitespace. */
  function TrimRight(s: string): (r: string)
    ensures |r| <= |s|
    ensures r == [] || !IsSpace(r[|r| - 1])
    decreases |s|
  {
    if |s| > 0 && IsSpace(s[|s| - 1]) then TrimRight(s[..|s| - 1]) else s
  }

  /** `rstrip` keeps a prefix and drops only whitespace. */
  lemma {:induction false} TrimRightShape(s: string)
    ensures var r := TrimRight(s);
      r == s[..|r|] && forall i :: |r| <= i < |s| ==> IsSpace(s[i])
    decreases |s|
  {
    if |s| > 0 && IsSpace(s[|s| - 1]) {
      TrimRightShape(s[..|s| - 1]);
    }
  }

  /** `s.strip()`. */
  function Strip(s: string): (r: string)
    ensures Stripped(r)
    ensures |r| <= |s|
  {
    TrimRightShape(TrimLeft(s));
    TrimRight(TrimLeft(s))
  }

  /** A string that is already stripped is left as it is; in particular
      `strip` is idempotent. */
  lemma StripKeepsStripped(s: string)
    requires Stripped(s)
    ensures Strip(s) == s
  {
  }

  lemma StripIdempotent(s: string)
    ensures Strip(Strip(s)) == Strip(s)
  {
    StripKeepsStripped(Strip(s));
  }

  /** Stripping a non-empty stripped word after one leading blank gives the
      word back: what `item.strip()` does to the pieces of `"a, b".split(",")`. */
  lemma StripLeadingBlank(x: string)
    requires x != [] && Stripped(x)
    ensures Strip(" " + x) == x
  {
    assert (" " + x)[1..] == x;
    StripKeepsStripped(x);
  }

  predicate IsUpper(c: char) {
    'A' <= c <= 'Z'
  }

  function LowerChar(c: char): (d: char)
    ensures IsUpper(c) ==> d as int == c as int + 32
    ensures !IsUpper(c) ==> d == c
  {
    if IsUpper(c) then (c as int + 32) as char else c
  }

  /** `s.lower()` restricted to ASCII letters. */
  function Lower(s: string): (r: string)
    ensures |r| == |s|
    ensures forall i :: 0 <= i < |s| ==> r[i] == LowerChar(s[i])
  {
    if |s| == 0 then [] else [LowerChar(s[0])] + Lower(s[1..])
  }

  /** Lower-casing leaves a text without capitals unchanged. */
  lemma {:induction false} LowerKeepsLowercase(s: string)
    requires forall i :: 0 <= i < |s| ==> !IsUpper(s[i])
    ensures Lower(s) == s
  {
    if |s| > 0 {
      LowerKeepsLowercase(s[1..]);
    }
  }

  /** `sub` occurs in `s` starting at index `i`. */
  predicate OccursAt(s: string, sub: string, i: int) {
    0 <= i <= |s| - |sub| && s[i..i + |sub|] == sub
  }

  /** `sub in s`: `sub` occurs at the start of `s` or further on. */
  predicate Contains(s: string, sub: string)
    decreases |s|
  {
    OccursAt(s, sub, 0) || (|s| > 0 && Contains(s[1..], sub))
  }

  /** `Contains` holds exactly when `sub` occurs at some index. */
  lemma {:induction false} ContainsIffOccurs(s: string, sub: string)
    ensures Contains(s, sub) <==> exists i :: 0 <= i <= |s| && OccursAt(s, sub, i)
    decreases |s|
  {
    if |s| > 0 {
      ContainsIffOccurs(s[1..], sub);
      if Contains(s[1..], sub) {
        var i :| 0 <= i <= |s[1..]| && OccursAt(s[1..], sub, i);
        assert s[i + 1..i + 1 + |sub|] == s[1..][i..i + |sub|];
        assert OccursAt(s, sub, i + 1);
      }
      if i :| 1 <= i <= |s| && OccursAt(s, sub, i) {
        assert s[1..][i - 1..i - 1 + |sub|] == s[i..i + |sub|];
        assert OccursAt(s[1..], sub, i - 1);
      }
    }
  }

  predicate IsDigit(c: char) {
    '0' <= c <= '9'
  }

  predicate AllDigits(s: string) {
    forall i :: 0 <= i < |s| ==> IsDigit(s[i])
  }

  /** `s.isdigit()`: non-empty and made of digits only. */
  predicate IsDigitString(s: string) {
    |s| > 0 && AllDigits(s)
  }

  /** `s.replace(c, "")`. */
  function RemoveChar(s: string, c: char): (r: string)
    ensures c !in r
    ensures forall x :: x in r <==> x in s && x != c
    ensures |r| <= |s|
  {
    if |s| == 0 then ""
    else if s[0] == c then RemoveChar(s[1..], c)
    else [s[0]] + RemoveChar(s[1..], c)
  }

  /** `"".join(re.findall(r"\d+", s))`: the digits of `s` in order. */
  function Digits(s: string): (r: string)
    ensures AllDigits(r)
    ensures |r| <= |s|
  {
    if |s| == 0 then ""
    else if IsDigit(s[0]) then [s[0]] + Digits(s[1..])
    else Digits(s[1..])
  }

  /** A string of digits keeps all of its characters under `Digits`. */
  lemma {:induction false} DigitsOfDigits(s: string)
    requires AllDigits(s)
    ensures Digits(s) == s
  {
    if |s| > 0 {
      DigitsOfDigits(s[1..]);
    }
  }

  /** Removing a character that is not a digit does not change the digits. */
  lemma {:induction false} DigitsIgnoreRemovedChar(s: string, c: char)
    requires !IsDigit(c)
    ensures Digits(RemoveChar(s, c)) == Digits(s)
  {
    if |s| > 0 {
      DigitsIgnoreRemovedChar(s[1..], c);
      if s[0] != c {
        assert ([s[0]] + RemoveChar(s[1..], c))[1..] == RemoveChar(s[1..], c);
      }
    }
  }

  /** Removing a character absent from `s` leaves `s` unchanged. */
  lemma {:induction false} RemoveAbsentChar(s: string, c: char)
    requires c !in s
    ensures RemoveChar(s, c) == s
  {
    if |s| > 0 {
      assert c !in s[1..];
      RemoveAbsentChar(s[1..], c);
    }
  }

  function DigitValue(c: char): (v: nat)
    requires IsDigit(c)
    ensures v < 10
  {
    c as int - '0' as int
  }

  function DigitChar(v: nat): (c: char)
    requires v < 10
    ensures IsDigit(c) && DigitValue(c) == v
  {
    ('0' as int + v) as char
  }

  /** `int(d)` for a string of decimal digits. */
  function DecimalValue(d: string): (n: nat)
    requires AllDigits(d)
    decreases |d|
  {
    if |d| == 0 then 0
    else 10 * DecimalValue(d[..|d| - 1]) + DigitValue(d[|d| - 1])
  }

  /** `str(n)` for a non-negative integer. */
  function NatToDecimal(n: nat): (d: string)
    ensures IsDigitString(d)
  {
    if n < 10 then [DigitChar(n)] else NatToDecimal(n / 10) + [DigitChar(n % 10)]
  }

  /** `int(str(n)) == n`. */
  lemma {:induction false} DecimalRoundTrip(n: nat)
    ensures DecimalValue(NatToDecimal(n)) == n
  {
    var d := NatToDecimal(n);
    if n >= 10 {
      DecimalRoundTrip(n / 10);
      assert d[..|d| - 1] == NatToDecimal(n / 10);
    }
  }

  /** `str(i)` for any integer. */
  function IntToDecimal(i: int): (d: string)
    ensures i >= 0 ==> IsDigitString(d)
    ensures i < 0 ==> |d| >= 2 && d[0] == '-' && IsDigitString(d[1..])
  {
    if i < 0 then "-" + NatToDecimal(-i) else NatToDecimal(i)
  }

  /** Index of the first occurrence of `c` in `s`. */
  function IndexOf(s: string, c: char): (i: nat)
    requires c in s
    ensures i < |s| && s[i] == c && c !in s[..i]
  {
    if s[0] == c then 0 else 1 + IndexOf(s[1..], c)
  }

  /** `re.sub(r"\([^)]*\)", "", s)`: every `(` that has a `)` somewhere after
      it opens a group reaching to the first such `)`, and the group is
      deleted; a `(` with no `)` after it is kept. */
  function RemoveParens(s: string): (r: string)
    ensures |r| <= |s|
    decreases |s|
  {
    if |s| == 0 then ""
    else if s[0] == '(' && ')' in s[1..] then RemoveParens(s[1..][IndexOf(s[1..], ')') + 1..])
    else [s[0]] + RemoveParens(s[1..])
  }

  /** Without an opening parenthesis there is nothing to remove. */
  lemma {:induction false} RemoveParensNoOpen(s: string)
    requires '(' !in s
    ensures RemoveParens(s) == s
  {
    if |s| > 0 {
      assert '(' !in s[1..];
      RemoveParensNoOpen(s[1..]);
    }
  }

  /** `s.split(sep)`: always at least one piece, no piece holds `sep`. */
  function Split(s: string, sep: char): (parts: seq<string>)
    ensures |parts| >= 1
    ensures forall k :: 0 <= k < |parts| ==> sep !in parts[k]
    decreases |s|
  {
    if |s| == 0 then [""]
    else if s[0] == sep then [""] + Split(s[1..], sep)
    else
      var rest := Split(s[1..], sep);
      [[s[0]] + rest[0]] + rest[1..]
  }

  /** `sep.join(parts)`. */
  function Join(parts: seq<string>, sep: string): string
  {
    if |parts| == 0 then ""
    else if |parts| == 1 then parts[0]
    else parts[0] + sep + Join(parts[1..], sep)
  }

  /** A piece free of the separator, followed by the separator, splits off
      as the first piece. */
  lemma {:induction false} SplitAfterPiece(p: string, sep: char, t: string)
    requires sep !in p
    ensures Split(p + [sep] + t, sep) == [p] + Split(t, sep)
    decreases |p|
  {
    var s := p + [sep] + t;
    if |p| == 0 {
      assert s[1..] == t;
    } else {
      assert s[1..] == p[1..] + [sep] + t;
      assert sep !in p[1..];
      SplitAfterPiece(p[1..], sep, t);
      assert [p[0]] + p[1..] == p;
    }
  }

  /** A string free of the separator splits into itself. */
  lemma {:induction false} SplitNoSeparator(p: string, sep: char)
    requires sep !in p
    ensures Split(p, sep) == [p]
    decreases |p|
  {
    if |p| > 0 {
      assert sep !in p[1..];
      SplitNoSeparator(p[1..], sep);
      assert [p[0]] + p[1..] == p;
    }
  }

  /** `sep.join(parts).split(sep) == parts` when no part holds `sep`. */
  lemma {:induction false} SplitJoin(parts: seq<string>, sep: char)
    requires |parts| >= 1
    requires forall k :: 0 <= k < |parts| ==> sep !in parts[k]
    ensures Split(Join(parts, [sep]), sep) == parts
  {
    if |parts| == 1 {
      SplitNoSeparator(parts[0], sep);
    } else {
      SplitJoin(parts[1..], sep);
      SplitAfterPiece(parts[0], sep, Join(parts[1..], [sep]));
    }
  }

  /** `Digits` distributes over concatenation. */
  lemma {:induction false} DigitsConcat(a: string, b: string)
    ensures Digits(a + b) == Digits(a) + Digits(b)
  {
    if |a| == 0 {
      assert a + b == b;
    } else {
      var ab := a + b;
      assert ab[0] == a[0];
      assert ab[1..] == a[1..] + b;
      DigitsConcat(a[1..], b);
    }
  }

  /** Whitespace holds no digits. */
  lemma {:induction false} DigitsOfSpaces(s: string)
    requires forall i :: 0 <= i < |s| ==> IsSpace(s[i])
    ensures Digits(s) == ""
  {
    if |s| > 0 {
      DigitsOfSpaces(s[1..]);
    }
  }

  /** Stripping never loses or adds a digit. */
  lemma DigitsOfStrip(s: string)
    ensures Digits(Strip(s)) == Digits(s)
  {
    var l := TrimLeft(s);
    DigitsOfTrimLeft(s);
    DigitsOfTrimRight(l);
  }

  lemma DigitsOfTrimLeft(s: string)
    ensures Digits(TrimLeft(s)) == Digits(s)
  {
    var l := TrimLeft(s);
    var k := |s| - |l|;
    TrimLeftShape(s);
    assert s == s[..k] + l;
    DigitsOfSpaces(s[..k]);
    DigitsConcat(s[..k], l);
  }

  lemma DigitsOfTrimRight(l: string)
    ensures Digits(TrimRight(l)) == Digits(l)
  {
    var r := TrimRight(l);
    TrimRightShape(l);
    assert l == r + l[|r|..];
    DigitsOfSpaces(l[|r|..]);
    DigitsConcat(r, l[|r|..]);
  }

  /** A character absent from `s` is absent from `s.strip()`. */
  lemma StripKeepsAbsentChar(s: string, c: char)
    requires c !in s
    ensures c !in Strip(s)
  {
    var l := TrimLeft(s);
    TrimLeftShape(s);
    NotInSlice(s, c, |s| - |l|, |s|);
    assert l == s[|s| - |l|..|s|];
    var r := TrimRight(l);
    TrimRightShape(l);
    NotInSlice(l, c, 0, |r|);
    assert r == l[0..|r|];
  }

  /** A character absent from `s` is absent from every slice of it. */
  lemma NotInSlice(s: string, c: char, a: nat, b: nat)
    requires a <= b <= |s| && c !in s
    ensures c !in s[a..b]
  {
  }

  /** Text before the first opening parenthesis is kept as it is. */
  lemma {:induction false} RemoveParensPlainPrefix(a: string, b: string)
    requires '(' !in a
    ensures RemoveParens(a + b) == a + RemoveParens(b)
  {
    if |a| > 0 {
      assert (a + b)[0] == a[0] && (a + b)[1..] == a[1..] + b;
      assert '(' !in a[1..];
      RemoveParensPlainPrefix(a[1..], b);
      assert a == [a[0]] + a[1..];
    } else {
      assert a + b == b;
    }
  }

  /** A parenthetical group with no `)` inside is deleted, and the text
      after it is read on. */
  lemma RemoveParensGroup(note: string, rest: string)
    requires ')' !in note
    ensures RemoveParens("(" + note + ")" + rest) == RemoveParens(rest)
  {
    var s := "(" + note + ")" + rest;
    var t := s[1..];
    assert t == note + ")" + rest;
    assert t[|note|] == ')';
    assert t[..|note|] == note;
    assert IndexOf(t, ')') == |note|;
    assert t[|note| + 1..] == rest;
  }

  /** Stripping a non-empty stripped word followed by one blank gives the
      word back. */
  lemma StripTrailingBlank(x: string)
    requires x != [] && Stripped(x)
    ensures Strip(x + " ") == x
  {
    var y := x + " ";
    assert !IsSpace(y[0]);
    assert TrimLeft(y) == y;
    assert y[..|y| - 1] == x;
    StripKeepsStripped(x);
  }

  /** A trailing parenthetical group after plain text is deleted. */
  lemma RemoveTrailingGroup(p: string, note: string)
    requires '(' !in p && ')' !in note
    ensures RemoveParens(p + "(" + note + ")") == p
  {
    assert p + "(" + note + ")" == p + ("(" + note + ")" + "");
    RemoveParensPlainPrefix(p, "(" + note + ")" + "");
    RemoveParensGroup(note, "");
    assert p + "" == p;
  }

  /** The digits of `"<a>,<b> "` for digit strings `a` and `b`. */
  lemma DigitsOfSeparated(a: string, b: string)
    requires AllDigits(a) && AllDigits(b)
    ensures Digits(a + "," + b + " ") == a + b
  {
    var x := a + ",";
    var y := x + b;
    DigitsConcat(a, ",");
    DigitsOfDigits(a);
    DigitsOfNonDigit(',');
    assert Digits(x) == a;
    DigitsConcat(x, b);
    DigitsOfDigits(b);
    assert Digits(y) == a + b;
    DigitsConcat(y, " ");
    DigitsOfNonDigit(' ');
  }

  /** A character that is no digit has no digits. */
  lemma DigitsOfNonDigit(c: char)
    requires !IsDigit(c)
    ensures Digits([c]) == ""
  {
    assert [c][1..] == "";
  }
}
