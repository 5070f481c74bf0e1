/** The boss record and the field validators that run, before validation,
    on every value given to it (app/models/boss.py). Each validator is a
    pure function from the raw value to the stored value. */
module BossModel {
  import opened Wrappers
  import opened Text

  /** A value handed to a validator: Python `None`, an `int` (a `bool` is
      one, `True` being 1 and `False` 0), a `str`, a `list` of `str`, or a
      value of any other type. A list holding something other than a `str`
      has no value here. */
  datatype RawValue = Absent | IntVal(i: int) | Str(s: string) | StrList(items: seq<string>) | OtherValue

  /** A validated boss record. */
  datatype Boss = Boss(
    name: string,
    hp: Option<int>,
    exp: Option<int>,
    walksThrough: seq<string>,
    immunities: seq<string>)

  /** The keyword arguments the record is built from, before validation. */
  datatype BossFields = BossFields(
    name: string,
    hp: RawValue,
    exp: RawValue,
    walksThrough: RawValue,
    immunities: RawValue)

  /** Lower-cased stripped texts that mean "no number". */
  const NumericSentinels: set<string> := {"???", "variable", "unknown", "n/a", ""}

  /** Lower-cased stripped texts that mean "no items". */
  const ListSentinels: set<string> := {"none", "n/a", "???", ""}

  /** `sanitize_hp` on a string: sentinel texts give None; otherwise the
      parenthetical groups, commas and spaces go and the remaining digit
      runs, concatenated, are read as one decimal number. */
  function SanitizeNumericText(s: string): (r: Option<int>)
    ensures Lower(Strip(s)) in NumericSentinels ==> r == None
    ensures r.Some? ==> r.value >= 0
  {
    var t := Strip(s);
    if Lower(t) in NumericSentinels then None
    else
      var u := Strip(RemoveParens(t));
      var w := RemoveChar(RemoveChar(u, ','), ' ');
      var ds := Digits(w);
      if ds == "" then None else Some(DecimalValue(ds))
  }

  /** `BossModel.sanitize_hp`. */
  function SanitizeHp(v: RawValue): (r: Option<int>)
    ensures v.Absent? ==> r == None
    ensures v.IntVal? ==> r == Some(v.i)
    ensures v.Str? && Lower(Strip(v.s)) in NumericSentinels ==> r == None
    ensures v.Str? && r.Some? ==> r.value >= 0
    ensures v.StrList? || v.OtherValue? ==> r == None
  {
    match v
    case Absent => None
    case IntVal(i) => Some(i)
    case Str(s) => SanitizeNumericText(s)
    case _ => None
  }

  /** `BossModel.sanitize_exp` delegates to `sanitize_hp`. */
  function SanitizeExp(v: RawValue): (r: Option<int>)
    ensures r == SanitizeHp(v)
  {
    SanitizeHp(v)
  }

  /** For a non-sentinel string, the number read is the one formed by the
      digits that lie outside parenthetical groups; there is no number
      exactly when no such digit exists. Commas, blanks and every other
      character are ignored. */
  lemma SanitizeHpReadsDigitsOutsideParens(s: string)
    requires Lower(Strip(s)) !in NumericSentinels
    ensures var ds := Digits(RemoveParens(Strip(s)));
      SanitizeHp(Str(s)) == if ds == "" then None else Some(DecimalValue(ds))
  {
    var t := Strip(s);
    var p := RemoveParens(t);
    var u := Strip(p);
    DigitsIgnoreRemovedChar(RemoveChar(u, ','), ' ');
    DigitsIgnoreRemovedChar(u, ',');
    DigitsOfStrip(p);
  }

  /** Writing a non-negative count in decimal and sanitizing it gives the
      count back. */
  lemma SanitizeHpRoundTrip(n: nat)
    ensures SanitizeHp(Str(NatToDecimal(n))) == Some(n)
  {
    var d := NatToDecimal(n);
    DigitStringIsPlainNumber(d);
    SanitizeHpReadsDigitsOutsideParens(d);
    DigitsOfDigits(d);
    DecimalRoundTrip(n);
  }

  /** A digit string is stripped, no sentinel and free of parentheses. */
  lemma DigitStringIsPlainNumber(d: string)
    requires IsDigitString(d)
    ensures Strip(d) == d && Lower(d) !in NumericSentinels && RemoveParens(d) == d
  {
    DigitThenDigitIsStripped(d);
    StripKeepsStripped(d);
    TextWithCharIsNoSentinel(d, 0, NumericSentinels);
    assert '(' !in d by {
      forall i | 0 <= i < |d|
        ensures d[i] != '('
      {
        assert IsDigit(d[i]);
      }
    }
    RemoveParensNoOpen(d);
  }

  lemma DigitThenDigitIsStripped(d: string)
    requires IsDigitString(d)
    ensures Stripped(d)
  {
    assert IsDigit(d[0]) && IsDigit(d[|d| - 1]);
  }

  /** `[item.strip() for item in items if item.strip()]`. */
  function CleanItems(items: seq<string>): (r: seq<string>)
    ensures forall k :: 0 <= k < |r| ==> r[k] != ""
    ensures forall k :: 0 <= k < |r| ==> Stripped(r[k])
    ensures |r| <= |items|
  {
    if |items| == 0 then []
    else
      var item := Strip(items[0]);
      if item != "" then [item] + CleanItems(items[1..]) else CleanItems(items[1..])
  }

  /** Cleaning works item by item: the cleaned concatenation is the
      concatenation of the cleaned parts, and one item is kept, stripped,
      exactly when its stripped text is not empty. */
  lemma {:induction false} CleanItemsAppend(a: seq<string>, b: seq<string>, item: string)
    ensures CleanItems(a + b) == CleanItems(a) + CleanItems(b)
    ensures CleanItems([item]) == if Strip(item) != "" then [Strip(item)] else []
  {
    assert [item][1..] == [];
    if |a| == 0 {
      assert a + b == b;
    } else {
      assert (a + b)[0] == a[0];
      assert (a + b)[1..] == a[1..] + b;
      CleanItemsAppend(a[1..], b, item);
    }
  }

  /** Every input item whose stripped text is not empty is kept, stripped. */
  lemma {:induction false} CleanItemsKeepsItem(items: seq<string>, i: nat)
    requires i < |items| && Strip(items[i]) != ""
    ensures Strip(items[i]) in CleanItems(items)
  {
    if i > 0 {
      assert items[1..][i - 1] == items[i];
      CleanItemsKeepsItem(items[1..], i - 1);
    }
  }

  /** Every cleaned item is the stripped text of an input item. */
  lemma {:induction false} CleanItemsFromInput(items: seq<string>, x: string)
    requires x in CleanItems(items)
    ensures exists i :: 0 <= i < |items| && Strip(items[i]) == x
  {
    var tail := items[1..];
    var head := Strip(items[0]);
    if head != "" && x == head {
      assert Strip(items[0]) == x;
    } else {
      assert x in CleanItems(tail);
      CleanItemsFromInput(tail, x);
      var i :| 0 <= i < |tail| && Strip(tail[i]) == x;
      assert Strip(items[i + 1]) == x;
    }
  }

  /** `BossModel.sanitize_walks_through`. */
  function SanitizeWalksThrough(v: RawValue): (r: seq<string>)
    ensures forall k :: 0 <= k < |r| ==> r[k] != "" && Stripped(r[k])
    ensures v.Absent? || v.IntVal? || v.OtherValue? ==> r == []
    ensures v.Str? && Lower(Strip(v.s)) in ListSentinels ==> r == []
  {
    match v
    case Absent => []
    case StrList(items) => CleanItems(items)
    case Str(s) =>
      var t := Strip(s);
      if Lower(t) in ListSentinels then []
      else CleanItems(Split(Strip(RemoveParens(t)), ','))
    case _ => []
  }

  /** `BossModel.sanitize_immunities` delegates to `sanitize_walks_through`. */
  function SanitizeImmunities(v: RawValue): (r: seq<string>)
    ensures r == SanitizeWalksThrough(v)
  {
    SanitizeWalksThrough(v)
  }

  /** Cleaning keeps a character out of the items if it was out of them. */
  lemma {:induction false} CleanItemsKeepsAbsentChar(items: seq<string>, c: char)
    requires forall k :: 0 <= k < |items| ==> c !in items[k]
    ensures forall k :: 0 <= k < |CleanItems(items)| ==> c !in CleanItems(items)[k]
  {
    if |items| > 0 {
      var rest := CleanItems(items[1..]);
      assert forall k :: 0 <= k < |items[1..]| ==> c !in items[1..][k] by {
        forall k | 0 <= k < |items[1..]| ensures c !in items[1..][k] {
          assert items[1..][k] == items[k + 1];
        }
      }
      CleanItemsKeepsAbsentChar(items[1..], c);
      var r := CleanItems(items);
      if Strip(items[0]) != "" {
        StripKeepsAbsentChar(items[0], c);
        assert r == [Strip(items[0])] + rest;
        forall k | 0 <= k < |r| ensures c !in r[k] {
          if k > 0 {
            assert r[k] == rest[k - 1];
          }
        }
      } else {
        assert r == rest;
      }
    }
  }

  /** The items parsed from a string never hold a comma. */
  lemma SanitizedTextHasNoComma(s: string)
    ensures var r := SanitizeWalksThrough(Str(s));
      forall k :: 0 <= k < |r| ==> ',' !in r[k]
  {
    var t := Strip(s);
    if Lower(t) !in ListSentinels {
      CleanItemsKeepsAbsentChar(Split(Strip(RemoveParens(t)), ','), ',');
    }
  }

  /** Cleaning a list whose items are already non-empty and stripped changes
      nothing. */
  lemma {:induction false} CleanItemsKeepsCleanList(items: seq<string>)
    requires forall k :: 0 <= k < |items| ==> items[k] != "" && Stripped(items[k])
    ensures CleanItems(items) == items
  {
    if |items| > 0 {
      StripKeepsStripped(items[0]);
      CleanItemsKeepsCleanList(items[1..]);
    }
  }

  /** List sanitation is idempotent: feeding its output back in as a list
      returns the same list. */
  lemma SanitizeWalksThroughIdempotent(v: RawValue)
    ensures SanitizeWalksThrough(StrList(SanitizeWalksThrough(v))) == SanitizeWalksThrough(v)
  {
    CleanItemsKeepsCleanList(SanitizeWalksThrough(v));
  }

  /** One blank put before each item. */
  function LeadBlank(xs: seq<string>): (r: seq<string>)
    ensures |r| == |xs|
    ensures forall k :: 0 <= k < |xs| ==> r[k] == " " + xs[k]
  {
    seq(|xs|, k requires 0 <= k < |xs| => " " + xs[k])
  }

  /** Splitting `pre + ", ".join(items)` on commas gives `pre` glued to the
      first item and then every further item behind one blank. */
  lemma {:induction false} SplitCommaBlankJoin(pre: string, items: seq<string>)
    requires |items| >= 1
    decreases |items|
    requires ',' !in pre
    requires forall k :: 0 <= k < |items| ==> ',' !in items[k]
    ensures Split(pre + Join(items, ", "), ',') == [pre + items[0]] + LeadBlank(items[1..])
  {
    if |items| == 1 {
      SplitNoSeparator(pre + items[0], ',');
    } else {
      var rest := Join(items[1..], ", ");
      var head := pre + items[0];
      CommaBlankJoinShape(pre, items, rest);
      SplitAfterPiece(head, ',', " " + rest);
      SplitCommaBlankJoin(" ", items[1..]);
      LeadBlankCons(items[1..]);
      assert items[1..][1..] == items[2..];
    }
  }

  lemma CommaBlankJoinShape(pre: string, items: seq<string>, rest: string)
    requires |items| >= 2 && rest == Join(items[1..], ", ")
    ensures pre + Join(items, ", ") == (pre + items[0]) + [','] + (" " + rest)
  {
    assert Join(items, ", ") == items[0] + ", " + rest;
  }

  lemma LeadBlankCons(xs: seq<string>)
    requires |xs| >= 1
    ensures LeadBlank(xs) == [" " + xs[0]] + LeadBlank(xs[1..])
  {
  }

  /** Stripping items that carry one leading blank recovers them. */
  lemma {:induction false} CleanItemsOfLeadBlank(xs: seq<string>)
    requires forall k :: 0 <= k < |xs| ==> xs[k] != "" && Stripped(xs[k])
    ensures CleanItems(LeadBlank(xs)) == xs
  {
    if |xs| > 0 {
      LeadBlankCons(xs);
      StripLeadingBlank(xs[0]);
      CleanItemsCons(" " + xs[0], LeadBlank(xs[1..]));
      CleanItemsOfLeadBlank(xs[1..]);
      assert xs == [xs[0]] + xs[1..];
    }
  }

  lemma CleanItemsCons(x: string, rest: seq<string>)
    requires Strip(x) != ""
    ensures CleanItems([x] + rest) == [Strip(x)] + CleanItems(rest)
  {
    assert ([x] + rest)[1..] == rest;
  }

  /** The first and last characters of a join of non-empty items. */
  lemma {:induction false} JoinEnds(items: seq<string>, sep: string)
    requires |items| >= 1
    requires forall k :: 0 <= k < |items| ==> items[k] != ""
    ensures var j := Join(items, sep);
      |j| > 0 && j[0] == items[0][0] && j[|j| - 1] == items[|items| - 1][|items[|items| - 1]| - 1]
  {
    if |items| > 1 {
      var rest := Join(items[1..], sep);
      JoinEnds(items[1..], sep);
      var j := items[0] + sep + rest;
      assert j == Join(items, sep);
      assert j[0] == items[0][0];
      assert j[|j| - 1] == rest[|rest| - 1];
      assert items[1..][|items| - 2] == items[|items| - 1];
    }
  }

  /** An opening parenthesis in a join comes from one of the items. */
  lemma {:induction false} JoinKeepsAbsentChar(items: seq<string>, sep: string, c: char)
    requires c !in sep
    requires forall k :: 0 <= k < |items| ==> c !in items[k]
    ensures c !in Join(items, sep)
  {
    if |items| > 1 {
      JoinKeepsAbsentChar(items[1..], sep, c);
    }
  }

  /** Joining clean items with `", "` and sanitizing the text gives the
      items back, unless the joined text is itself a sentinel word. This is
      how repeated list parameters, joined by the wikitext parser, come out
      of the validator. */
  lemma SanitizeWalksThroughRoundTrip(items: seq<string>)
    requires forall k :: 0 <= k < |items| ==>
      items[k] != "" && Stripped(items[k]) && ',' !in items[k] && '(' !in items[k]
    requires Lower(Join(items, ", ")) !in {"none", "n/a", "???"}
    ensures SanitizeWalksThrough(Str(Join(items, ", "))) == items
  {
    if |items| > 0 {
      var j := Join(items, ", ");
      JoinedTextIsSplitDirectly(items, j);
      var parts := [items[0]] + LeadBlank(items[1..]);
      SplitCommaBlankJoin("", items);
      assert "" + j == j && "" + items[0] == items[0];
      CleanItemsOfJoinedParts(items);
    }
  }

  /** A join of clean items is stripped, is no sentinel and holds no
      parenthesis, so the validator only splits it. */
  lemma JoinedTextIsSplitDirectly(items: seq<string>, j: string)
    requires |items| > 0 && j == Join(items, ", ")
    requires forall k :: 0 <= k < |items| ==>
      items[k] != "" && Stripped(items[k]) && ',' !in items[k] && '(' !in items[k]
    requires Lower(j) !in {"none", "n/a", "???"}
    ensures SanitizeWalksThrough(Str(j)) == CleanItems(Split(j, ','))
  {
    JoinOfStrippedIsStripped(items);
    JoinKeepsAbsentChar(items, ", ", '(');
    assert |Lower(j)| == |j|;
    PlainTextIsSplitDirectly(j);
  }

  /** A stripped, parenthesis-free text that is no sentinel is only split. */
  lemma PlainTextIsSplitDirectly(j: string)
    requires Stripped(j) && '(' !in j
    requires Lower(j) !in ListSentinels
    ensures SanitizeWalksThrough(Str(j)) == CleanItems(Split(j, ','))
  {
    StripKeepsStripped(j);
    RemoveParensNoOpen(j);
  }

  lemma JoinOfStrippedIsStripped(items: seq<string>)
    requires |items| > 0
    requires forall k :: 0 <= k < |items| ==> items[k] != "" && Stripped(items[k])
    ensures var j := Join(items, ", "); |j| > 0 && Stripped(j)
  {
    JoinEnds(items, ", ");
    var last := items[|items| - 1];
    assert Stripped(last) && last != "";
    assert Stripped(items[0]) && items[0] != "";
  }

  lemma CleanItemsOfJoinedParts(items: seq<string>)
    requires |items| > 0
    requires forall k :: 0 <= k < |items| ==> items[k] != "" && Stripped(items[k])
    ensures CleanItems([items[0]] + LeadBlank(items[1..])) == items
  {
    var parts := [items[0]] + LeadBlank(items[1..]);
    StripKeepsStripped(items[0]);
    assert parts[1..] == LeadBlank(items[1..]);
    CleanItemsOfLeadBlank(items[1..]);
    assert CleanItems(parts) == [items[0]] + items[1..];
  }

  /** Building the record runs each field's validator on its raw value. */
  function Validate(f: BossFields): (b: Boss)
  {
    Boss(f.name, SanitizeHp(f.hp), SanitizeExp(f.exp),
         SanitizeWalksThrough(f.walksThrough), SanitizeImmunities(f.immunities))
  }

  /** Thousands separators and a trailing parenthetical note are ignored:
      `"<a>,<b> (<note>)"` reads as the number written by the digits of `a`
      followed by those of `b`. */
  lemma SanitizeHpIgnoresSeparatorAndNote(a: string, b: string, note: string)
    requires a != "" && AllDigits(a) && AllDigits(b) && ')' !in note
    ensures SanitizeHp(Str(a + "," + b + " (" + note + ")")) == Some(DecimalValue(a + b))
  {
    var p := a + "," + b + " ";
    var s := a + "," + b + " (" + note + ")";
    NumberWithNoteIsNoSentinel(s, a[0]);
    NoteIsRemoved(a, b, note, p, s);
    DigitsOfSeparated(a, b);
    SanitizeHpOfParts(s, p, a + b);
  }

  lemma NoteIsRemoved(a: string, b: string, note: string, p: string, s: string)
    requires AllDigits(a) && AllDigits(b) && ')' !in note
    requires p == a + "," + b + " " && s == a + "," + b + " (" + note + ")"
    ensures RemoveParens(s) == p
  {
    assert s == p + "(" + note + ")";
    assert '(' !in p;
    RemoveTrailingGroup(p, note);
  }

  /** The number read from a stripped non-sentinel text, step by step. */
  lemma SanitizeHpOfParts(s: string, p: string, ds: string)
    requires Strip(s) == s && Lower(s) !in NumericSentinels
    requires RemoveParens(s) == p && Digits(p) == ds && ds != ""
    ensures SanitizeHp(Str(s)) == Some(DecimalValue(ds))
  {
    SanitizeHpReadsDigitsOutsideParens(s);
  }

  lemma NumberWithNoteIsNoSentinel(s: string, d: char)
    requires |s| > 0 && s[0] == d && IsDigit(d) && s[|s| - 1] == ')'
    ensures Strip(s) == s && Lower(s) !in NumericSentinels
  {
    DigitThenParenIsStripped(s, d);
    StripKeepsStripped(s);
    TextWithCharIsNoSentinel(s, |s| - 1, NumericSentinels);
  }

  lemma DigitThenParenIsStripped(s: string, d: char)
    requires |s| > 0 && s[0] == d && IsDigit(d) && s[|s| - 1] == ')'
    ensures Stripped(s)
  {
  }

  /** The sentinel example "???" documented for `sanitize_hp`. */
  lemma SanitizeHpUnknownExample()
    ensures SanitizeHp(Str("???")) == None
  {
    LowerKeepsLowercase("???");
    StripKeepsStripped("???");
  }

  /** A trailing parenthetical note is dropped from a joined list:
      `"<i1>, <i2>, ... (<note>)"` gives back the items. */
  lemma SanitizeWalksThroughIgnoresNote(items: seq<string>, note: string)
    requires |items| > 0 && ')' !in note
    requires forall k :: 0 <= k < |items| ==>
      items[k] != "" && Stripped(items[k]) && ',' !in items[k] && '(' !in items[k]
    ensures SanitizeWalksThrough(Str(Join(items, ", ") + " (" + note + ")")) == items
  {
    var j := Join(items, ", ");
    JoinOfCleanItems(items, j);
    TextWithNoteReadsText(j, note, j + " (" + note + ")");
  }

  lemma JoinOfCleanItems(items: seq<string>, j: string)
    requires |items| > 0 && j == Join(items, ", ")
    requires forall k :: 0 <= k < |items| ==>
      items[k] != "" && Stripped(items[k]) && ',' !in items[k] && '(' !in items[k]
    ensures j != "" && Stripped(j) && '(' !in j && CleanItems(Split(j, ',')) == items
  {
    JoinOfStrippedIsStripped(items);
    JoinKeepsAbsentChar(items, ", ", '(');
    CleanSplitOfJoin(items, j);
  }

  /** Splitting a join of clean items on commas and cleaning the pieces
      gives the items back. */
  lemma CleanSplitOfJoin(items: seq<string>, j: string)
    requires |items| > 0 && j == Join(items, ", ")
    requires forall k :: 0 <= k < |items| ==>
      items[k] != "" && Stripped(items[k]) && ',' !in items[k]
    ensures CleanItems(Split(j, ',')) == items
  {
    SplitCommaBlankJoin("", items);
    assert "" + j == j && "" + items[0] == items[0];
    CleanItemsOfJoinedParts(items);
  }

  /** A non-empty stripped text without parentheses followed by a note is
      split as the text alone. */
  lemma TextWithNoteReadsText(j: string, note: string, s: string)
    requires j != "" && Stripped(j) && '(' !in j && ')' !in note
    requires s == j + " (" + note + ")"
    ensures SanitizeWalksThrough(Str(s)) == CleanItems(Split(j, ','))
  {
    TextWithNote(j, note, s);
    StrippedTextIsRead(s);
    StripTrailingBlank(j);
  }

  lemma TextWithNote(j: string, note: string, s: string)
    requires j != "" && Stripped(j) && '(' !in j && ')' !in note
    requires s == j + " (" + note + ")"
    ensures Stripped(s) && Lower(s) !in ListSentinels && RemoveParens(s) == j + " "
  {
    TextWithNoteIsStripped(j, note, s);
    TextWithNoteHasParen(j, note, s);
    TextWithParenIsNoListSentinel(s, |j| + 1);
    TextWithNoteLosesNote(j, note, s);
  }

  lemma TextWithNoteIsStripped(j: string, note: string, s: string)
    requires j != "" && Stripped(j)
    requires s == j + " (" + note + ")"
    ensures Stripped(s)
  {
    assert s[0] == j[0] && s[|s| - 1] == ')';
  }

  lemma TextWithNoteHasParen(j: string, note: string, s: string)
    requires s == j + " (" + note + ")"
    ensures |j| + 1 < |s| && s[|j| + 1] == '('
  {
  }

  lemma TextWithNoteLosesNote(j: string, note: string, s: string)
    requires '(' !in j && ')' !in note
    requires s == j + " (" + note + ")"
    ensures RemoveParens(s) == j + " "
  {
    var p := j + " ";
    assert s == p + "(" + note + ")";
    assert '(' !in p;
    RemoveTrailingGroup(p, note);
  }

  lemma TextWithParenIsNoListSentinel(s: string, i: nat)
    requires i < |s| && s[i] == '('
    ensures Lower(s) !in ListSentinels
  {
    TextWithCharIsNoSentinel(s, i, ListSentinels);
  }

  /** No sentinel holds a parenthesis or a digit, so a text holding one,
      lower-cased, is no sentinel. */
  lemma TextWithCharIsNoSentinel(s: string, i: nat, sentinels: set<string>)
    requires i < |s| && (s[i] == '(' || s[i] == ')' || IsDigit(s[i]))
    requires sentinels == NumericSentinels || sentinels == ListSentinels
    ensures Lower(s) !in sentinels
  {
    var l := Lower(s);
    assert l[i] == s[i];
    SentinelsLackChar(sentinels, l[i]);
  }

  lemma SentinelsLackChar(sentinels: set<string>, c: char)
    requires sentinels == NumericSentinels || sentinels == ListSentinels
    requires c == '(' || c == ')' || IsDigit(c)
    ensures forall w :: w in sentinels ==> c !in w
  {
  }

  /** A stripped text that is no sentinel loses its parenthetical groups and
      is split on commas. */
  lemma StrippedTextIsRead(s: string)
    requires Stripped(s) && Lower(s) !in ListSentinels
    ensures SanitizeWalksThrough(Str(s)) == CleanItems(Split(Strip(RemoveParens(s)), ','))
  {
    var t := Strip(s);
    assert t == s by { StripKeepsStripped(s); }
    assert Lower(t) !in ListSentinels;
  }

  lemma SanitizeWalksThroughSentinelExample()
    ensures SanitizeWalksThrough(Str("None")) == []
  {
    StripKeepsStripped("None");
    assert Lower("None") == "none";
  }
}
