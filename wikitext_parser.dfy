/** Extraction of a boss record from the wikitext of its wiki page
    (app/services/wikitext_parser.py). Turning markup into templates is the
    work of the mwparserfromhell library, which is not part of this model:
    it enters as a function that gives, for a text, either its templates in
    document order (nested ones included) or `None` when the library itself
    rejects the markup. */
module WikitextParser {
  import opened Wrappers
  import opened Text
  import opened BossModel

  /** A template parameter as written: `name=value`, or only `value` for a
      positional parameter, whose name is then empty or a number. */
  datatype Param = Param(name: string, value: string)

  datatype Template = Template(name: string, params: seq<Param>)

  /** The three ways `WikitextParser.parse` raises `ParserError`. */
  datatype ParserError =
    | EmptyWikitext    // the wikitext is empty
    | MarkupError      // the markup library rejected the text
    | InfoboxNotFound  // no template is an infobox for a boss

  /** `_find_infobox_boss`'s test on a template name, in the form it
      reduces to: the stripped, lower-cased name contains both "infobox" and
      "boss" (`InfoboxTestIsContainment` shows that the exact comparison
      with "infobox boss" tested first adds nothing). */
  predicate IsInfoboxBoss(name: string) {
    NamesInfoboxBoss(Lower(Strip(name)))
  }

  /** A normalised template name that mentions both words. */
  predicate NamesInfoboxBoss(n: string) {
    Contains(n, "infobox") && Contains(n, "boss")
  }

  /** The two tests of `_find_infobox_boss`, one after the other, accept
      exactly the names `IsInfoboxBoss` accepts. */
  lemma InfoboxTestIsContainment(name: string)
    ensures var n := Lower(Strip(name));
      IsInfoboxBoss(name) <==> (n == "infobox boss" || (Contains(n, "infobox") && Contains(n, "boss")))
  {
    var n := Lower(Strip(name));
    if n == "infobox boss" {
      InfoboxBossContainsBoth(n);
    }
  }

  lemma InfoboxBossContainsBoth(n: string)
    requires n == "infobox boss"
    ensures Contains(n, "infobox") && Contains(n, "boss")
  {
    assert n[0..7] == "infobox";
    assert OccursAt(n, "infobox", 0);
    assert n[8..12] == "boss";
    assert OccursAt(n, "boss", 8);
    ContainsIffOccurs(n, "boss");
  }

  /** For each template, whether it passes `_find_infobox_boss`'s test. */
  function InfoboxFlags(ts: seq<Template>): (flags: seq<bool>)
    ensures |flags| == |ts|
  {
    if |ts| == 0 then [] else InfoboxFlags(ts[..|ts| - 1]) + [IsInfoboxBoss(ts[|ts| - 1].name)]
  }

  lemma {:induction false} InfoboxFlagsAt(ts: seq<Template>, k: nat)
    requires k < |ts|
    ensures InfoboxFlags(ts)[k] == IsInfoboxBoss(ts[k].name)
  {
    if k < |ts| - 1 {
      assert ts[..|ts| - 1][k] == ts[k];
      InfoboxFlagsAt(ts[..|ts| - 1], k);
    }
  }

  /** The position of the first `true`. */
  function FirstTrue(flags: seq<bool>): (r: Option<nat>)
    ensures r.Some? ==> r.value < |flags| && flags[r.value]
    ensures r.Some? ==> forall k :: 0 <= k < r.value ==> !flags[k]
    ensures r.None? <==> forall k :: 0 <= k < |flags| ==> !flags[k]
  {
    if |flags| == 0 then None
    else if flags[0] then Some(0)
    else
      match FirstTrue(flags[1..])
      case None => None
      case Some(i) => Some(i + 1)
  }

  /** The first `true` is found where all before are `false`. */
  lemma {:induction false} FirstTrueAt(flags: seq<bool>, i: nat)
    requires i < |flags| && flags[i]
    requires forall k :: 0 <= k < i ==> !flags[k]
    ensures FirstTrue(flags) == Some(i)
  {
    if i > 0 {
      FirstTrueAt(flags[1..], i - 1);
    }
  }

  lemma FirstTrueNone(flags: seq<bool>)
    requires forall k :: 0 <= k < |flags| ==> !flags[k]
    ensures FirstTrue(flags) == None
  {
  }

  /** The position of the first infobox template. */
  function FirstInfobox(ts: seq<Template>): (r: Option<nat>)
  {
    FirstTrue(InfoboxFlags(ts))
  }

  /** The loop body of `_find_infobox_boss`: the two tests on a template's
      name, one after the other. */
  method TestTemplateName(name: string) returns (found: bool)
    ensures found == IsInfoboxBoss(name)
  {
    var templateName := Strip(name);
    if Lower(templateName) == "infobox boss" {
      InfoboxBossContainsBoth(Lower(templateName));
      return true;
    }
    if Contains(Lower(templateName), "infobox") && Contains(Lower(templateName), "boss") {
      return true;
    }
    return false;
  }

  /** `_find_infobox_boss`: scans the templates in order and stops at the
      first whose name passes the test. */
  method FindInfoboxBoss(templates: seq<Template>) returns (r: Option<nat>)
    ensures IsFirstInfobox(templates, r)
  {
    for i := 0 to |templates|
      invariant forall k :: 0 <= k < i ==> !IsInfoboxBoss(templates[k].name)
    {
      var found := TestTemplateName(templates[i].name);
      if found {
        return Some(i);
      }
    }
    return None;
  }

  /** `r` is the position of the first template that passes the test, or
      None when no template passes it. */
  predicate IsFirstInfobox(ts: seq<Template>, r: Option<nat>) {
    match r
    case Some(i) =>
      i < |ts| && IsInfoboxBoss(ts[i].name) && forall k :: 0 <= k < i ==> !IsInfoboxBoss(ts[k].name)
    case None =>
      forall k :: 0 <= k < |ts| ==> !IsInfoboxBoss(ts[k].name)
  }

  /** Only one answer is the first infobox: the one `FirstInfobox` gives. */
  lemma FirstInfoboxUnique(ts: seq<Template>, r: Option<nat>)
    requires IsFirstInfobox(ts, r)
    ensures r == FirstInfobox(ts)
  {
    if r.Some? {
      FirstInfoboxAt(ts, r.value);
    } else {
      FirstInfoboxNone(ts);
    }
  }

  lemma FirstInfoboxAt(ts: seq<Template>, i: nat)
    requires i < |ts| && IsInfoboxBoss(ts[i].name)
    requires forall k :: 0 <= k < i ==> !IsInfoboxBoss(ts[k].name)
    ensures FirstInfobox(ts) == Some(i)
  {
    var flags := InfoboxFlags(ts);
    forall k | 0 <= k <= i
      ensures flags[k] == IsInfoboxBoss(ts[k].name)
    {
      InfoboxFlagsAt(ts, k);
    }
    FirstTrueAt(flags, i);
  }

  lemma FirstInfoboxNone(ts: seq<Template>)
    requires forall k :: 0 <= k < |ts| ==> !IsInfoboxBoss(ts[k].name)
    ensures FirstInfobox(ts) == None
  {
    FirstInfoboxIsFirst(ts);
  }

  /** The record fields a parameter can fill. */
  datatype Field = NameField | HpField | ExpField | WalksField | ImmunitiesField

  /** `field_mapping`: the accepted parameter names, lower-cased, and the
      field each one fills. */
  const FieldMapping: map<string, Field> := map[
    "name" := NameField,
    "hp" := HpField, "hitpoints" := HpField, "health" := HpField,
    "exp" := ExpField, "experience" := ExpField, "xp" := ExpField,
    "walks through" := WalksField, "walksthrough" := WalksField,
    "walks_through" := WalksField,
    "immunities" := ImmunitiesField, "immunity" := ImmunitiesField,
    "immune" := ImmunitiesField]

  /** A list field while parameters are read: still the initial empty list,
      or the text built so far. */
  datatype ListText = Unset | Joined(text: string)

  /** The dictionary `_extract_template_data` fills: the name, the raw
      texts of hit points and experience, and the two list texts. */
  datatype Extracted = Extracted(
    name: string,
    hp: Option<string>,
    exp: Option<string>,
    walksThrough: ListText,
    immunities: ListText)

  /** A parameter as the extraction reads it: the field its stripped,
      lower-cased name is mapped to (None when the name is not in the
      mapping), its stripped value, and whether it is positional (its
      stripped name is empty or `"1"`). */
  datatype Reading = Reading(field: Option<Field>, value: string, positional: bool)

  /** The test of the search for the positional name: the stripped name
      is empty or all digits, and it is `"1"` or empty. */
  predicate IsPositional(p: Param) {
    var n := Strip(p.name);
    (n == "" || IsDigitString(n)) && (n == "1" || n == "")
  }

  function Read(p: Param): Reading {
    var key := Lower(Strip(p.name));
    Reading(if key in FieldMapping then Some(FieldMapping[key]) else None,
            Strip(p.value), IsPositional(p))
  }

  function ReadAll(ps: seq<Param>): (rs: seq<Reading>)
    ensures |rs| == |ps|
  {
    if |ps| == 0 then [] else ReadAll(ps[..|ps| - 1]) + [Read(ps[|ps| - 1])]
  }

  lemma {:induction false} ReadAllAt(ps: seq<Param>, k: nat)
    requires k < |ps|
    ensures ReadAll(ps)[k] == Read(ps[k])
  {
    if k < |ps| - 1 {
      assert ps[..|ps| - 1][k] == ps[k];
      ReadAllAt(ps[..|ps| - 1], k);
    }
  }

  /** The field a parameter fills, if any. */
  predicate Fills(r: Reading, f: Field) {
    r.field == Some(f)
  }

  /** A further value of a list field: it replaces an empty (falsy) list
      or text, and is otherwise added behind `", "`. */
  function Append(acc: ListText, v: string): ListText {
    if acc.Unset? || acc.text == "" then Joined(v) else Joined(acc.text + ", " + v)
  }

  /** One turn of the loop over the parameters. */
  function Assign(d: Extracted, r: Reading): Extracted {
    match r.field
    case None => d
    case Some(NameField) => d.(name := r.value)
    case Some(HpField) => d.(hp := Some(r.value))
    case Some(ExpField) => d.(exp := Some(r.value))
    case Some(WalksField) => d.(walksThrough := Append(d.walksThrough, r.value))
    case Some(ImmunitiesField) => d.(immunities := Append(d.immunities, r.value))
  }

  /** The whole loop over the parameters, in order. */
  function AssignAll(d: Extracted, rs: seq<Reading>): Extracted {
    if |rs| == 0 then d else Assign(AssignAll(d, rs[..|rs| - 1]), rs[|rs| - 1])
  }

  /** One more turn of the loop. */
  lemma AssignAllSnoc(d: Extracted, rs: seq<Reading>, i: nat)
    requires i < |rs|
    ensures AssignAll(d, rs[..i + 1]) == Assign(AssignAll(d, rs[..i]), rs[i])
  {
    assert rs[..i + 1][..i] == rs[..i];
  }

  /** The value of the first positional parameter, or `""` when there is
      none. */
  function PositionalName(rs: seq<Reading>): (r: string)
    ensures (forall k :: 0 <= k < |rs| ==> !rs[k].positional) ==> r == ""
    ensures forall k :: (0 <= k < |rs| && rs[k].positional &&
      forall m :: 0 <= m < k ==> !rs[m].positional) ==> r == rs[k].value
  {
    if |rs| == 0 then ""
    else if rs[0].positional then rs[0].value
    else PositionalName(rs[1..])
  }

  /** A parameter that is not positional is passed over. */
  lemma PositionalNameSkips(rs: seq<Reading>, i: nat)
    requires i < |rs| && !rs[i].positional
    ensures PositionalName(rs[i..]) == PositionalName(rs[i + 1..])
  {
    assert rs[i..][1..] == rs[i + 1..];
  }

  /** Python truthiness of an optional text. */
  predicate Truthy(o: Option<string>) {
    o.Some? && o.value != ""
  }

  /** The dictionary before the loop over the parameters. */
  function Start(rs: seq<Reading>, bossName: Option<string>): Extracted {
    Extracted(if Truthy(bossName) then bossName.value else PositionalName(rs),
              None, None, Unset, Unset)
  }

  /** What `_extract_template_data` returns: the name starts as the given
      boss name or, when that is missing or empty, as the first positional
      parameter; the parameters are read in order; an empty name is finally
      replaced by a non-empty boss name. */
  function TemplateData(t: Template, bossName: Option<string>): Extracted {
    var rs := ReadAll(t.params);
    var d := AssignAll(Start(rs, bossName), rs);
    if d.name == "" && Truthy(bossName) then d.(name := bossName.value) else d
  }

  /** `_extract_template_data`, as the source writes it: a search for the
      positional name that stops at the first hit, then one pass over all
      parameters. Each parameter is read (stripped, lower-cased) the same
      way in both loops, so the readings are taken once up front. */
  method ExtractTemplateData(t: Template, bossName: Option<string>) returns (d: Extracted)
    ensures d == TemplateData(t, bossName)
  {
    var rs := ReadAll(t.params);
    var name := if Truthy(bossName) then bossName.value else "";
    if name == "" {
      name := FindPositionalName(rs);
    }
    d := AssignReadings(Extracted(name, None, None, Unset, Unset), rs);
    if d.name == "" && Truthy(bossName) {
      d := d.(name := bossName.value);
    }
  }

  /** The first loop of `_extract_template_data`: the value of the first
      positional parameter, or "" when there is none. */
  method FindPositionalName(rs: seq<Reading>) returns (name: string)
    ensures name == PositionalName(rs)
  {
    var i := 0;
    while i < |rs|
      invariant 0 <= i <= |rs|
      invariant PositionalName(rs) == PositionalName(rs[i..])
    {
      if rs[i].positional {
        return rs[i].value;
      }
      PositionalNameSkips(rs, i);
      i := i + 1;
    }
    assert rs[i..] == [];
    return "";
  }

  /** The second loop of `_extract_template_data`: every reading assigned
      in order. */
  method AssignReadings(start: Extracted, rs: seq<Reading>) returns (d: Extracted)
    ensures d == AssignAll(start, rs)
  {
    d := start;
    for i := 0 to |rs|
      invariant d == AssignAll(start, rs[..i])
    {
      AssignAllSnoc(start, rs, i);
      d := Assign(d, rs[i]);
    }
    assert rs[..|rs|] == rs;
  }

  /** The stripped values of the parameters that fill field `f`, in order:
      the reference the loop over the parameters is measured against. */
  function ValuesFor(rs: seq<Reading>, f: Field): (r: seq<string>)
    ensures |r| <= |rs|
  {
    if |rs| == 0 then []
    else if Fills(rs[|rs| - 1], f) then ValuesFor(rs[..|rs| - 1], f) + [rs[|rs| - 1].value]
    else ValuesFor(rs[..|rs| - 1], f)
  }

  /** The last value given to a scalar field, or the starting one. */
  function LastOr<T>(vs: seq<T>, otherwise: T): T {
    if |vs| == 0 then otherwise else vs[|vs| - 1]
  }

  /** The name, hit points and experience are each set by the last
      parameter that fills them, whatever else comes between. */
  lemma {:induction false} ScalarFieldsTakeLastValue(d: Extracted, rs: seq<Reading>)
    ensures AssignAll(d, rs).name == LastOr(ValuesFor(rs, NameField), d.name)
    ensures AssignAll(d, rs).hp ==
      (if ValuesFor(rs, HpField) == [] then d.hp else Some(LastOr(ValuesFor(rs, HpField), "")))
    ensures AssignAll(d, rs).exp ==
      (if ValuesFor(rs, ExpField) == [] then d.exp else Some(LastOr(ValuesFor(rs, ExpField), "")))
  {
    if |rs| > 0 {
      var init := rs[..|rs| - 1];
      ScalarFieldsTakeLastValue(d, init);
      AssignScalarFields(AssignAll(d, init), rs[|rs| - 1]);
    }
  }

  /** One turn of the loop sets a scalar field exactly when the parameter
      fills that field. */
  lemma AssignScalarFields(d: Extracted, r: Reading)
    ensures Assign(d, r).name == if Fills(r, NameField) then r.value else d.name
    ensures Assign(d, r).hp == if Fills(r, HpField) then Some(r.value) else d.hp
    ensures Assign(d, r).exp == if Fills(r, ExpField) then Some(r.value) else d.exp
  {
  }

  /** `vs` without its leading empty texts. */
  function DropLeadingEmpty(vs: seq<string>): (r: seq<string>)
    ensures |r| <= |vs| && r == vs[|vs| - |r|..]
    ensures r == [] || r[0] != ""
    ensures forall k :: 0 <= k < |vs| - |r| ==> vs[k] == ""
  {
    if |vs| == 0 then []
    else if vs[0] == "" then DropLeadingEmpty(vs[1..])
    else vs
  }

  /** The closed form of a list field read from parameters: unset when no
      parameter fills it, otherwise its values joined with `", "`, where the
      leading empty values have been dropped (an empty text counts as no
      value yet, and is replaced by the next one). */
  function ListOf(vs: seq<string>): ListText {
    if vs == [] then Unset else Joined(Join(DropLeadingEmpty(vs), ", "))
  }

  /** Adding one more value behind a join. */
  lemma {:induction false} JoinSnoc(xs: seq<string>, v: string)
    requires |xs| > 0
    ensures Join(xs + [v], ", ") == Join(xs, ", ") + ", " + v
  {
    if |xs| == 1 {
      assert (xs + [v])[1..] == [v];
    } else {
      assert (xs + [v])[1..] == xs[1..] + [v];
      JoinSnoc(xs[1..], v);
    }
  }

  /** A join of items whose first one is not empty is not empty. */
  lemma JoinNonEmpty(xs: seq<string>)
    requires |xs| > 0 && xs[0] != ""
    ensures Join(xs, ", ") != ""
  {
  }

  /** Dropping leading empties from a longer sequence. */
  lemma DropLeadingEmptySnoc(vs: seq<string>, v: string)
    ensures DropLeadingEmpty(vs + [v]) ==
      if DropLeadingEmpty(vs) != [] then DropLeadingEmpty(vs) + [v]
      else if v == "" then [] else [v]
  {
    if DropLeadingEmpty(vs) != [] {
      DropLeadingEmptySnocKept(vs, v);
    } else {
      DropLeadingEmptySnocAllEmpty(vs, v);
    }
  }

  lemma DropLeadingEmptySnocKept(vs: seq<string>, v: string)
    requires DropLeadingEmpty(vs) != []
    ensures DropLeadingEmpty(vs + [v]) == DropLeadingEmpty(vs) + [v]
  {
    var r := DropLeadingEmpty(vs);
    var w := vs + [v];
    var k := |vs| - |r|;
    assert w[k..] == r + [v];
    assert w[k] == r[0];
    DropLeadingEmptyFrom(w, k);
  }

  lemma DropLeadingEmptySnocAllEmpty(vs: seq<string>, v: string)
    requires DropLeadingEmpty(vs) == []
    ensures DropLeadingEmpty(vs + [v]) == if v == "" then [] else [v]
  {
    var w := vs + [v];
    DropLeadingEmptyFrom(w, |vs|);
    assert w[|vs|..] == [v];
  }

  /** When everything before index `k` is empty and `vs[k]` is not (or `k`
      is the end), the drop starts at `k`. */
  lemma DropLeadingEmptyFrom(vs: seq<string>, k: nat)
    requires k <= |vs|
    requires forall m :: 0 <= m < k ==> vs[m] == ""
    requires k < |vs| ==> vs[k] != "" || k == |vs| - 1
    ensures DropLeadingEmpty(vs) ==
      if k < |vs| && vs[k] != "" then vs[k..] else []
    decreases k
  {
    if k > 0 {
      assert vs[1..][k - 1..] == vs[k..];
      DropLeadingEmptyFrom(vs[1..], k - 1);
    } else if k < |vs| && vs[k] == "" {
      assert vs[1..] == [];
    }
  }

  /** Appending to the closed form of a list gives the closed form of the
      longer list. */
  lemma AppendListOf(vs: seq<string>, v: string)
    ensures Append(ListOf(vs), v) == ListOf(vs + [v])
  {
    DropLeadingEmptySnoc(vs, v);
    var r := DropLeadingEmpty(vs);
    if r != [] {
      JoinNonEmpty(r);
      JoinSnoc(r, v);
    } else if vs != [] {
      assert Join(r, ", ") == "";
    }
  }

  predicate IsListField(f: Field) {
    f == WalksField || f == ImmunitiesField
  }

  /** The list text of a list field. */
  function ListFieldOf(d: Extracted, f: Field): ListText
    requires IsListField(f)
  {
    if f == WalksField then d.walksThrough else d.immunities
  }

  /** One turn of the loop adds a value to a list field exactly when the
      parameter fills that field. */
  lemma AssignListField(d: Extracted, r: Reading, f: Field)
    requires IsListField(f)
    ensures ListFieldOf(Assign(d, r), f) ==
      if Fills(r, f) then Append(ListFieldOf(d, f), r.value) else ListFieldOf(d, f)
  {
  }

  /** A list field that starts unset is the closed form of the values given
      to it. */
  lemma {:induction false} ListFieldJoinsValues(d: Extracted, rs: seq<Reading>, f: Field)
    requires IsListField(f) && ListFieldOf(d, f) == Unset
    ensures ListFieldOf(AssignAll(d, rs), f) == ListOf(ValuesFor(rs, f))
  {
    if |rs| > 0 {
      var init := rs[..|rs| - 1];
      var r := rs[|rs| - 1];
      ListFieldJoinsValues(d, init, f);
      AssignListField(AssignAll(d, init), r, f);
      if Fills(r, f) {
        AppendListOf(ValuesFor(init, f), r.value);
      }
    }
  }

  /** Where the name comes from: a non-empty last `name` parameter; else a
      non-empty boss name; else the empty text if a `name` parameter was
      given; else the first positional parameter (or `""`). */
  lemma TemplateDataName(t: Template, bossName: Option<string>)
    ensures var names := ValuesFor(ReadAll(t.params), NameField);
      TemplateData(t, bossName).name ==
        if names != [] && LastOr(names, "") != "" then LastOr(names, "")
        else if Truthy(bossName) then bossName.value
        else if names != [] then ""
        else PositionalName(ReadAll(t.params))
  {
    var rs := ReadAll(t.params);
    ScalarFieldsTakeLastValue(Start(rs, bossName), rs);
  }

  /** A raw scalar text as handed to the record. */
  function ScalarValue(o: Option<string>): RawValue {
    match o
    case None => Absent
    case Some(s) => Str(s)
  }

  /** A list field as handed to the record: the initial empty list or the
      built text. */
  function ListValue(l: ListText): RawValue {
    match l
    case Unset => StrList([])
    case Joined(s) => Str(s)
  }

  /** `BossModel(**data)`. */
  function ToBoss(d: Extracted): Boss {
    Validate(BossFields(d.name, ScalarValue(d.hp), ScalarValue(d.exp),
                        ListValue(d.walksThrough), ListValue(d.immunities)))
  }

  /** `WikitextParser.parse`: the result of parsing the page text, given
      the library's reading of the markup. */
  function ParseWikitext(wikitext: string, bossName: Option<string>,
                         templatesOf: string -> Option<seq<Template>>): Result<Boss, ParserError>
  {
    if wikitext == "" then Err(EmptyWikitext)
    else
      match templatesOf(wikitext)
      case None => Err(MarkupError)
      case Some(ts) =>
        match FirstInfobox(ts)
        case None => Err(InfoboxNotFound)
        case Some(i) => Ok(ToBoss(TemplateData(ts[i], bossName)))
  }

  /** `WikitextParser.parse` written as the source runs it. */
  method Parse(wikitext: string, bossName: Option<string>,
               templatesOf: string -> Option<seq<Template>>) returns (r: Result<Boss, ParserError>)
    ensures r == ParseWikitext(wikitext, bossName, templatesOf)
  {
    if wikitext == "" {
      return Err(EmptyWikitext);
    }
    var wikicode := templatesOf(wikitext);
    if wikicode.None? {
      return Err(MarkupError);
    }
    var infobox := FindInfoboxBoss(wikicode.value);
    FirstInfoboxUnique(wikicode.value, infobox);
    if infobox.None? {
      return Err(InfoboxNotFound);
    }
    var data := ExtractTemplateData(wikicode.value[infobox.value], bossName);
    return Ok(ToBoss(data));
  }

  /** Parsing fails exactly in the three documented ways: an empty text, a
      markup failure, or no infobox template; otherwise the record is built
      from the first infobox template. */
  lemma ParseOutcome(wikitext: string, bossName: Option<string>,
                     templatesOf: string -> Option<seq<Template>>)
    ensures var r := ParseWikitext(wikitext, bossName, templatesOf);
      (r == Err(EmptyWikitext) <==> wikitext == "") &&
      (r == Err(MarkupError) <==> wikitext != "" && templatesOf(wikitext).None?) &&
      (r == Err(InfoboxNotFound) <==>
         wikitext != "" && templatesOf(wikitext).Some? &&
         FirstInfobox(templatesOf(wikitext).value).None?) &&
      (r.Ok? ==>
         var ts := templatesOf(wikitext).value;
         var i := FirstInfobox(ts).value;
         r.value == ToBoss(TemplateData(ts[i], bossName)))
  {
  }

  /** `FirstInfobox` finds the first template that passes the test, and
      finds nothing exactly when no template passes it. */
  lemma FirstInfoboxIsFirst(ts: seq<Template>)
    ensures FirstInfobox(ts).Some? ==>
      var i := FirstInfobox(ts).value;
      i < |ts| && IsInfoboxBoss(ts[i].name) &&
      forall k :: 0 <= k < i ==> !IsInfoboxBoss(ts[k].name)
    ensures FirstInfobox(ts).None? <==> forall k :: 0 <= k < |ts| ==> !IsInfoboxBoss(ts[k].name)
  {
    var flags := InfoboxFlags(ts);
    forall k | 0 <= k < |ts|
      ensures flags[k] == IsInfoboxBoss(ts[k].name)
    {
      InfoboxFlagsAt(ts, k);
    }
  }

  /** In a parsed record, hit points and experience are the validated text
      of the last parameter naming them, or None when no parameter does. */
  lemma ParsedNumbers(t: Template, bossName: Option<string>)
    ensures var b := ToBoss(TemplateData(t, bossName));
      var hps := ValuesFor(ReadAll(t.params), HpField);
      var exps := ValuesFor(ReadAll(t.params), ExpField);
      b.hp == (if hps == [] then None else SanitizeHp(Str(LastOr(hps, "")))) &&
      b.exp == (if exps == [] then None else SanitizeHp(Str(LastOr(exps, ""))))
  {
    var rs := ReadAll(t.params);
    ScalarFieldsTakeLastValue(Start(rs, bossName), rs);
  }

  /** Repeated list parameters holding one clean item each come out of the
      parser as exactly those items, in order. */
  lemma ParsedImmunities(t: Template, bossName: Option<string>)
    requires var vs := ValuesFor(ReadAll(t.params), ImmunitiesField);
      |vs| > 0 &&
      (forall k :: 0 <= k < |vs| ==>
        vs[k] != "" && Stripped(vs[k]) && ',' !in vs[k] && '(' !in vs[k]) &&
      Lower(Join(vs, ", ")) !in {"none", "n/a", "???"}
    ensures ToBoss(TemplateData(t, bossName)).immunities == ValuesFor(ReadAll(t.params), ImmunitiesField)
  {
    var rs := ReadAll(t.params);
    var vs := ValuesFor(rs, ImmunitiesField);
    var d := TemplateData(t, bossName);
    assert d.immunities == Joined(Join(vs, ", ")) by {
      ListFieldJoinsValues(Start(rs, bossName), rs, ImmunitiesField);
      assert DropLeadingEmpty(vs) == vs;
    }
    assert ToBoss(d).immunities == SanitizeWalksThrough(Str(Join(vs, ", ")));
    SanitizeWalksThroughRoundTrip(vs);
  }

  /** The same for the walks-through list. */
  lemma ParsedWalksThrough(t: Template, bossName: Option<string>)
    requires var vs := ValuesFor(ReadAll(t.params), WalksField);
      |vs| > 0 &&
      (forall k :: 0 <= k < |vs| ==>
        vs[k] != "" && Stripped(vs[k]) && ',' !in vs[k] && '(' !in vs[k]) &&
      Lower(Join(vs, ", ")) !in {"none", "n/a", "???"}
    ensures ToBoss(TemplateData(t, bossName)).walksThrough == ValuesFor(ReadAll(t.params), WalksField)
  {
    var rs := ReadAll(t.params);
    var vs := ValuesFor(rs, WalksField);
    var d := TemplateData(t, bossName);
    assert d.walksThrough == Joined(Join(vs, ", ")) by {
      ListFieldJoinsValues(Start(rs, bossName), rs, WalksField);
      assert DropLeadingEmpty(vs) == vs;
    }
    assert ToBoss(d).walksThrough == SanitizeWalksThrough(Str(Join(vs, ", ")));
    SanitizeWalksThroughRoundTrip(vs);
  }

  /** A list field no parameter fills is empty in the record. */
  lemma UnfilledListsAreEmpty(t: Template, bossName: Option<string>)
    ensures ValuesFor(ReadAll(t.params), WalksField) == [] ==>
      ToBoss(TemplateData(t, bossName)).walksThrough == []
    ensures ValuesFor(ReadAll(t.params), ImmunitiesField) == [] ==>
      ToBoss(TemplateData(t, bossName)).immunities == []
  {
    var rs := ReadAll(t.params);
    var d := TemplateData(t, bossName);
    ListFieldJoinsValues(Start(rs, bossName), rs, WalksField);
    ListFieldJoinsValues(Start(rs, bossName), rs, ImmunitiesField);
    assert ListFieldOf(d, WalksField) == ListOf(ValuesFor(rs, WalksField));
    assert ListFieldOf(d, ImmunitiesField) == ListOf(ValuesFor(rs, ImmunitiesField));
  }
}
