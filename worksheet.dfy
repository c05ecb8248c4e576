/** `maintenance_worksheet_templates/models/worksheet_template.py`: a service-interval
    worksheet accumulates the checklist fields of every lower interval that divides
    its own. The lower templates are found by parsing the interval out of their
    names; the fields of this interval come first and win, the `x_` fields of the
    lower intervals' views are added after them, and the form view lists the
    fields group by group in the groups' sorted order. */
module Worksheet {
  import opened Wrappers
  import opened Text
  import Sorting

  /** A `worksheet.template` found by the series search: its name and its external
      id (empty when it has none). */
  datatype Template = Template(id: nat, name: string, xmlId: string)

  /** An entry of `specific_fields` or `checklist_data`: its `name`, its `string`
      ("GROUP: caption") and its optional `type`. */
  datatype ChecklistItem = ChecklistItem(name: string, text: string, ttype: Option<string>)

  /** A field definition to create on the worksheet's model. */
  datatype NewField = NewField(name: string, description: string, ttype: string)

  /** An entry of `items_map`: the field name, its group and its description. */
  datatype Item = Item(name: string, group: string, description: string)

  /** A template of a lower interval with that interval. */
  datatype Lower = Lower(interval: int, template: Template)

  /** The exceptions that end the generation: `env.ref` of an unknown template, the
      `ValueError` of unpacking an external id that does not have exactly one dot,
      and, as written, the `ZeroDivisionError` of a lower template whose interval
      is 0. */
  datatype GenError =
    | TemplateNotFound(xmlId: string)
    | MalformedXmlId(xmlId: string)
    | DivisionByZero(name: string)

  // ---------------------------------------------------------------- field strings

  /** `parse_field_string`: "GROUP: caption" gives the group upper-cased and the caption,
      both stripped; a string without a colon is in the group "OTHER". */
  function ParseFieldString(s: string): (r: (string, string))
    ensures ':' !in s ==> r == ("OTHER", s)
  {
    match Find(s, ':')
    case None => ("OTHER", s)
    case Some(k) => (Upper(Strip(s[..k])), Strip(s[k + 1..]))
  }

  predicate Trimmed(s: string)
  {
    s == [] || (!IsSpace(s[0]) && !IsSpace(s[|s| - 1]))
  }

  predicate NoLowerCase(s: string)
  {
    forall i :: 0 <= i < |s| ==> !('a' <= s[i] <= 'z')
  }

  /** A group name is always stripped and has no lower-case letter. */
  lemma GroupNormalised(s: string)
    ensures Trimmed(ParseFieldString(s).0) && NoLowerCase(ParseFieldString(s).0)
  {
    if ':' in s {
      var k := Find(s, ':').value;
      UpperTrimmed(Strip(s[..k]));
    } else {
      assert !IsSpace('O') && !IsSpace('R');
    }
  }

  lemma UpperTrimmed(g: string)
    requires Trimmed(g)
    ensures Trimmed(Upper(g)) && NoLowerCase(Upper(g))
  {
    CaseMappings(g);
    if g != [] {
      assert Upper(g)[0] == UpperChar(g[0]);
      assert Upper(g)[|g| - 1] == UpperChar(g[|g| - 1]);
    }
  }

  /** Writing a group and a caption as "GROUP: caption" and parsing it gives them
      back. */
  lemma FormatThenParse(g: string, caption: string)
    requires ':' !in g && Trimmed(g) && NoLowerCase(g) && Trimmed(caption)
    ensures ParseFieldString(g + ": " + caption) == (g, caption)
  {
    FormattedParts(g, caption);
    StripTrimmed(g);
    UpperNoLowerCase(g);
    StripLeadingSpace(caption);
  }

  lemma FormattedParts(g: string, caption: string)
    requires ':' !in g
    ensures ParseFieldString(g + ": " + caption) == (Upper(Strip(g)), Strip(" " + caption))
  {
    FormatPieces(g, caption);
    ParseAt(g + ": " + caption, g, " " + caption, |g|);
  }

  lemma FormatPieces(g: string, caption: string)
    requires ':' !in g
    ensures Find(g + ": " + caption, ':') == Some(|g|)
    ensures (g + ": " + caption)[..|g|] == g
    ensures (g + ": " + caption)[|g| + 1..] == " " + caption
  {
    var s := g + ": " + caption;
    assert s[..|g|] == g && s[|g|] == ':';
    FindAt(s, ':', |g|);
  }

  lemma ParseAt(s: string, g: string, c: string, k: nat)
    requires Find(s, ':') == Some(k) && k == |g|
    requires s[..k] == g && s[k + 1..] == c
    ensures ParseFieldString(s) == (Upper(Strip(g)), Strip(c))
  {
  }

  lemma UpperNoLowerCase(g: string)
    requires NoLowerCase(g)
    ensures Upper(g) == g
  {
  }

  /** The checklist string of the documentation example. */
  lemma CleanFuelTank()
    ensures ParseFieldString("CLEAN: Fuel Tank") == ("CLEAN", "Fuel Tank")
  {
    assert "CLEAN" + ": " + "Fuel Tank" == "CLEAN: Fuel Tank";
    FormatThenParse("CLEAN", "Fuel Tank");
  }

  // ---------------------------------------------------------------- intervals

  /** The interval in a template name such as "JD 8230 - 250 Hour Service" or
      "Isuzu - 5,000 km Service": the first space-separated word after the last
      " - ", without commas, read by `int()`. `None` where the name has no " - "
      (`IndexError`) or the word is not a number (`ValueError`); the loop skips
      both. */
  function Interval(name: string): Option<int>
  {
    match AfterLastOccurrence(name, " - ")
    case None => None
    case Some(rest) => ParseInt(ReplaceAll(Before(rest, ' '), ",", ""))
  }

  /** A name made of a prefix, " - ", a word and a unit has the interval of that word,
      whatever the prefix holds. */
  lemma IntervalOfName(p: string, word: string, unit: string)
    requires word != [] && word[0] != '-' && ' ' !in word
    requires forall j :: !OccursAt(" " + unit, " - ", j)
    ensures Interval(p + " - " + word + " " + unit) == ParseInt(ReplaceAll(word, ",", ""))
  {
    var rest := word + " " + unit;
    assert p + " - " + word + " " + unit == p + " - " + rest;
    NoLaterSeparator(word, unit);
    AfterSeparator(p, " - ", rest);
    assert rest[..|word|] == word && rest[|word|] == ' ';
    FindAt(rest, ' ', |word|);
  }

  lemma NoLaterSeparator(word: string, unit: string)
    requires word != [] && word[0] != '-' && ' ' !in word
    requires forall j :: !OccursAt(" " + unit, " - ", j)
    ensures forall j :: 0 < j ==> !OccursAt(" - " + (word + " " + unit), " - ", j)
  {
    var s := " - " + (word + " " + unit);
    assert s == (" - " + word) + (" " + unit);
    forall j | 0 < j ensures !OccursAt(s, " - ", j) {
      if j >= 3 + |word| {
        ShiftOccurrence(" - " + word, " " + unit, " - ", j);
      } else if j + 3 <= |s| {
        assert s[j..j + 3][0] == s[j] && s[j..j + 3][1] == s[j + 1];
        if j >= 3 {
          assert s[j] == word[j - 3];
        } else if j == 2 {
          assert s[j + 1] == word[0];
        }
      }
    }
  }

  /** "JD 8230 - 250 Hour Service" is the 250-hour service. */
  lemma IntervalPlain(p: string, unit: string)
    requires '-' !in unit
    ensures Interval(p + " - 250 " + unit) == Some(250)
  {
    assert p + " - 250 " + unit == p + " - " + "250" + " " + unit;
    UnitWithoutDash(unit);
    WordOfName(p, "250", unit);
    PlainWord(ReplaceAll("250", ",", ""));
  }

  /** "Isuzu - 5,000 km Service": a thousands comma is dropped before `int()`. */
  lemma IntervalWithComma(p: string, unit: string)
    requires '-' !in unit
    ensures Interval(p + " - 5,000 " + unit) == Some(5000)
  {
    assert p + " - 5,000 " + unit == p + " - " + "5,000" + " " + unit;
    UnitWithoutDash(unit);
    WordOfName(p, "5,000", unit);
    CommaWord(ReplaceAll("5,000", ",", ""));
  }

  lemma WordOfName(p: string, word: string, unit: string)
    requires word == "250" || word == "5,000"
    requires forall j :: !OccursAt(" " + unit, " - ", j)
    ensures Interval(p + " - " + word + " " + unit) == ParseInt(ReplaceAll(word, ",", ""))
  {
    IntervalOfName(p, word, unit);
  }

  lemma PlainWord(x: string)
    requires x == ReplaceAll("250", ",", "")
    ensures ParseInt(x) == Some(250)
  {
    ReplaceCharAbsent("250", ',', "");
    ParseWord(250, "250");
  }

  lemma CommaWord(x: string)
    requires x == ReplaceAll("5,000", ",", "")
    ensures ParseInt(x) == Some(5000)
  {
    ReplacePrefix("5", ",000", "");
    ReplacePrefix(",", "000", "");
    ReplaceCharAbsent("000", ',', "");
    assert x == "5000";
    ParseWord(5000, "5000");
  }

  lemma ParseWord(n: nat, word: string)
    requires word == Decimal(n)
    ensures ParseInt(word) == Some(n)
  {
    ParseNatural(n);
  }

  /** A name without " - " has no interval. */
  lemma NoSeparatorNoInterval(name: string)
    requires forall j :: !OccursAt(name, " - ", j)
    ensures Interval(name).None?
  {
  }

  /** An interval in a template name free of " - " after the separator: the lemmas
      below need the unit to hold no '-'. */
  lemma UnitWithoutDash(unit: string)
    requires '-' !in unit
    ensures forall j :: !OccursAt(" " + unit, " - ", j)
  {
    AbsentByChar(" " + unit, " - ", 1);
  }

  // ---------------------------------------------------------------- lower templates

  /** Loop 1's test: the interval is below this one and divides it (Python's
      `interval % t == 0`, which for a non-zero `t` holds exactly when `t` divides
      `interval`, as Dafny's `%` does). */
  predicate IsLower(t: int, interval: int)
  {
    t != 0 && t < interval && interval % t == 0
  }

  /** Loop 1 as written: templates whose name has no interval are skipped; a template
      with interval 0 below a positive interval reaches `interval % 0`, and the
      `ZeroDivisionError` is not among the exceptions the loop catches. */
  function LowerAsWritten(templates: seq<Template>, interval: int): Result<seq<Lower>, GenError>
    decreases |templates|
  {
    if templates == [] then Ok([])
    else
      match LowerAsWritten(templates[..|templates| - 1], interval)
      case Err(e) => Err(e)
      case Ok(front) =>
        var t := templates[|templates| - 1];
        match Interval(t.name)
        case None => Ok(front)
        case Some(n) =>
          if n < interval && n == 0 then Err(DivisionByZero(t.name))
          else if IsLower(n, interval) then Ok(front + [Lower(n, t)])
          else Ok(front)
  }

  /** Loop 1 with a 0 interval skipped like a name without one: the templates whose
      interval is a proper factor of this one, in search order. */
  function LowerCandidates(templates: seq<Template>, interval: int): (r: seq<Lower>)
    ensures forall x :: x in r <==>
      x.template in templates && Interval(x.template.name) == Some(x.interval) && IsLower(x.interval, interval)
    decreases |templates|
  {
    if templates == [] then []
    else
      var front := templates[..|templates| - 1];
      var t := templates[|templates| - 1];
      assert templates == front + [t];
      var rest := LowerCandidates(front, interval);
      match Interval(t.name)
      case None => rest
      case Some(n) => if IsLower(n, interval) then rest + [Lower(n, t)] else rest
  }

  /** Some template of the search has interval 0. */
  predicate HasZeroInterval(templates: seq<Template>)
    decreases |templates|
  {
    templates != [] &&
    (HasZeroInterval(templates[..|templates| - 1]) || Interval(templates[|templates| - 1].name) == Some(0))
  }

  /** The loop as written raises exactly when some template has interval 0 and this
      interval is positive; otherwise it selects what the corrected loop selects. */
  lemma {:induction false} LowerAsWrittenAgrees(templates: seq<Template>, interval: int)
    ensures LowerAsWritten(templates, interval).Err? <==> 0 < interval && HasZeroInterval(templates)
    ensures LowerAsWritten(templates, interval).Ok? ==>
      LowerAsWritten(templates, interval).value == LowerCandidates(templates, interval)
    decreases |templates|
  {
    if templates != [] {
      LowerAsWrittenAgrees(templates[..|templates| - 1], interval);
    }
  }

  /** "JD 8230 - 0 Hour Service" found by the search of the 250-hour service stops
      the generation as written. */
  lemma ZeroIntervalRaises()
    ensures LowerAsWritten([Template(1, "JD 8230 - 0 Hour Service", "")], 250).Err?
  {
    var name := "JD 8230 - 0 Hour Service";
    assert name == "JD 8230" + " - " + "0" + " " + "Hour Service";
    UnitWithoutDash("Hour Service");
    IntervalOfName("JD 8230", "0", "Hour Service");
    ZeroWord(ReplaceAll("0", ",", ""));
    LowerAsWrittenAgrees([Template(1, name, "")], 250);
    assert [Template(1, name, "")][0].name == name;
  }

  lemma ZeroWord(x: string)
    requires x == ReplaceAll("0", ",", "")
    ensures ParseInt(x) == Some(0)
  {
    ReplaceCharAbsent("0", ',', "");
    ParseWord(0, "0");
  }

  /** The order of `lower_templates.sort(key=lambda x: x[0])`. */
  predicate ByInterval(a: Lower, b: Lower)
  {
    a.interval <= b.interval
  }

  lemma ByIntervalIsPreorder()
    ensures Sorting.TotalPreorder(ByInterval)
  {
  }

  /** The lower templates in ascending interval, templates of one interval in search
      order. */
  function LowerTemplates(templates: seq<Template>, interval: int): (r: seq<Lower>)
    ensures Sorting.Ascending(r, ByInterval)
    ensures multiset(r) == multiset(LowerCandidates(templates, interval))
  {
    ByIntervalIsPreorder();
    Sorting.Sort(LowerCandidates(templates, interval), ByInterval)
  }

  /** The sort is stable: the templates of any one interval `k.interval` keep the
      order in which the search found them. */
  lemma LowerTemplatesStable(templates: seq<Template>, interval: int, k: Lower)
    ensures Sorting.TiedWith(LowerTemplates(templates, interval), k, ByInterval) ==
      Sorting.TiedWith(LowerCandidates(templates, interval), k, ByInterval)
    ensures forall x :: Sorting.Tied(x, k, ByInterval) <==> x.interval == k.interval
  {
    ByIntervalIsPreorder();
    Sorting.SortStable(LowerCandidates(templates, interval), k, ByInterval);
  }

  /** Each selected template is a proper factor of this interval, found by the search,
      and every such template is selected. */
  lemma LowerTemplatesSelect(templates: seq<Template>, interval: int)
    ensures forall x :: x in LowerTemplates(templates, interval) <==>
      x.template in templates && Interval(x.template.name) == Some(x.interval) && IsLower(x.interval, interval)
  {
    var r := LowerTemplates(templates, interval);
    var c := LowerCandidates(templates, interval);
    forall x ensures x in r <==> x in c {
      assert x in r <==> x in multiset(r);
      assert x in c <==> x in multiset(c);
    }
  }
}
