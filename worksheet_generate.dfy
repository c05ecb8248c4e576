/** `_generate_accumulated_template` and `_preload_maintenance_templates` of
    `maintenance_worksheet_templates/models/worksheet_template.py`: the `items_map`
    of this interval's own fields and the `x_` fields harvested from the views of the
    lower intervals, the `<form>` arch that lists them group by group, and the view
    that receives it. */
module AccumulatedTemplate {
  import opened Wrappers
  import opened Text
  import Sorting
  import opened Worksheet

  // ---------------------------------------------------------------- items_map

  /** The keys of `items_map` in insertion order. */
  function Names(items: seq<Item>): (r: seq<string>)
    ensures |r| == |items|
    ensures forall i :: 0 <= i < |items| ==> r[i] == items[i].name
  {
    seq(|items|, i requires 0 <= i < |items| => items[i].name)
  }

  /** A dict holds each key once. */
  predicate UniqueNames(items: seq<Item>)
  {
    forall i, j :: 0 <= i < j < |items| ==> items[i].name != items[j].name
  }

  /** `items_map[it.name] = it`: a key already present keeps its place and takes the
      new value, a new key goes last. */
  function Assign(items: seq<Item>, it: Item): (r: seq<Item>)
    ensures it in r
    ensures forall x :: x in r ==> x == it || x in items
    ensures UniqueNames(items) ==> UniqueNames(r)
    ensures forall x :: x in items && x.name != it.name ==> x in r
    ensures Names(r) == if it.name in Names(items) then Names(items) else Names(items) + [it.name]
  {
    if it.name in Names(items) then
      var r := seq(|items|, i requires 0 <= i < |items| => if items[i].name == it.name then it else items[i]);
      assert Names(r) == Names(items);
      var k :| 0 <= k < |items| && Names(items)[k] == it.name;
      assert r[k] == it;
      r
    else
      assert Names(items + [it]) == Names(items) + [it.name];
      items + [it]
  }

  /** An entry of `specific_fields` as an `items_map` value: its group parsed from its
      `string`. */
  function SpecificItem(c: ChecklistItem): Item
  {
    Item(c.name, ParseFieldString(c.text).0, c.text)
  }

  /** The checklist entries as `items_map` values, duplicates included. */
  function AsItems(entries: seq<ChecklistItem>): (r: seq<Item>)
    ensures |r| == |entries|
    ensures forall i :: 0 <= i < |entries| ==> r[i] == SpecificItem(entries[i])
  {
    seq(|entries|, i requires 0 <= i < |entries| => SpecificItem(entries[i]))
  }

  /** Loop 2's `items_map`: each specific field assigned in turn. */
  function SpecificItems(specific: seq<ChecklistItem>): (r: seq<Item>)
    ensures UniqueNames(r)
    ensures Names(r) == Dedup(Names(AsItems(specific)))
    ensures forall x :: x in r ==> exists i :: 0 <= i < |specific| && x == SpecificItem(specific[i])
    decreases |specific|
  {
    if specific == [] then []
    else
      var front := specific[..|specific| - 1];
      var rest := SpecificItems(front);
      EntryNamesFront(specific);
      ItemsFromFront(specific, front, rest);
      Assign(rest, SpecificItem(specific[|specific| - 1]))
  }

  lemma EntryNamesFront(specific: seq<ChecklistItem>)
    requires specific != []
    ensures Names(AsItems(specific))[..|specific| - 1] == Names(AsItems(specific[..|specific| - 1]))
    ensures Names(AsItems(specific))[|specific| - 1] == SpecificItem(specific[|specific| - 1]).name
  {
    var front := specific[..|specific| - 1];
    var all := Names(AsItems(specific));
    var ns := Names(AsItems(front));
    assert |all[..|specific| - 1]| == |ns|;
    forall i | 0 <= i < |ns| ensures all[..|specific| - 1][i] == ns[i] {
      assert front[i] == specific[i];
    }
  }

  lemma ItemsFromFront(specific: seq<ChecklistItem>, front: seq<ChecklistItem>, rest: seq<Item>)
    requires specific != [] && front == specific[..|specific| - 1]
    requires forall x :: x in rest ==> exists i :: 0 <= i < |front| && x == SpecificItem(front[i])
    ensures forall x :: x in rest ==> exists i :: 0 <= i < |specific| && x == SpecificItem(specific[i])
  {
    forall x | x in rest ensures exists i :: 0 <= i < |specific| && x == SpecificItem(specific[i]) {
      var i :| 0 <= i < |front| && x == SpecificItem(front[i]);
      assert specific[i] == front[i];
    }
  }

  /** No later entry has the name of entry `i`. */
  predicate LastOfName(specific: seq<ChecklistItem>, i: nat)
    requires i < |specific|
  {
    forall j :: i < j < |specific| ==> specific[j].name != specific[i].name
  }

  /** The last entry of a name wins: its item is the one in the map. */
  lemma {:induction false} LastSpecificWins(specific: seq<ChecklistItem>, i: nat)
    requires i < |specific| && LastOfName(specific, i)
    ensures SpecificItem(specific[i]) in SpecificItems(specific)
    decreases |specific|
  {
    var front := specific[..|specific| - 1];
    var last := SpecificItem(specific[|specific| - 1]);
    if i < |specific| - 1 {
      assert front[i] == specific[i];
      assert LastOfName(front, i);
      LastSpecificWins(front, i);
      assert last.name != specific[i].name;
    }
  }

  // ---------------------------------------------------------------- new fields

  /** The `ir.model.fields` values for a checklist entry: `type` defaults to
      `boolean`. */
  function NewFieldOf(c: ChecklistItem): NewField
  {
    NewField(c.name, c.text, match c.ttype case None => "boolean" case Some(t) => t)
  }

  /** `fields_to_create`: the entries whose name the model does not define yet, in
      order. The search runs before anything is created, so a name repeated in the
      input is proposed once per entry. */
  function NewFields(entries: seq<ChecklistItem>, defs: map<string, string>): (r: seq<NewField>)
    ensures forall f :: f in r ==> f.name !in defs
    ensures forall i :: 0 <= i < |entries| && entries[i].name !in defs ==> NewFieldOf(entries[i]) in r
    ensures forall f :: f in r ==> exists i :: 0 <= i < |entries| && f == NewFieldOf(entries[i])
    decreases |entries|
  {
    if entries == [] then []
    else
      var front := entries[..|entries| - 1];
      var c := entries[|entries| - 1];
      var rest := NewFields(front, defs);
      assert forall i :: 0 <= i < |front| ==> front[i] == entries[i];
      if c.name in defs then rest else rest + [NewFieldOf(c)]
  }

  /** `ir.model.fields.create(fields_to_create)`: each new name is defined with its
      description. */
  function AddFields(defs: map<string, string>, fs: seq<NewField>): (r: map<string, string>)
    ensures forall n :: n in defs ==> n in r
    ensures forall f :: f in fs ==> f.name in r
    ensures forall n :: n in r ==> n in defs || exists f :: f in fs && f.name == n
    decreases |fs|
  {
    if fs == [] then defs
    else
      var f := fs[|fs| - 1];
      AddFields(defs, fs[..|fs| - 1])[f.name := f.description]
  }

  /** Creating the proposed fields defines every name of the checklist, so running
      the preload again proposes nothing. */
  lemma PreloadIdempotent(entries: seq<ChecklistItem>, defs: map<string, string>)
    ensures NewFields(entries, AddFields(defs, NewFields(entries, defs))) == []
  {
    var after := AddFields(defs, NewFields(entries, defs));
    forall i | 0 <= i < |entries| ensures entries[i].name in after {
      if entries[i].name !in defs {
        assert NewFieldOf(entries[i]) in NewFields(entries, defs);
      }
    }
    AllDefined(entries, after);
  }

  lemma {:induction false} AllDefined(entries: seq<ChecklistItem>, defs: map<string, string>)
    requires forall i :: 0 <= i < |entries| ==> entries[i].name in defs
    ensures NewFields(entries, defs) == []
    decreases |entries|
  {
    if entries != [] {
      AllDefined(entries[..|entries| - 1], defs);
    }
  }

  // ---------------------------------------------------------------- harvest

  /** The `items_map` value for a field found in a view: its group parsed from the
      description the model holds. */
  function HarvestItem(n: string, defs: map<string, string>): Item
    requires n in defs
  {
    Item(n, ParseFieldString(defs[n]).0, defs[n])
  }

  /** An item harvested from a lower view: an `x_` field defined on the model, with
      the group and the description of its definition. */
  predicate Harvested(x: Item, defs: map<string, string>)
  {
    StartsWith(x.name, "x_") && x.name in defs
    && x == HarvestItem(x.name, defs)
  }

  /** `r` is `items` with harvested items appended: nothing already in the map moves
      or changes. */
  predicate Extends(items: seq<Item>, r: seq<Item>, defs: map<string, string>)
  {
    |items| <= |r| && r[..|items|] == items
    && forall i :: |items| <= i < |r| ==> Harvested(r[i], defs)
  }

  lemma ExtendsTransitive(a: seq<Item>, b: seq<Item>, c: seq<Item>, defs: map<string, string>)
    requires Extends(a, b, defs) && Extends(b, c, defs)
    ensures Extends(a, c, defs)
  {
    assert c[..|a|] == c[..|b|][..|a|];
  }

  /** Names in the map stay in the map. */
  lemma ExtendsKeepsNames(items: seq<Item>, r: seq<Item>, defs: map<string, string>)
    requires Extends(items, r, defs)
    ensures forall n :: n in Names(items) ==> n in Names(r)
  {
    forall n | n in Names(items) ensures n in Names(r) {
      var i :| 0 <= i < |items| && Names(items)[i] == n;
      assert r[i] == items[i];
    }
  }

  /** The body of the `//field` loop: a node whose name starts with `x_` (a missing or
      empty name does not), is not in the map yet and is defined on the model is
      added with the group of its definition. */
  function HarvestNode(items: seq<Item>, n: string, defs: map<string, string>): (r: seq<Item>)
    ensures Extends(items, r, defs)
    ensures UniqueNames(items) ==> UniqueNames(r)
    ensures StartsWith(n, "x_") && n in defs ==> n in Names(r)
    ensures |items| < |r| ==> n in defs && r == items + [HarvestItem(n, defs)]
  {
    if StartsWith(n, "x_") && n !in Names(items) && n in defs then
      AppendHarvested(items, n, defs);
      items + [HarvestItem(n, defs)]
    else
      assert items[..|items|] == items;
      items
  }

  lemma AppendHarvested(items: seq<Item>, n: string, defs: map<string, string>)
    requires StartsWith(n, "x_") && n !in Names(items) && n in defs
    ensures var r := items + [HarvestItem(n, defs)];
      Extends(items, r, defs) && (UniqueNames(items) ==> UniqueNames(r)) && n in Names(r)
  {
    var r := items + [HarvestItem(n, defs)];
    assert r[..|items|] == items;
    assert Names(r)[|items|] == n;
    forall i | 0 <= i < |items| ensures items[i].name != n {
      assert Names(items)[i] == items[i].name;
    }
  }

  /** The `//field` loop over one view's nodes, in document order. */
  function HarvestNodes(items: seq<Item>, nodes: seq<string>, defs: map<string, string>): (r: seq<Item>)
    ensures Extends(items, r, defs)
    ensures UniqueNames(items) ==> UniqueNames(r)
    ensures forall i :: |items| <= i < |r| ==> r[i].name in nodes
    decreases |nodes|
  {
    if nodes == [] then
      assert items[..|items|] == items;
      items
    else
      var front := nodes[..|nodes| - 1];
      var n := nodes[|nodes| - 1];
      var before := HarvestNodes(items, front, defs);
      var r := HarvestNode(before, n, defs);
      ExtendsTransitive(items, before, r, defs);
      NodeProvenance(items, before, front, n, defs);
      assert nodes == front + [n];
      r
  }

  /** Harvesting one more node adds only that node's name. */
  lemma NodeProvenance(items: seq<Item>, before: seq<Item>, front: seq<string>, n: string, defs: map<string, string>)
    requires |items| <= |before|
    requires forall i :: |items| <= i < |before| ==> before[i].name in front
    ensures var r := HarvestNode(before, n, defs);
      forall i :: |items| <= i < |r| ==> r[i].name in front + [n]
  {
    var r := HarvestNode(before, n, defs);
    if |before| < |r| {
      assert r == before + [HarvestItem(n, defs)];
      forall i | |items| <= i < |r| ensures r[i].name in front + [n] {
        if i < |before| {
          assert r[i] == before[i];
        }
      }
    } else {
      assert r == before;
    }
  }

  /** Every node of the view that names an `x_` field defined on the model ends up in
      the map, either from before or harvested. */
  lemma {:induction false} HarvestNodesIncludes(items: seq<Item>, nodes: seq<string>, defs: map<string, string>)
    ensures forall n :: n in nodes && StartsWith(n, "x_") && n in defs ==> n in Names(HarvestNodes(items, nodes, defs))
    decreases |nodes|
  {
    if nodes != [] {
      var front := nodes[..|nodes| - 1];
      var before := HarvestNodes(items, front, defs);
      var r := HarvestNode(before, nodes[|nodes| - 1], defs);
      HarvestNodesIncludes(items, front, defs);
      ExtendsKeepsNames(before, r, defs);
      assert nodes == front + [nodes[|nodes| - 1]];
    }
  }

  /** `module, name = xml_id.split('.')`: `None` where the unpacking raises because
      the id does not have exactly one dot. */
  function SplitXmlId(x: string): (r: Option<(string, string)>)
    ensures r.Some? ==> r.value.0 + "." + r.value.1 == x && '.' !in r.value.0 && '.' !in r.value.1
  {
    match Find(x, '.')
    case None => None
    case Some(k) =>
      if '.' in x[k + 1..] then None
      else
        assert x == x[..k] + "." + x[k + 1..];
        Some((x[..k], x[k + 1..]))
  }

  /** An id of one dot splits back into its module and name. */
  lemma SplitJoined(m: string, n: string)
    requires '.' !in m && '.' !in n
    ensures SplitXmlId(m + "." + n) == Some((m, n))
  {
    var x := m + "." + n;
    assert x[..|m|] == m && x[|m|] == '.' && x[|m| + 1..] == n;
    FindAt(x, '.', |m|);
  }

  /** `name.replace('template_', 'view_')`. */
  function ViewName(name: string): string
  {
    ReplaceAll(name, "template_", "view_")
  }

  /** A template name of the `template_` convention gives the matching `view_` name. */
  lemma ViewNameOfTemplate(rest: string)
    requires forall k :: !OccursAt(rest, "template_", k)
    ensures ViewName("template_" + rest) == "view_" + rest
  {
    ReplacePrefix("template_", rest, "view_");
    ReplaceAbsent(rest, "template_", "view_");
  }

  /** The view of the 4500-hour template of the JD 8230 series. */
  lemma JohnDeere4500View()
    ensures ViewName("template_jd8230_4500h") == "view_jd8230_4500h"
  {
    var rest := "jd8230_4500h";
    assert "template_jd8230_4500h" == "template_" + rest;
    assert "view_jd8230_4500h" == "view_" + rest;
    NoTemplateIn(rest);
    ViewNameOfTemplate(rest);
  }

  lemma NoTemplateIn(rest: string)
    requires rest == "jd8230_4500h"
    ensures forall k :: !OccursAt(rest, "template_", k)
  {
    var pat := "template_";
    assert pat[0] == 't' && 't' !in rest;
    AbsentByChar(rest, pat, 0);
  }

  /** An external id that is set but cannot be unpacked. */
  predicate Malformed(xmlId: string)
  {
    xmlId != "" && SplitXmlId(xmlId).None?
  }

  /** The view external id a lower template leads to: none when the template has no
      external id or its name does not start with `template_`. */
  function LowerViewId(xmlId: string): (r: Result<Option<string>, GenError>)
    ensures r.Err? <==> Malformed(xmlId)
    ensures r == Ok(None) <==> xmlId == "" || (!Malformed(xmlId) && !StartsWith(SplitXmlId(xmlId).value.1, "template_"))
  {
    if xmlId == "" then Ok(None)
    else
      match SplitXmlId(xmlId)
      case None => Err(MalformedXmlId(xmlId))
      case Some((m, n)) => if StartsWith(n, "template_") then Ok(Some(m + "." + ViewName(n))) else Ok(None)
  }

  /** One iteration of loop 3: the fields of the lower template's view, when it has
      one. */
  function HarvestLower(items: seq<Item>, t: Template, views: map<string, seq<string>>, defs: map<string, string>)
    : (r: Result<seq<Item>, GenError>)
    ensures r.Err? <==> Malformed(t.xmlId)
    ensures r.Ok? ==> Extends(items, r.value, defs) && (UniqueNames(items) ==> UniqueNames(r.value))
    ensures r.Ok? && LowerViewId(t.xmlId).value.Some? && LowerViewId(t.xmlId).value.value in views ==>
      r.value == HarvestNodes(items, views[LowerViewId(t.xmlId).value.value], defs)
  {
    match LowerViewId(t.xmlId)
    case Err(e) => Err(e)
    case Ok(None) =>
      assert items[..|items|] == items;
      Ok(items)
    case Ok(Some(vid)) =>
      if vid in views then Ok(HarvestNodes(items, views[vid], defs))
      else
        assert items[..|items|] == items;
        Ok(items)
  }

  /** Loop 3 over the lower templates in order; an id that cannot be unpacked ends
      the generation. */
  function HarvestAll(items: seq<Item>, lowers: seq<Lower>, views: map<string, seq<string>>, defs: map<string, string>)
    : (r: Result<seq<Item>, GenError>)
    ensures r.Err? <==> exists i :: 0 <= i < |lowers| && Malformed(lowers[i].template.xmlId)
    ensures r.Ok? ==> Extends(items, r.value, defs) && (UniqueNames(items) ==> UniqueNames(r.value))
    decreases |lowers|
  {
    if lowers == [] then
      assert items[..|items|] == items;
      Ok(items)
    else
      var front := lowers[..|lowers| - 1];
      assert forall i :: 0 <= i < |front| ==> front[i] == lowers[i];
      match HarvestAll(items, front, views, defs)
      case Err(e) => Err(e)
      case Ok(before) =>
        var r := HarvestLower(before, lowers[|lowers| - 1].template, views, defs);
        assert r.Ok? ==> Extends(items, r.value, defs) by {
          if r.Ok? {
            ExtendsTransitive(items, before, r.value, defs);
          }
        }
        r
  }

  // ---------------------------------------------------------------- layout

  /** The group of each item, in map order. */
  function GroupsOf(items: seq<Item>): (r: seq<string>)
    ensures |r| == |items|
    ensures forall i :: 0 <= i < |items| ==> r[i] == items[i].group
  {
    seq(|items|, i requires 0 <= i < |items| => items[i].group)
  }

  /** `sorted(grouped_fields.keys())`: every group of the map once, in ascending
      order. */
  function Groups(items: seq<Item>): (r: seq<string>)
    ensures Sorting.Ascending(r, StrLeq) && Distinct(r)
    ensures forall g :: g in r <==> g in GroupsOf(items)
  {
    SortedSet(GroupsOf(items))
  }

  /** `grouped_fields[g]`: the names of the group's items, in map order. */
  function Members(items: seq<Item>, g: string): (r: seq<string>)
    ensures forall i :: 0 <= i < |items| && items[i].group == g ==> items[i].name in r
    ensures forall n :: n in r ==> exists i :: 0 <= i < |items| && items[i].name == n && items[i].group == g
    decreases |items|
  {
    if items == [] then []
    else
      var front := items[..|items| - 1];
      var it := items[|items| - 1];
      assert forall i :: 0 <= i < |front| ==> front[i] == items[i];
      Members(front, g) + (if it.group == g then [it.name] else [])
  }

  /** The members of the groups `gs`, one group after the other. */
  function FlattenMembers(items: seq<Item>, gs: seq<string>): seq<string>
    decreases |gs|
  {
    if gs == [] then [] else FlattenMembers(items, gs[..|gs| - 1]) + Members(items, gs[|gs| - 1])
  }

  /** The field nodes of the generated form, in document order. */
  function ArchFields(items: seq<Item>): seq<string>
  {
    FlattenMembers(items, Groups(items)) + ["x_comments"]
  }

  lemma MembersAppend(items: seq<Item>, it: Item, g: string)
    ensures Members(items + [it], g) == Members(items, g) + (if it.group == g then [it.name] else [])
  {
    assert (items + [it])[..|items|] == items;
  }

  /** One more item adds its name once, under its own group, when that group is
      listed once. */
  lemma {:induction false} FlattenAppend(items: seq<Item>, it: Item, gs: seq<string>)
    requires Distinct(gs)
    ensures multiset(FlattenMembers(items + [it], gs))
      == multiset(FlattenMembers(items, gs)) + (if it.group in gs then multiset{it.name} else multiset{})
    decreases |gs|
  {
    if gs != [] {
      var front := gs[..|gs| - 1];
      var g := gs[|gs| - 1];
      DistinctSplit(gs);
      FlattenAppend(items, it, front);
      MembersAppend(items, it, g);
      var a, a2 := FlattenMembers(items, front), FlattenMembers(items + [it], front);
      var b, b2 := Members(items, g), Members(items + [it], g);
      assert FlattenMembers(items, gs) == a + b;
      assert FlattenMembers(items + [it], gs) == a2 + b2;
      if it.group == g {
        assert multiset(a2) == multiset(a) && b2 == b + [it.name];
      } else {
        assert b2 == b;
      }
    }
  }

  lemma DistinctSplit(gs: seq<string>)
    requires gs != [] && Distinct(gs)
    ensures Distinct(gs[..|gs| - 1]) && gs[|gs| - 1] !in gs[..|gs| - 1]
    ensures forall x :: x in gs <==> x in gs[..|gs| - 1] || x == gs[|gs| - 1]
  {
    assert gs == gs[..|gs| - 1] + [gs[|gs| - 1]];
  }

  /** When every group of the map is listed once, the groups' members are the map's
      names: each field once, under its own group. */
  lemma {:induction false} FlattenCovers(items: seq<Item>, gs: seq<string>)
    requires Distinct(gs)
    requires forall i :: 0 <= i < |items| ==> items[i].group in gs
    ensures multiset(FlattenMembers(items, gs)) == multiset(Names(items))
    decreases |items|
  {
    if items == [] {
      EmptyMembers(gs);
    } else {
      var front := items[..|items| - 1];
      var it := items[|items| - 1];
      assert forall i :: 0 <= i < |front| ==> front[i] == items[i];
      FlattenCovers(front, gs);
      FlattenAppend(front, it, gs);
      NamesSplit(items);
    }
  }

  lemma NamesSplit(items: seq<Item>)
    requires items != []
    ensures items == items[..|items| - 1] + [items[|items| - 1]]
    ensures Names(items) == Names(items[..|items| - 1]) + [items[|items| - 1].name]
  {
  }

  lemma {:induction false} EmptyMembers(gs: seq<string>)
    ensures FlattenMembers([], gs) == []
    decreases |gs|
  {
    if gs != [] {
      EmptyMembers(gs[..|gs| - 1]);
    }
  }

  /** The form lists every field of the map exactly as often as the map holds it:
      once each, since a dict's keys are distinct. */
  lemma LayoutListsEachOnce(items: seq<Item>)
    ensures multiset(FlattenMembers(items, Groups(items))) == multiset(Names(items))
  {
    FlattenCovers(items, Groups(items));
  }

  // ---------------------------------------------------------------- arch

  const ArchHead := "<form><sheet><group>"
  const ArchTail := "</group><group><field name=\"x_comments\"/></group></sheet></form>"

  function FieldXml(n: string): string
  {
    "<field name=\"" + n + "\"/>"
  }

  /** The `<field>` elements of a group's members, in order. */
  function FieldsXml(names: seq<string>): string
    decreases |names|
  {
    if names == [] then "" else FieldsXml(names[..|names| - 1]) + FieldXml(names[|names| - 1])
  }

  /** The attribute that names a group. */
  function GroupLabel(g: string): string
  {
    "string=\"" + g + "\""
  }

  function GroupXml(g: string, names: seq<string>): string
  {
    "<group " + GroupLabel(g) + ">" + FieldsXml(names) + "</group>"
  }

  /** The `<group>` elements of the groups `gs`, in order. */
  function GroupsXml(items: seq<Item>, gs: seq<string>): string
    decreases |gs|
  {
    if gs == [] then "" else GroupsXml(items, gs[..|gs| - 1]) + GroupXml(gs[|gs| - 1], Members(items, gs[|gs| - 1]))
  }

  /** The `arch` the loops accumulate. */
  function Arch(items: seq<Item>): string
  {
    ArchHead + GroupsXml(items, Groups(items)) + ArchTail
  }

  lemma {:induction false} FieldsXmlContains(names: seq<string>, n: string)
    requires n in names
    ensures Contains(FieldsXml(names), FieldXml(n))
    decreases |names|
  {
    var front := names[..|names| - 1];
    var last := names[|names| - 1];
    if n == last {
      ContainsSelf(FieldXml(n));
      ContainsAppend(FieldsXml(front), FieldXml(n), FieldXml(n));
    } else {
      assert names == front + [last];
      FieldsXmlContains(front, n);
      ContainsAppend(FieldsXml(front), FieldXml(last), FieldXml(n));
    }
  }

  lemma {:induction false} GroupsXmlContains(items: seq<Item>, gs: seq<string>, j: nat)
    requires j < |gs|
    ensures Contains(GroupsXml(items, gs), GroupXml(gs[j], Members(items, gs[j])))
    decreases |gs|
  {
    var front := gs[..|gs| - 1];
    var last := GroupXml(gs[|gs| - 1], Members(items, gs[|gs| - 1]));
    if j == |gs| - 1 {
      ContainsSelf(last);
      ContainsAppend(GroupsXml(items, front), last, last);
    } else {
      assert front[j] == gs[j];
      GroupsXmlContains(items, front, j);
      ContainsAppend(GroupsXml(items, front), last, GroupXml(gs[j], Members(items, gs[j])));
    }
  }

  /** Every group's element is in the arch. */
  lemma GroupInArch(items: seq<Item>, g: string)
    requires g in GroupsOf(items)
    ensures Contains(Arch(items), GroupXml(g, Members(items, g)))
  {
    var gs := Groups(items);
    var j :| 0 <= j < |gs| && gs[j] == g;
    GroupsXmlContains(items, gs, j);
    ContainsAppend(ArchHead, GroupsXml(items, gs), GroupXml(g, Members(items, g)));
    ContainsAppend(ArchHead + GroupsXml(items, gs), ArchTail, GroupXml(g, Members(items, g)));
  }

  /** A member's `<field>` element is inside its group's element. */
  lemma FieldInGroup(g: string, m: seq<string>, n: string)
    requires n in m
    ensures Contains(GroupXml(g, m), FieldXml(n))
  {
    var open := "<group " + GroupLabel(g) + ">";
    FieldsXmlContains(m, n);
    ContainsAppend(open, FieldsXml(m), FieldXml(n));
    ContainsAppend(open + FieldsXml(m), "</group>", FieldXml(n));
  }

  /** A group's label is inside its element. */
  lemma LabelInGroup(g: string, m: seq<string>)
    ensures Contains(GroupXml(g, m), GroupLabel(g))
  {
    var x := GroupXml(g, m);
    assert x == ("<group " + GroupLabel(g)) + (">" + FieldsXml(m) + "</group>");
    ContainsSelf(GroupLabel(g));
    ContainsAppend("<group ", GroupLabel(g), GroupLabel(g));
    ContainsAppend("<group " + GroupLabel(g), ">" + FieldsXml(m) + "</group>", GroupLabel(g));
  }

  /** Every field of the map is in the arch as a `<field>` element. */
  lemma FieldInArch(items: seq<Item>, i: nat)
    requires i < |items|
    ensures Contains(Arch(items), FieldXml(items[i].name))
  {
    var g := items[i].group;
    assert GroupsOf(items)[i] == g;
    var m := Members(items, g);
    GroupInArch(items, g);
    FieldInGroup(g, m, items[i].name);
    ContainsTransitive(Arch(items), GroupXml(g, m), FieldXml(items[i].name));
  }

  /** The label of every group of the map is in the arch as a `string` attribute. */
  lemma LabelInArch(items: seq<Item>, i: nat)
    requires i < |items|
    ensures Contains(Arch(items), GroupLabel(items[i].group))
  {
    var g := items[i].group;
    assert GroupsOf(items)[i] == g;
    var m := Members(items, g);
    GroupInArch(items, g);
    LabelInGroup(g, m);
    ContainsTransitive(Arch(items), GroupXml(g, m), GroupLabel(g));
  }

  /** A lower view's `x_` nodes with a definition on the model are all in the map
      after loop 3. */
  lemma {:induction false} HarvestAllIncludes(items: seq<Item>, lowers: seq<Lower>, views: map<string, seq<string>>,
                                              defs: map<string, string>, i: nat, vid: string, n: string)
    requires HarvestAll(items, lowers, views, defs).Ok?
    requires i < |lowers| && LowerViewId(lowers[i].template.xmlId) == Ok(Some(vid)) && vid in views
    requires n in views[vid] && StartsWith(n, "x_") && n in defs
    ensures n in Names(HarvestAll(items, lowers, views, defs).value)
    decreases |lowers|
  {
    var front := lowers[..|lowers| - 1];
    var before := HarvestAll(items, front, views, defs).value;
    var r := HarvestAll(items, lowers, views, defs).value;
    if i == |lowers| - 1 {
      var last := HarvestLower(before, lowers[i].template, views, defs);
      assert r == last.value;
      assert last.value == HarvestNodes(before, views[vid], defs);
      HarvestNodesIncludes(before, views[vid], defs);
    } else {
      assert front[i] == lowers[i];
      HarvestAllIncludes(items, front, views, defs, i, vid, n);
      ExtendsKeepsNames(before, r, defs);
    }
  }

  // ---------------------------------------------------------------- generation

  /** What the view lookup decides: write the arch into the existing view, or create a
      form view of that name with an external id in the template's module. */
  datatype ViewAction = WriteArch | CreateView(name: string, moduleName: string)

  /** The fields to create, the final `items_map`, the arch and the view that
      receives it. */
  datatype Generated = Generated(newFields: seq<NewField>, items: seq<Item>, arch: string, viewId: string, action: ViewAction)

  /** `_generate_accumulated_template` on the records it reads: the external ids that
      resolve to a template, the templates of the series search in search order, the
      field nodes of each view by external id, and the fields the worksheet model
      defines with their descriptions. */
  function Generate(xmlId: string, interval: int, specific: seq<ChecklistItem>, templateIds: set<string>,
                    templates: seq<Template>, views: map<string, seq<string>>, defs: map<string, string>)
    : Result<Generated, GenError>
  {
    if xmlId !in templateIds then Err(TemplateNotFound(xmlId))
    else
      match HarvestAll(SpecificItems(specific), LowerTemplates(templates, interval), views, defs)
      case Err(e) => Err(e)
      case Ok(items) =>
        match SplitXmlId(xmlId)
        case None => Err(MalformedXmlId(xmlId))
        case Some((m, n)) =>
          var vid := m + "." + ViewName(n);
          Ok(Generated(NewFields(specific, defs), items, Arch(items), vid,
                       if vid in views then WriteArch else CreateView(ViewName(n), m)))
  }

  /** The generation fails exactly for an unknown template, a lower template whose
      external id cannot be unpacked, or a template id that cannot be unpacked. */
  lemma GenerateFails(xmlId: string, interval: int, specific: seq<ChecklistItem>, templateIds: set<string>,
                      templates: seq<Template>, views: map<string, seq<string>>, defs: map<string, string>)
    ensures Generate(xmlId, interval, specific, templateIds, templates, views, defs).Err? <==>
      xmlId !in templateIds
      || (exists x :: x in LowerTemplates(templates, interval) && Malformed(x.template.xmlId))
      || SplitXmlId(xmlId).None?
  {
    HarvestFails(SpecificItems(specific), LowerTemplates(templates, interval), views, defs);
  }

  /** Loop 3 fails exactly when some lower template's external id cannot be
      unpacked. */
  lemma HarvestFails(items: seq<Item>, lowers: seq<Lower>, views: map<string, seq<string>>, defs: map<string, string>)
    ensures HarvestAll(items, lowers, views, defs).Err? <==> exists x :: x in lowers && Malformed(x.template.xmlId)
  {
    if exists x :: x in lowers && Malformed(x.template.xmlId) {
      var x :| x in lowers && Malformed(x.template.xmlId);
      var i :| 0 <= i < |lowers| && lowers[i] == x;
    }
  }

  /** A successful generation's map is loop 3's result, and its arch is built from
      that map. */
  lemma GenerateParts(xmlId: string, interval: int, specific: seq<ChecklistItem>, templateIds: set<string>,
                      templates: seq<Template>, views: map<string, seq<string>>, defs: map<string, string>)
    requires Generate(xmlId, interval, specific, templateIds, templates, views, defs).Ok?
    ensures var h := HarvestAll(SpecificItems(specific), LowerTemplates(templates, interval), views, defs);
      var g := Generate(xmlId, interval, specific, templateIds, templates, views, defs).value;
      h.Ok? && g.items == h.value && g.arch == Arch(h.value) && g.newFields == NewFields(specific, defs)
  {
  }

  /** The map of loop 2 and 3: this interval's fields come first and each specific
      name keeps its last entry; after them come only `x_` fields defined on the
      model, with the group of their definition; and no name is listed twice. */
  lemma MergedItems(specific: seq<ChecklistItem>, lowers: seq<Lower>, views: map<string, seq<string>>, defs: map<string, string>)
    requires HarvestAll(SpecificItems(specific), lowers, views, defs).Ok?
    ensures var items := HarvestAll(SpecificItems(specific), lowers, views, defs).value;
      var base := SpecificItems(specific);
      UniqueNames(items)
      && items[..|base|] == base
      && (forall i :: 0 <= i < |specific| && LastOfName(specific, i) ==> SpecificItem(specific[i]) in items)
      && (forall i :: |base| <= i < |items| ==> Harvested(items[i], defs))
  {
    var base := SpecificItems(specific);
    var items := HarvestAll(base, lowers, views, defs).value;
    forall i | 0 <= i < |specific| && LastOfName(specific, i) ensures SpecificItem(specific[i]) in items {
      LastSpecificWins(specific, i);
      PrefixMember(base, items, SpecificItem(specific[i]));
    }
  }

  lemma PrefixMember(base: seq<Item>, items: seq<Item>, x: Item)
    requires |base| <= |items| && items[..|base|] == base && x in base
    ensures x in items
  {
    var k :| 0 <= k < |base| && base[k] == x;
    assert items[k] == base[k];
  }

  /** Every `x_` node of the view of a lower template whose field is defined on the
      model is in the generated map, and so in the arch. */
  lemma GenerateAccumulates(xmlId: string, interval: int, specific: seq<ChecklistItem>, templateIds: set<string>,
                            templates: seq<Template>, views: map<string, seq<string>>, defs: map<string, string>,
                            lower: Lower, vid: string, n: string)
    requires Generate(xmlId, interval, specific, templateIds, templates, views, defs).Ok?
    requires lower in LowerTemplates(templates, interval)
    requires LowerViewId(lower.template.xmlId) == Ok(Some(vid)) && vid in views
    requires n in views[vid] && StartsWith(n, "x_") && n in defs
    ensures n in Names(Generate(xmlId, interval, specific, templateIds, templates, views, defs).value.items)
    ensures Contains(Generate(xmlId, interval, specific, templateIds, templates, views, defs).value.arch, FieldXml(n))
  {
    GenerateParts(xmlId, interval, specific, templateIds, templates, views, defs);
    var lowers := LowerTemplates(templates, interval);
    var i :| 0 <= i < |lowers| && lowers[i] == lower;
    HarvestAllIncludes(SpecificItems(specific), lowers, views, defs, i, vid, n);
    ArchListsName(HarvestAll(SpecificItems(specific), lowers, views, defs).value, n);
  }

  lemma ArchListsName(items: seq<Item>, n: string)
    requires n in Names(items)
    ensures Contains(Arch(items), FieldXml(n))
  {
    var k :| 0 <= k < |items| && Names(items)[k] == n;
    FieldInArch(items, k);
  }

  // ---------------------------------------------------------------- the registry

  /** The records the two methods read and write. */
  class WorksheetRegistry {
    /** External ids that resolve to a worksheet template. */
    var templateIds: set<string>
    /** The fields of the worksheet model, by name, with their descriptions. */
    var fields: map<string, string>
    /** The arch of each view, by external id. */
    var archs: map<string, string>
    /** The names of the `field` nodes of each view's arch, in document order. */
    var viewFields: map<string, seq<string>>

    constructor(templateIds: set<string>, fields: map<string, string>, archs: map<string, string>, viewFields: map<string, seq<string>>)
      ensures this.templateIds == templateIds && this.fields == fields
      ensures this.archs == archs && this.viewFields == viewFields
    {
      this.templateIds := templateIds;
      this.fields := fields;
      this.archs := archs;
      this.viewFields := viewFields;
    }

    /** `_preload_maintenance_templates`: the checklist's fields that the model lacks
        are created; an unknown template raises before anything is created. */
    method PreloadFields(xmlId: string, checklist: seq<ChecklistItem>) returns (r: Result<seq<NewField>, GenError>)
      modifies this
      ensures xmlId !in old(templateIds) ==> r == Err(TemplateNotFound(xmlId)) && fields == old(fields)
      ensures xmlId in old(templateIds) ==>
        r == Ok(NewFields(checklist, old(fields))) && fields == AddFields(old(fields), r.value)
      ensures templateIds == old(templateIds) && archs == old(archs) && viewFields == old(viewFields)
    {
      if xmlId !in templateIds {
        return Err(TemplateNotFound(xmlId));
      }
      var toCreate: seq<NewField> := [];
      for i := 0 to |checklist|
        invariant toCreate == NewFields(checklist[..i], fields)
      {
        assert checklist[..i + 1][..i] == checklist[..i];
        if checklist[i].name !in fields {
          toCreate := toCreate + [NewFieldOf(checklist[i])];
        }
      }
      assert checklist[..|checklist|] == checklist;
      fields := AddFields(fields, toCreate);
      r := Ok(toCreate);
    }

    /** `_generate_accumulated_template`: on success the new fields are created and
        the arch is written into the template's view, which is created when it does
        not exist; on an error nothing changes. */
    method GenerateAccumulated(xmlId: string, interval: int, specific: seq<ChecklistItem>, templates: seq<Template>)
      returns (r: Result<Generated, GenError>)
      modifies this
      ensures r == Generate(xmlId, interval, specific, old(templateIds), templates, old(viewFields), old(fields))
      ensures r.Err? ==> fields == old(fields) && archs == old(archs) && viewFields == old(viewFields)
      ensures r.Ok? ==>
        fields == AddFields(old(fields), r.value.newFields)
        && archs == old(archs)[r.value.viewId := r.value.arch]
        && viewFields == old(viewFields)[r.value.viewId := ArchFields(r.value.items)]
      ensures templateIds == old(templateIds)
    {
      if xmlId !in templateIds {
        return Err(TemplateNotFound(xmlId));
      }
      var lowers := SelectLower(templates, interval);
      var base, toCreate := MergeSpecific(specific);
      var harvested := HarvestViews(base, lowers);
      if harvested.Err? {
        return Err(harvested.error);
      }
      var items := harvested.value;
      var arch := BuildArch(items);
      var split := SplitXmlId(xmlId);
      if split.None? {
        return Err(MalformedXmlId(xmlId));
      }
      var (m, n) := split.value;
      var viewName := ViewName(n);
      var vid := m + "." + viewName;
      var action := if vid in viewFields then WriteArch else CreateView(viewName, m);
      fields := AddFields(fields, toCreate);
      archs := archs[vid := arch];
      viewFields := viewFields[vid := ArchFields(items)];
      r := Ok(Generated(toCreate, items, arch, vid, action));
    }

    /** Loop 1 and the sort. */
    method SelectLower(templates: seq<Template>, interval: int) returns (lowers: seq<Lower>)
      ensures lowers == LowerTemplates(templates, interval)
    {
      var found: seq<Lower> := [];
      for i := 0 to |templates|
        invariant found == LowerCandidates(templates[..i], interval)
      {
        CandidatesStep(templates, i, interval);
        var t := templates[i];
        match Interval(t.name) {
          case None =>
          case Some(n) =>
            if IsLower(n, interval) {
              found := found + [Lower(n, t)];
            }
        }
      }
      assert templates[..|templates|] == templates;
      ByIntervalIsPreorder();
      lowers := Sorting.Sort(found, ByInterval);
    }

    /** Loop 2: the specific fields go into the map, and those the model lacks into
        `fields_to_create`. */
    method MergeSpecific(specific: seq<ChecklistItem>) returns (items: seq<Item>, toCreate: seq<NewField>)
      ensures items == SpecificItems(specific) && toCreate == NewFields(specific, fields)
    {
      items, toCreate := [], [];
      for i := 0 to |specific|
        invariant items == SpecificItems(specific[..i]) && toCreate == NewFields(specific[..i], fields)
      {
        MergeStep(specific, i, fields);
        var item := specific[i];
        if item.name !in fields {
          toCreate := toCreate + [NewFieldOf(item)];
        }
        items := Assign(items, SpecificItem(item));
      }
      assert specific[..|specific|] == specific;
    }

    /** Loop 3: the `x_` fields of the lower templates' views. */
    method HarvestViews(base: seq<Item>, lowers: seq<Lower>) returns (r: Result<seq<Item>, GenError>)
      ensures r == HarvestAll(base, lowers, viewFields, fields)
    {
      var items := base;
      for i := 0 to |lowers|
        invariant HarvestAll(base, lowers[..i], viewFields, fields) == Ok(items)
      {
        HarvestAllStep(base, lowers, i, viewFields, fields);
        var viewId := LowerViewId(lowers[i].template.xmlId);
        if viewId.Err? {
          r := Err(viewId.error);
          HarvestStopsAtError(base, lowers, viewFields, fields, i);
          return;
        }
        if viewId.value.Some? && viewId.value.value in viewFields {
          items := HarvestViewNodes(items, viewFields[viewId.value.value]);
        }
      }
      assert lowers[..|lowers|] == lowers;
      r := Ok(items);
    }

    /** The `//field` loop of loop 3 over one view. */
    method HarvestViewNodes(before: seq<Item>, nodes: seq<string>) returns (items: seq<Item>)
      ensures items == HarvestNodes(before, nodes, fields)
    {
      items := before;
      for j := 0 to |nodes|
        invariant items == HarvestNodes(before, nodes[..j], fields)
      {
        assert nodes[..j + 1][..j] == nodes[..j];
        var name := nodes[j];
        if StartsWith(name, "x_") && name !in Names(items) && name in fields {
          items := items + [HarvestItem(name, fields)];
        }
      }
      assert nodes[..|nodes|] == nodes;
    }

    /** Step 4's `grouped_fields`: each group's field names in map order, and the
        groups in order of first appearance. */
    method GroupFields(items: seq<Item>) returns (grouped: map<string, seq<string>>, keys: seq<string>)
      ensures forall g :: g in keys <==> g in GroupsOf(items)
      ensures forall g :: g in grouped <==> g in keys
      ensures forall g :: g in grouped ==> grouped[g] == Members(items, g)
    {
      grouped, keys := map[], [];
      for i := 0 to |items|
        invariant forall g :: g in keys <==> g in GroupsOf(items[..i])
        invariant forall g :: g in grouped <==> g in keys
        invariant forall g :: g in grouped ==> grouped[g] == Members(items[..i], g)
        invariant forall g :: g !in grouped ==> Members(items[..i], g) == []
      {
        GroupStep(items, i);
        var g := items[i].group;
        if g in grouped {
          grouped := grouped[g := grouped[g] + [items[i].name]];
        } else {
          grouped := grouped[g := [items[i].name]];
          keys := keys + [g];
        }
      }
      assert items[..|items|] == items;
    }

    /** Step 4's arch: the groups in sorted order, each with its fields, between the
        opening and the closing markup. */
    method BuildArch(items: seq<Item>) returns (arch: string)
      ensures arch == Arch(items)
    {
      var grouped, keys := GroupFields(items);
      var sortedGroups := SortedSet(keys);
      KeysSorted(items, grouped, keys);
      var groups := AppendGroups(items, grouped, sortedGroups);
      arch := ArchHead + groups + ArchTail;
    }

    /** The loop over the sorted groups: one `<group>` element per group. */
    method AppendGroups(items: seq<Item>, grouped: map<string, seq<string>>, gs: seq<string>) returns (xml: string)
      requires forall i :: 0 <= i < |gs| ==> gs[i] in grouped && grouped[gs[i]] == Members(items, gs[i])
      ensures xml == GroupsXml(items, gs)
    {
      xml := "";
      for i := 0 to |gs|
        invariant xml == GroupsXml(items, gs[..i])
      {
        assert gs[..i + 1][..i] == gs[..i];
        var g := gs[i];
        var names := grouped[g];
        var fieldsXml := "";
        for j := 0 to |names|
          invariant fieldsXml == FieldsXml(names[..j])
        {
          assert names[..j + 1][..j] == names[..j];
          fieldsXml := fieldsXml + FieldXml(names[j]);
        }
        assert names[..|names|] == names;
        xml := xml + ("<group " + GroupLabel(g) + ">" + fieldsXml + "</group>");
      }
      assert gs[..|gs|] == gs;
    }
  }

  /** Loop 1 over one more template. */
  lemma CandidatesStep(templates: seq<Template>, i: nat, interval: int)
    requires i < |templates|
    ensures LowerCandidates(templates[..i + 1], interval) ==
      match Interval(templates[i].name)
      case None => LowerCandidates(templates[..i], interval)
      case Some(n) =>
        if IsLower(n, interval) then LowerCandidates(templates[..i], interval) + [Lower(n, templates[i])]
        else LowerCandidates(templates[..i], interval)
  {
    assert templates[..i + 1][..i] == templates[..i];
  }

  /** The sorted keys of the grouping are the sorted groups of the map, and each
      key's list is that group's members. */
  lemma KeysSorted(items: seq<Item>, grouped: map<string, seq<string>>, keys: seq<string>)
    requires forall g :: g in keys <==> g in GroupsOf(items)
    requires forall g :: g in grouped <==> g in keys
    requires forall g :: g in grouped ==> grouped[g] == Members(items, g)
    ensures SortedSet(keys) == Groups(items)
    ensures forall i :: 0 <= i < |SortedSet(keys)| ==>
      SortedSet(keys)[i] in grouped && grouped[SortedSet(keys)[i]] == Members(items, SortedSet(keys)[i])
  {
    SortedSetBySet(keys, GroupsOf(items));
    var s := SortedSet(keys);
    forall i | 0 <= i < |s| ensures s[i] in grouped && grouped[s[i]] == Members(items, s[i]) {
      assert s[i] in Groups(items);
    }
  }

  lemma MergeStep(specific: seq<ChecklistItem>, i: nat, defs: map<string, string>)
    requires i < |specific|
    ensures SpecificItems(specific[..i + 1]) == Assign(SpecificItems(specific[..i]), SpecificItem(specific[i]))
    ensures NewFields(specific[..i + 1], defs) ==
      NewFields(specific[..i], defs) + (if specific[i].name in defs then [] else [NewFieldOf(specific[i])])
  {
    var upto := specific[..i + 1];
    assert upto[..|upto| - 1] == specific[..i] && upto[|upto| - 1] == specific[i];
    SpecificItemsLast(upto);
  }

  lemma SpecificItemsLast(specific: seq<ChecklistItem>)
    requires specific != []
    ensures SpecificItems(specific) ==
      Assign(SpecificItems(specific[..|specific| - 1]), SpecificItem(specific[|specific| - 1]))
  {
  }

  lemma GroupStep(items: seq<Item>, i: nat)
    requires i < |items|
    ensures GroupsOf(items[..i + 1]) == GroupsOf(items[..i]) + [items[i].group]
    ensures forall g :: Members(items[..i + 1], g) == Members(items[..i], g) + (if items[i].group == g then [items[i].name] else [])
  {
    assert items[..i + 1] == items[..i] + [items[i]];
    forall g ensures Members(items[..i + 1], g) == Members(items[..i], g) + (if items[i].group == g then [items[i].name] else []) {
      MembersAppend(items[..i], items[i], g);
    }
  }

  /** Loop 3 over one more lower template. */
  lemma HarvestAllStep(base: seq<Item>, lowers: seq<Lower>, i: nat, views: map<string, seq<string>>,
                       defs: map<string, string>)
    requires i < |lowers|
    ensures HarvestAll(base, lowers[..i + 1], views, defs) ==
      match HarvestAll(base, lowers[..i], views, defs)
      case Err(e) => Err(e)
      case Ok(before) => HarvestLower(before, lowers[i].template, views, defs)
  {
    assert lowers[..i + 1][..i] == lowers[..i];
    assert lowers[..i + 1][i] == lowers[i];
  }

  /** Loop 3 stops at the first lower template whose external id cannot be
      unpacked. */
  lemma {:induction false} HarvestStopsAtError(base: seq<Item>, lowers: seq<Lower>, views: map<string, seq<string>>,
                                               defs: map<string, string>, i: nat)
    requires i < |lowers| && HarvestAll(base, lowers[..i], views, defs).Ok? && Malformed(lowers[i].template.xmlId)
    ensures HarvestAll(base, lowers, views, defs) == Err(MalformedXmlId(lowers[i].template.xmlId))
    decreases |lowers|
  {
    if i < |lowers| - 1 {
      var front := lowers[..|lowers| - 1];
      assert front[..i] == lowers[..i] && front[i] == lowers[i];
      HarvestStopsAtError(base, front, views, defs, i);
    } else {
      assert lowers[..i] == lowers[..|lowers| - 1];
    }
  }
}
