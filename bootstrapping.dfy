/**
 * `Instellingen._maakStandaardInstellingen`: every section of the default
 * schema is added if `has_section` does not find it (section names are
 * exact), and every default option is then `set` to its default value, in
 * the schema's order. `set` stores each option under its lower-cased name,
 * so the schema's spelling is lost and a spelling already in the store is
 * overwritten whatever its case.
 */
module Bootstrapping {
  import opened Optional
  import opened Keys
  import opened Config
  import opened Lookups

  const General := "Algemeen"
  const LastFileOption := "LaatsteBestand"
  const RememberOption := "OnthoudBestand"
  const InterfaceSection := "Interface"
  const TooltipsOption := "ToonTooltips"

  /** `standaardInstellingen`, in the order the dictionary literal gives. */
  const Defaults: seq<Section> := [
    Section(General, [Entry(LastFileOption, ""), Entry(RememberOption, "False")]),
    Section(InterfaceSection, [Entry(TooltipsOption, "True")])
  ]

  /** No two options of a schema section lower-case alike. */
  ghost predicate DistinctKeys(es: seq<Entry>)
  {
    forall a, b :: 0 <= a < b < |es| ==> !SameKey(es[a].option, es[b].option)
  }

  /**
   * A schema that lays over a store section by section: no section name
   * twice, none that configparser refuses as a new section or that `set`
   * sends to the defaults, and no two options of a section that
   * `optionxform` would merge.
   */
  ghost predicate SchemaOk(schema: seq<Section>)
  {
    (forall a, b :: 0 <= a < b < |schema| ==> schema[a].name != schema[b].name)
    && (forall k :: 0 <= k < |schema| ==> !ToDefaults(schema[k].name) && DistinctKeys(schema[k].entries))
  }

  /** The default a schema section gives option `o`, matched case-insensitively as `set` stores it. */
  function SchemaEntry(es: seq<Entry>, o: string): (r: Option<string>)
    ensures r.None? <==> forall j :: 0 <= j < |es| ==> !SameKey(es[j].option, o)
  {
    match FirstMatch(OptionNames(es), o)
    case None => None
    case Some(j) => Some(es[j].value)
  }

  /** The default the schema gives section `n` (exact name) for option `o`. */
  function SchemaValue(schema: seq<Section>, n: string, o: string): (r: Option<string>)
    ensures r.Some? ==> n in SectionNames(schema)
  {
    match IndexOf(SectionNames(schema), n)
    case None => None
    case Some(i) => SchemaEntry(schema[i].entries, o)
  }

  /** `if not has_section(n): add_section(n)`; `add_section` refuses only `DEFAULT`. */
  function EnsureSection(st: Store, n: string): (r: Store)
    requires n != DefaultSect || HasSection(st, n)
    ensures HasSection(r, n)
    ensures SectionNames(r.sections) == SectionNames(st.sections) + (if HasSection(st, n) then [] else [n])
    ensures r.sections[..|st.sections|] == st.sections && r.defaults == st.defaults
  {
    if HasSection(st, n) then st else AddSection(st, n)
  }

  /** `for optie, waarde in opties.items(): set(n, optie, waarde)`. */
  function SetAll(st: Store, n: string, es: seq<Entry>): (r: Store)
    requires HasSection(st, n)
    ensures SectionNames(r.sections) == SectionNames(st.sections) && |r.sections| == |st.sections|
    ensures forall k :: 0 <= k < |st.sections| && st.sections[k].name != n ==> r.sections[k] == st.sections[k]
    ensures !ToDefaults(n) ==> r.defaults == st.defaults
    decreases |es|
  {
    if es == [] then st
    else
      var last := es[|es| - 1];
      SetOption(SetAll(st, n, es[..|es| - 1]), n, last.option, last.value)
  }

  /** One iteration of the outer loop. */
  function ApplySection(st: Store, sec: Section): Store
    requires sec.name != DefaultSect || HasSection(st, sec.name)
  {
    SetAll(EnsureSection(st, sec.name), sec.name, sec.entries)
  }

  /** The outer loop over the schema, in its order. */
  function ApplySchema(st: Store, schema: seq<Section>): Store
    requires forall k :: 0 <= k < |schema| ==> schema[k].name != DefaultSect
    decreases |schema|
  {
    if schema == [] then st
    else ApplySection(ApplySchema(st, schema[..|schema| - 1]), schema[|schema| - 1])
  }

  /** One more iteration of the inner loop. */
  lemma SetAllStep(st: Store, n: string, es: seq<Entry>, j: nat)
    requires HasSection(st, n) && j < |es|
    ensures HasSection(SetAll(st, n, es[..j]), n)
    ensures SetAll(st, n, es[..j + 1]) == SetOption(SetAll(st, n, es[..j]), n, es[j].option, es[j].value)
  {
    assert es[..j + 1][..j] == es[..j];
  }

  /** One more iteration of the outer loop. */
  lemma ApplySchemaStep(st: Store, schema: seq<Section>, i: nat)
    requires forall k :: 0 <= k < |schema| ==> schema[k].name != DefaultSect
    requires i < |schema|
    ensures ApplySchema(st, schema[..i + 1]) == ApplySection(ApplySchema(st, schema[..i]), schema[i])
  {
    assert schema[..i + 1][..i] == schema[..i];
  }

  /** A schema section with one more option at the end. */
  lemma SchemaEntryAppend(es: seq<Entry>, x: Entry, o: string)
    ensures SchemaEntry(es + [x], o) ==
      if SchemaEntry(es, o).Some? then SchemaEntry(es, o)
      else if SameKey(x.option, o) then Some(x.value) else None
  {
    var all := es + [x];
    assert OptionNames(all) == OptionNames(es) + [x.option];
    FirstMatchAppend(OptionNames(es), x.option, o);
    assert forall k :: 0 <= k < |es| ==> all[k] == es[k];
  }

  /** With distinct keys, the last option of a schema section is the only one matching its spellings. */
  lemma SchemaEntryLast(es: seq<Entry>, o: string)
    requires DistinctKeys(es) && es != []
    ensures DistinctKeys(es[..|es| - 1])
    ensures SchemaEntry(es, o) ==
      if SameKey(o, es[|es| - 1].option) then Some(es[|es| - 1].value) else SchemaEntry(es[..|es| - 1], o)
  {
    var init, last := es[..|es| - 1], es[|es| - 1];
    assert es == init + [last];
    SchemaEntryAppend(init, last, o);
    if SameKey(o, last.option) {
      assert SchemaEntry(init, o).None? by {
        assert forall j :: 0 <= j < |init| ==> init[j] == es[j] && !SameKey(es[j].option, last.option);
      }
    }
  }

  /**
   * Setting the options of a schema section lays their defaults over what
   * the section held itself, whatever spelling the store used; every
   * other section, and the defaults dictionary, keep what they held.
   */
  lemma {:induction false} SetAllOwn(st: Store, n: string, es: seq<Entry>, n2: string, o2: string)
    requires HasSection(st, n) && !ToDefaults(n) && DistinctKeys(es)
    ensures OwnValue(SetAll(st, n, es), n2, o2) ==
      if n2 == n && SchemaEntry(es, o2).Some? then SchemaEntry(es, o2) else OwnValue(st, n2, o2)
    decreases |es|
  {
    if es != [] {
      var init, last := es[..|es| - 1], es[|es| - 1];
      SchemaEntryLast(es, o2);
      SetAllOwn(st, n, init, n2, o2);
      SetOptionOwn(SetAll(st, n, init), n, last.option, last.value, n2, o2);
    }
  }

  /** Setting options never breaks the configparser invariants. */
  lemma {:induction false} SetAllWellFormed(st: Store, n: string, es: seq<Entry>)
    requires WellFormed(st) && HasSection(st, n)
    ensures WellFormed(SetAll(st, n, es))
    decreases |es|
  {
    if es != [] {
      var init, last := es[..|es| - 1], es[|es| - 1];
      SetAllWellFormed(st, n, init);
      SetOptionWellFormed(SetAll(st, n, init), n, last.option, last.value);
    }
  }

  /**
   * One schema section keeps the shape of the store: it stays well-formed,
   * existing sections keep their names and positions, sections of other
   * names are untouched, and so is the defaults dictionary.
   */
  lemma ApplySectionShape(st: Store, sec: Section)
    requires WellFormed(st) && !ToDefaults(sec.name)
    ensures var r := ApplySection(st, sec);
      WellFormed(r)
      && |st.sections| <= |r.sections|
      && (forall k :: 0 <= k < |st.sections| ==> r.sections[k].name == st.sections[k].name)
      && (forall k :: 0 <= k < |st.sections| && st.sections[k].name != sec.name ==> r.sections[k] == st.sections[k])
      && r.defaults == st.defaults
  {
    var e := EnsureSection(st, sec.name);
    if !HasSection(st, sec.name) {
      AddSectionWellFormed(st, sec.name);
    }
    var r := SetAll(e, sec.name, sec.entries);
    SetAllWellFormed(e, sec.name, sec.entries);
    forall k | 0 <= k < |st.sections|
      ensures r.sections[k].name == st.sections[k].name
      ensures st.sections[k].name != sec.name ==> r.sections[k] == st.sections[k]
    {
      assert e.sections[k] == e.sections[..|st.sections|][k];
      assert SectionNames(r.sections)[k] == r.sections[k].name;
      assert SectionNames(e.sections)[k] == e.sections[k].name;
    }
  }

  /** After one schema section, exactly the sections that were there and the schema section exist. */
  lemma ApplySectionHas(st: Store, sec: Section, m: string)
    requires sec.name != DefaultSect || HasSection(st, sec.name)
    ensures HasSection(ApplySection(st, sec), m) <==> HasSection(st, m) || m == sec.name
  {
    IndexOfAppend(SectionNames(st.sections), sec.name, m);
  }

  /** After one schema section, its defaults are laid over what that section held. */
  lemma ApplySectionOwn(st: Store, sec: Section, n: string, o: string)
    requires !ToDefaults(sec.name) && DistinctKeys(sec.entries)
    ensures OwnValue(ApplySection(st, sec), n, o) ==
      if n == sec.name && SchemaEntry(sec.entries, o).Some? then SchemaEntry(sec.entries, o)
      else OwnValue(st, n, o)
  {
    var e := EnsureSection(st, sec.name);
    SetAllOwn(e, sec.name, sec.entries, n, o);
    if !HasSection(st, sec.name) {
      AddSectionOwn(st, sec.name, n, o);
    }
  }

  /** The schema without its last section is a schema too, and its last name is new to it. */
  lemma PrefixOk(schema: seq<Section>)
    requires SchemaOk(schema) && schema != []
    ensures var init, last := schema[..|schema| - 1], schema[|schema| - 1];
      SchemaOk(init) && last.name !in SectionNames(init)
      && !ToDefaults(last.name) && DistinctKeys(last.entries)
      && schema == init + [last] && SectionNames(schema) == SectionNames(init) + [last.name]
  {
    var init, last := schema[..|schema| - 1], schema[|schema| - 1];
    assert schema == init + [last];
    assert forall k :: 0 <= k < |init| ==> SectionNames(init)[k] != last.name;
  }

  /** The schema with one more section, under a new name. */
  lemma SchemaValueAppend(init: seq<Section>, last: Section, n: string, o: string)
    requires last.name !in SectionNames(init)
    ensures SchemaValue(init + [last], n, o) ==
      if n == last.name then SchemaEntry(last.entries, o) else SchemaValue(init, n, o)
  {
    var all := init + [last];
    assert SectionNames(all) == SectionNames(init) + [last.name];
    IndexOfAppend(SectionNames(init), last.name, n);
    assert forall k :: 0 <= k < |init| ==> all[k] == init[k];
  }

  /**
   * Laying `schema` over `st` gave `r` a sound shape: it is well-formed,
   * sections that were there keep their place, those outside the schema
   * are untouched, and so is the defaults dictionary.
   */
  ghost predicate OverlaidShape(st: Store, schema: seq<Section>, r: Store)
  {
    WellFormed(r)
    && |st.sections| <= |r.sections|
    && (forall k :: 0 <= k < |st.sections| ==> r.sections[k].name == st.sections[k].name)
    && (forall k :: 0 <= k < |st.sections| && st.sections[k].name !in SectionNames(schema) ==>
          r.sections[k] == st.sections[k])
    && r.defaults == st.defaults
  }

  /** Laying `schema` over `st` added sections for the schema names, and no others. */
  ghost predicate OverlaidSections(st: Store, schema: seq<Section>, r: Store)
  {
    forall m :: HasSection(r, m) <==> HasSection(st, m) || m in SectionNames(schema)
  }

  /** Laying `schema` over `st` makes every schema option hold its default; everything else holds what it held. */
  ghost predicate OverlaidValues(st: Store, schema: seq<Section>, r: Store)
  {
    forall n, o :: OwnValue(r, n, o) == if SchemaValue(schema, n, o).Some? then SchemaValue(schema, n, o) else OwnValue(st, n, o)
  }

  /** One more schema section keeps the shape. */
  lemma OverlaidShapeStep(st: Store, schema: seq<Section>, mid: Store)
    requires SchemaOk(schema) && schema != []
    requires OverlaidShape(st, schema[..|schema| - 1], mid)
    ensures OverlaidShape(st, schema, ApplySection(mid, schema[|schema| - 1]))
  {
    var init, last := schema[..|schema| - 1], schema[|schema| - 1];
    PrefixOk(schema);
    ApplySectionShape(mid, last);
    var r := ApplySection(mid, last);
    forall k | 0 <= k < |st.sections| && st.sections[k].name !in SectionNames(schema)
      ensures r.sections[k] == st.sections[k]
    {
      assert st.sections[k].name !in SectionNames(init) && st.sections[k].name != last.name;
      assert mid.sections[k] == st.sections[k];
    }
  }

  /** One more schema section adds just its own name. */
  lemma OverlaidSectionsStep(st: Store, schema: seq<Section>, mid: Store)
    requires SchemaOk(schema) && schema != []
    requires OverlaidSections(st, schema[..|schema| - 1], mid)
    ensures OverlaidSections(st, schema, ApplySection(mid, schema[|schema| - 1]))
  {
    var init, last := schema[..|schema| - 1], schema[|schema| - 1];
    PrefixOk(schema);
    forall m ensures HasSection(ApplySection(mid, last), m) <==> HasSection(st, m) || m in SectionNames(schema) {
      ApplySectionHas(mid, last, m);
    }
  }

  /** One more schema section lays its options over the store. */
  lemma OverlaidValuesStep(st: Store, schema: seq<Section>, mid: Store)
    requires SchemaOk(schema) && schema != []
    requires OverlaidValues(st, schema[..|schema| - 1], mid)
    ensures OverlaidValues(st, schema, ApplySection(mid, schema[|schema| - 1]))
  {
    var init, last := schema[..|schema| - 1], schema[|schema| - 1];
    PrefixOk(schema);
    forall n, o ensures OwnValue(ApplySection(mid, last), n, o) ==
      if SchemaValue(schema, n, o).Some? then SchemaValue(schema, n, o) else OwnValue(st, n, o)
    {
      ApplySectionOwn(mid, last, n, o);
      SchemaValueAppend(init, last, n, o);
    }
  }

  /** `_maakStandaardInstellingen` on a well-formed store lays the schema over it. */
  lemma {:induction false} ApplySchemaFacts(st: Store, schema: seq<Section>)
    requires WellFormed(st) && SchemaOk(schema)
    ensures OverlaidShape(st, schema, ApplySchema(st, schema))
    ensures OverlaidSections(st, schema, ApplySchema(st, schema))
    ensures OverlaidValues(st, schema, ApplySchema(st, schema))
    decreases |schema|
  {
    if schema == [] {
      assert SectionNames(schema) == [];
      assert forall n, o :: SchemaValue(schema, n, o).None?;
    } else {
      PrefixOk(schema);
      ApplySchemaFacts(st, schema[..|schema| - 1]);
      var mid := ApplySchema(st, schema[..|schema| - 1]);
      OverlaidShapeStep(st, schema, mid);
      OverlaidSectionsStep(st, schema, mid);
      OverlaidValuesStep(st, schema, mid);
    }
  }

  /** The entries of a schema section as `set` stores them: each option under its lower-cased name. */
  function Lowered(es: seq<Entry>): (r: seq<Entry>)
    ensures |r| == |es|
    ensures forall j :: 0 <= j < |es| ==> r[j] == Entry(OptionXform(es[j].option), es[j].value)
  {
    seq(|es|, j requires 0 <= j < |es| => Entry(OptionXform(es[j].option), es[j].value))
  }

  /** A schema as `set` stores it: section names as spelt, option names lower-cased. */
  function LowerKeys(schema: seq<Section>): (r: seq<Section>)
    ensures |r| == |schema|
    ensures forall i :: 0 <= i < |schema| ==> r[i] == Section(schema[i].name, Lowered(schema[i].entries))
  {
    seq(|schema|, i requires 0 <= i < |schema| => Section(schema[i].name, Lowered(schema[i].entries)))
  }

  /** A section under a name no earlier section has is found at the end. */
  lemma LastSection(xs: seq<Section>, d: seq<Entry>, n: string, es: seq<Entry>)
    requires n !in SectionNames(xs)
    ensures HasSection(Store(xs + [Section(n, es)], d), n)
    ensures Find(Store(xs + [Section(n, es)], d), n) == |xs|
  {
    assert SectionNames(xs + [Section(n, es)]) == SectionNames(xs) + [n];
    IndexOfAppend(SectionNames(xs), n, n);
  }

  /** `set` on that last section rewrites only its dictionary. */
  lemma SetOptionLast(xs: seq<Section>, d: seq<Entry>, n: string, es: seq<Entry>, o: string, v: string)
    requires n !in SectionNames(xs) && !ToDefaults(n)
    ensures HasSection(Store(xs + [Section(n, es)], d), n)
    ensures SetOption(Store(xs + [Section(n, es)], d), n, o, v) == Store(xs + [Section(n, SetEntry(es, o, v))], d)
  {
    LastSection(xs, d, n, es);
    assert (xs + [Section(n, es)])[|xs| := Section(n, SetEntry(es, o, v))] == xs + [Section(n, SetEntry(es, o, v))];
  }

  /** Setting the last of distinct options after the others appends it, lower-cased. */
  lemma LoweredLast(es: seq<Entry>)
    requires DistinctKeys(es) && es != []
    ensures DistinctKeys(es[..|es| - 1])
    ensures SetEntry(Lowered(es[..|es| - 1]), es[|es| - 1].option, es[|es| - 1].value) == Lowered(es)
  {
    var init, last := es[..|es| - 1], es[|es| - 1];
    assert forall j :: 0 <= j < |init| ==> init[j] == es[j];
    assert IndexOf(OptionNames(Lowered(init)), OptionXform(last.option)).None? by {
      assert forall j :: 0 <= j < |init| ==> !SameKey(es[j].option, last.option);
    }
    assert Lowered(init) + [Entry(OptionXform(last.option), last.value)] == Lowered(es);
  }

  /** Setting distinct options into a new, empty last section fills it with exactly those options, lower-cased. */
  lemma {:induction false} SetAllFresh(xs: seq<Section>, d: seq<Entry>, n: string, es: seq<Entry>)
    requires n !in SectionNames(xs) && !ToDefaults(n) && DistinctKeys(es)
    ensures HasSection(Store(xs + [Section(n, [])], d), n)
    ensures SetAll(Store(xs + [Section(n, [])], d), n, es) == Store(xs + [Section(n, Lowered(es))], d)
    decreases |es|
  {
    LastSection(xs, d, n, []);
    if es == [] {
      assert Lowered(es) == [];
    } else {
      var init, last := es[..|es| - 1], es[|es| - 1];
      LoweredLast(es);
      SetAllFresh(xs, d, n, init);
      SetOptionLast(xs, d, n, Lowered(init), last.option, last.value);
    }
  }

  /** A schema section under a new name, laid over a store: appended, with its options lower-cased. */
  lemma ApplySectionFresh(xs: seq<Section>, d: seq<Entry>, sec: Section)
    requires sec.name !in SectionNames(xs) && !ToDefaults(sec.name) && DistinctKeys(sec.entries)
    ensures ApplySection(Store(xs, d), sec) == Store(xs + [Section(sec.name, Lowered(sec.entries))], d)
  {
    assert !HasSection(Store(xs, d), sec.name);
    assert EnsureSection(Store(xs, d), sec.name) == Store(xs + [Section(sec.name, [])], d);
    SetAllFresh(xs, d, sec.name, sec.entries);
  }

  /** `LowerKeys` section by section. */
  lemma LowerKeysLast(schema: seq<Section>)
    requires schema != []
    ensures SectionNames(LowerKeys(schema[..|schema| - 1])) == SectionNames(schema[..|schema| - 1])
    ensures LowerKeys(schema) ==
      LowerKeys(schema[..|schema| - 1]) + [Section(schema[|schema| - 1].name, Lowered(schema[|schema| - 1].entries))]
  {
  }

  /**
   * Bootstrapping an empty store (the configuration file is missing) gives
   * exactly the schema, with its option names lower-cased, and no defaults.
   */
  lemma {:induction false} ApplySchemaEmpty(schema: seq<Section>)
    requires SchemaOk(schema)
    ensures ApplySchema(Store([], []), schema) == Store(LowerKeys(schema), [])
    decreases |schema|
  {
    if schema != [] {
      var init, last := schema[..|schema| - 1], schema[|schema| - 1];
      PrefixOk(schema);
      ApplySchemaEmpty(init);
      LowerKeysLast(schema);
      ApplySectionFresh(LowerKeys(init), [], last);
    }
  }

  /** The fixed schema lays over any store. */
  lemma DefaultsOk()
    ensures forall k :: 0 <= k < |Defaults| ==> Defaults[k].name != DefaultSect
    ensures SchemaOk(Defaults)
  {
    assert LowerStr(LastFileOption)[0] != LowerStr(RememberOption)[0];
  }

  /** Where the fixed schema puts its values. */
  lemma DefaultsValue()
    ensures forall n :: n in SectionNames(Defaults) <==> n == General || n == InterfaceSection
    ensures SchemaValue(Defaults, General, LastFileOption) == Some("")
    ensures SchemaValue(Defaults, General, RememberOption) == Some("False")
    ensures SchemaValue(Defaults, InterfaceSection, TooltipsOption) == Some("True")
  {
    assert SectionNames(Defaults) == [General, InterfaceSection];
    assert OptionNames(Defaults[0].entries) == [LastFileOption, RememberOption];
    assert OptionNames(Defaults[1].entries) == [TooltipsOption];
    assert General[0] != InterfaceSection[0];
    assert !SameKey(LastFileOption, RememberOption) by {
      assert LowerStr(LastFileOption)[0] != LowerStr(RememberOption)[0];
    }
    assert [LastFileOption, RememberOption][1..] == [RememberOption];
    assert FirstMatch([LastFileOption, RememberOption], RememberOption) == Some(1);
  }

  /**
   * `_maakStandaardInstellingen` with the fixed schema, on any well-formed
   * store (for instance what a failed parse left behind): `Algemeen` and
   * `Interface` are present, `get` reads the three defaults whatever the
   * store held under any spelling of those options, sections outside the
   * schema are untouched, and no other section appears.
   */
  lemma BootstrapDefaults(st: Store)
    requires WellFormed(st)
    ensures var r := MakeDefaults(st);
      WellFormed(r)
      && HasSection(r, General) && HasSection(r, InterfaceSection)
      && Get(r, General, LastFileOption) == Some("")
      && Get(r, General, RememberOption) == Some("False")
      && Get(r, InterfaceSection, TooltipsOption) == Some("True")
      && |st.sections| <= |r.sections|
      && (forall k :: 0 <= k < |st.sections| ==> r.sections[k].name == st.sections[k].name)
      && (forall k :: 0 <= k < |st.sections| && st.sections[k].name != General && st.sections[k].name != InterfaceSection ==>
            r.sections[k] == st.sections[k])
      && (forall n :: HasSection(r, n) ==> HasSection(st, n) || n == General || n == InterfaceSection)
      && r.defaults == st.defaults
  {
    var r := MakeDefaults(st);
    DefaultsOk();
    DefaultsValue();
    ApplySchemaFacts(st, Defaults);
    assert OwnValue(r, General, LastFileOption) == Some("");
    assert OwnValue(r, General, RememberOption) == Some("False");
    assert OwnValue(r, InterfaceSection, TooltipsOption) == Some("True");
  }

  /** `Algemeen` and `Interface` are different names, whatever their casing. */
  lemma SchemaNamesDiffer()
    ensures !SameKey(General, InterfaceSection)
  {
    assert LowerStr(General)[0] != LowerStr(InterfaceSection)[0];
  }

  /**
   * If `st` spells a schema section name `n` only exactly and bootstrapping
   * gave `r`, then so does `r`: the sections it adds carry schema names.
   */
  lemma SchemaSpellings(st: Store, r: Store, n: string)
    requires WellFormed(r) && |st.sections| <= |r.sections|
    requires forall k :: 0 <= k < |st.sections| ==> r.sections[k].name == st.sections[k].name
    requires forall m :: HasSection(r, m) ==> HasSection(st, m) || m == General || m == InterfaceSection
    requires n == General || n == InterfaceSection
    requires forall k :: 0 <= k < |st.sections| && SameKey(st.sections[k].name, n) ==> st.sections[k].name == n
    ensures forall k :: 0 <= k < |r.sections| && SameKey(r.sections[k].name, n) ==> r.sections[k].name == n
  {
    SchemaNamesDiffer();
    forall k | 0 <= k < |r.sections| && SameKey(r.sections[k].name, n)
      ensures r.sections[k].name == n
    {
      var m := r.sections[k].name;
      assert SectionNames(r.sections)[k] == m;
      if k >= |st.sections| && HasSection(st, m) {
        var j := Find(st, m);
        assert r.sections[j].name == m;
      }
    }
  }

  /**
   * When the store has no other spelling of `Algemeen` or `Interface`,
   * `haalOp` of the three default options reads their defaults after
   * bootstrapping.
   */
  lemma BootstrapLookup(st: Store, standaard: Option<string>)
    requires WellFormed(st)
    requires forall k :: 0 <= k < |st.sections| && SameKey(st.sections[k].name, General) ==> st.sections[k].name == General
    requires forall k :: 0 <= k < |st.sections| && SameKey(st.sections[k].name, InterfaceSection) ==>
      st.sections[k].name == InterfaceSection
    ensures var r := MakeDefaults(st);
      Lookup(r, General, LastFileOption, standaard) == Some("")
      && Lookup(r, General, RememberOption, standaard) == Some("False")
      && Lookup(r, InterfaceSection, TooltipsOption, standaard) == Some("True")
  {
    var r := MakeDefaults(st);
    DefaultsOk();
    BootstrapDefaults(st);
    SchemaSpellings(st, r, General);
    SchemaSpellings(st, r, InterfaceSection);
    LookupExact(r, General, General, LastFileOption, standaard);
    LookupExact(r, General, General, RememberOption, standaard);
    LookupExact(r, InterfaceSection, InterfaceSection, TooltipsOption, standaard);
  }

  /**
   * `_maakStandaardInstellingen()` with the fixed schema, leaving aside the
   * `slaOp()` that follows.
   */
  function MakeDefaults(st: Store): Store
  {
    DefaultsOk();
    ApplySchema(st, Defaults)
  }

  /** The keys `set` stores the fixed schema's options under. */
  lemma DefaultKeys()
    ensures OptionXform(LastFileOption) == "laatstebestand"
    ensures OptionXform(RememberOption) == "onthoudbestand"
    ensures OptionXform(TooltipsOption) == "toontooltips"
  {
    assert LowerStr(LastFileOption) == "laatstebestand" by {
      assert forall i :: 0 <= i < |LastFileOption| ==> LowerStr(LastFileOption)[i] == Lower(LastFileOption[i]);
    }
    assert LowerStr(RememberOption) == "onthoudbestand" by {
      assert forall i :: 0 <= i < |RememberOption| ==> LowerStr(RememberOption)[i] == Lower(RememberOption[i]);
    }
    assert LowerStr(TooltipsOption) == "toontooltips" by {
      assert forall i :: 0 <= i < |TooltipsOption| ==> LowerStr(TooltipsOption)[i] == Lower(TooltipsOption[i]);
    }
  }

  /** The fixed schema as `set` stores it. */
  lemma LowerDefaults()
    ensures LowerKeys(Defaults) ==
      [Section(General, [Entry("laatstebestand", ""), Entry("onthoudbestand", "False")]),
       Section(InterfaceSection, [Entry("toontooltips", "True")])]
  {
    DefaultKeys();
    assert Lowered(Defaults[0].entries) == [Entry("laatstebestand", ""), Entry("onthoudbestand", "False")];
    assert Lowered(Defaults[1].entries) == [Entry("toontooltips", "True")];
  }

  /** With no configuration file, bootstrapping yields the fixed schema with its option names lower-cased. */
  lemma BootstrapFromNothing()
    ensures MakeDefaults(Store([], [])) ==
      Store([Section(General, [Entry("laatstebestand", ""), Entry("onthoudbestand", "False")]),
             Section(InterfaceSection, [Entry("toontooltips", "True")])], [])
  {
    DefaultsOk();
    ApplySchemaEmpty(Defaults);
    LowerDefaults();
  }
}
