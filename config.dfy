/**
 * The state of a `configparser.ConfigParser` as the settings store uses it:
 * an ordered dictionary from section name to an ordered dictionary of
 * options, and the dictionary of the defaults section, which every section
 * inherits. Section names are exact keys. Option names pass through
 * `optionxform` (lower-casing) whenever the library stores or looks them up.
 */
module Config {
  import opened Optional
  import opened Keys

  datatype Entry = Entry(option: string, value: string)
  datatype Section = Section(name: string, entries: seq<Entry>)

  /** A ConfigParser: `_sections` in order, and `_defaults`. */
  datatype Store = Store(sections: seq<Section>, defaults: seq<Entry>)

  /** The name configparser reserves for its defaults section (`default_section`). */
  const DefaultSect := "DEFAULT"

  /** `optionxform(o)`: the key an option is stored and looked up under. */
  function OptionXform(o: string): (r: string)
    ensures IsLower(r) && SameKey(r, o)
  {
    LowerStrTwice(o);
    LowerStr(o)
  }

  /** `config.sections()`, in order. */
  function SectionNames(secs: seq<Section>): (r: seq<string>)
    ensures |r| == |secs|
    ensures forall i :: 0 <= i < |secs| ==> r[i] == secs[i].name
  {
    seq(|secs|, i requires 0 <= i < |secs| => secs[i].name)
  }

  /** The option keys of one dictionary, in order. */
  function OptionNames(es: seq<Entry>): (r: seq<string>)
    ensures |r| == |es|
    ensures forall i :: 0 <= i < |es| ==> r[i] == es[i].option
  {
    seq(|es|, i requires 0 <= i < |es| => es[i].option)
  }

  /** An option dictionary as configparser keeps it: every key transformed by `optionxform`, none twice. */
  ghost predicate Dict(es: seq<Entry>)
  {
    (forall a, b :: 0 <= a < b < |es| ==> es[a].option != es[b].option)
    && (forall a :: 0 <= a < |es| ==> IsLower(es[a].option))
  }

  /**
   * What a ConfigParser always satisfies: section names are distinct, the
   * defaults section is never among `sections()`, every option dictionary
   * is a `Dict`, and a section named `""` holds nothing of its own (`set`
   * sends that name to the defaults, and the INI syntax cannot name it).
   */
  ghost predicate WellFormed(st: Store)
  {
    (forall a, b :: 0 <= a < b < |st.sections| ==> st.sections[a].name != st.sections[b].name)
    && (forall k :: 0 <= k < |st.sections| ==>
          st.sections[k].name != DefaultSect && Dict(st.sections[k].entries)
          && (st.sections[k].name == "" ==> st.sections[k].entries == []))
    && Dict(st.defaults)
  }

  /** `config.has_section(n)`. */
  predicate HasSection(st: Store, n: string): (r: bool)
    ensures r <==> n in SectionNames(st.sections)
  {
    IndexOf(SectionNames(st.sections), n).Some?
  }

  /** Where section `n` sits. */
  function Find(st: Store, n: string): (k: nat)
    requires HasSection(st, n)
    ensures k < |st.sections| && st.sections[k].name == n
    ensures forall m :: 0 <= m < k ==> st.sections[m].name != n
  {
    IndexOf(SectionNames(st.sections), n).value
  }

  /**
   * `config.add_section(n)`: the library raises `ValueError` for `DEFAULT`
   * and `DuplicateSectionError` for a present name; otherwise an empty
   * section is appended.
   */
  function AddSection(st: Store, n: string): (r: Store)
    requires n != DefaultSect && !HasSection(st, n)
    ensures HasSection(r, n)
    ensures SectionNames(r.sections) == SectionNames(st.sections) + [n]
    ensures r.sections[..|st.sections|] == st.sections && r.sections[|st.sections|].entries == []
    ensures r.defaults == st.defaults
  {
    var r := Store(st.sections + [Section(n, [])], st.defaults);
    assert SectionNames(r.sections)[|st.sections|] == n;
    assert SectionNames(r.sections) == SectionNames(st.sections) + [n];
    r
  }

  /** The value a dictionary holds under `optionxform(o)`. */
  function EntryValue(es: seq<Entry>, o: string): (r: Option<string>)
    ensures r.Some? <==> OptionXform(o) in OptionNames(es)
  {
    match IndexOf(OptionNames(es), OptionXform(o))
    case None => None
    case Some(j) => Some(es[j].value)
  }

  /** `dict[optionxform(o)] = v`: overwritten in place if the key exists, appended otherwise. */
  function SetEntry(es: seq<Entry>, o: string, v: string): (r: seq<Entry>)
    ensures EntryValue(r, o) == Some(v)
    ensures forall q :: !SameKey(q, o) ==> EntryValue(r, q) == EntryValue(es, q)
    ensures OptionNames(r) == OptionNames(es) || OptionNames(r) == OptionNames(es) + [OptionXform(o)]
  {
    var key := OptionXform(o);
    match IndexOf(OptionNames(es), key)
    case Some(j) =>
      var r := es[j := Entry(key, v)];
      assert OptionNames(r) == OptionNames(es);
      r
    case None =>
      var r := es + [Entry(key, v)];
      assert OptionNames(r) == OptionNames(es) + [key];
      forall q ensures IndexOf(OptionNames(r), OptionXform(q)) ==
        (if IndexOf(OptionNames(es), OptionXform(q)).Some? then IndexOf(OptionNames(es), OptionXform(q))
         else if key == OptionXform(q) then Some(|es|) else None)
      {
        IndexOfAppend(OptionNames(es), key, OptionXform(q));
      }
      r
  }

  /** The keys of `extra` that are not among `have`, in order: what `dict.update` adds to a copy of `have`. */
  function Unlisted(have: seq<string>, extra: seq<string>): (r: seq<string>)
    ensures forall k :: k in r <==> k in extra && k !in have
    decreases |extra|
  {
    if extra == [] then []
    else
      assert extra == [extra[0]] + extra[1..];
      (if extra[0] in have then [] else [extra[0]]) + Unlisted(have, extra[1..])
  }

  /** `options()` of section `sec`: its own keys, then the keys of the defaults it lacks. */
  function SectionOptions(sec: Section, defaults: seq<Entry>): (r: seq<string>)
    ensures forall k :: k in r <==> k in OptionNames(sec.entries) || k in OptionNames(defaults)
    ensures |sec.entries| <= |r| && r[..|sec.entries|] == OptionNames(sec.entries)
  {
    var own := OptionNames(sec.entries);
    assert (own + Unlisted(own, OptionNames(defaults)))[..|own|] == own;
    own + Unlisted(own, OptionNames(defaults))
  }

  /** `config.options(n)`; the library raises `NoSectionError` if the section is missing. */
  function Options(st: Store, n: string): (r: seq<string>)
    requires HasSection(st, n)
    ensures forall k :: k in r <==> k in OptionNames(st.sections[Find(st, n)].entries) || k in OptionNames(st.defaults)
  {
    SectionOptions(st.sections[Find(st, n)], st.defaults)
  }

  /** The chain `get` consults for a section: its own dictionary, then the defaults. */
  function SectionGet(sec: Section, defaults: seq<Entry>, o: string): (r: Option<string>)
    ensures r.Some? <==> EntryValue(sec.entries, o).Some? || EntryValue(defaults, o).Some?
    ensures EntryValue(sec.entries, o).Some? ==> r == EntryValue(sec.entries, o)
  {
    match EntryValue(sec.entries, o)
    case Some(v) => Some(v)
    case None => EntryValue(defaults, o)
  }

  /** What section `n` holds for `o` in its own dictionary, leaving the defaults aside. */
  function OwnValue(st: Store, n: string, o: string): Option<string>
  {
    if HasSection(st, n) then EntryValue(st.sections[Find(st, n)].entries, o) else None
  }

  /**
   * `config.get(n, o)`, `None` where the library raises: `NoSectionError`
   * for a missing section other than `DEFAULT`, `NoOptionError` when
   * neither the section nor the defaults hold the key.
   */
  function Get(st: Store, n: string, o: string): (r: Option<string>)
    ensures !HasSection(st, n) && n != DefaultSect ==> r.None?
    ensures HasSection(st, n) ==> r == SectionGet(st.sections[Find(st, n)], st.defaults, o)
    ensures !HasSection(st, n) && n == DefaultSect ==> r == EntryValue(st.defaults, o)
  {
    if HasSection(st, n) || n == DefaultSect then
      match OwnValue(st, n, o)
      case Some(v) => Some(v)
      case None => EntryValue(st.defaults, o)
    else None
  }

  /** `set` sends these section names to the defaults dictionary. */
  predicate ToDefaults(n: string)
  {
    n == "" || n == DefaultSect
  }

  /**
   * `config.set(n, o, v)`: a falsy name or `DEFAULT` writes the defaults
   * dictionary; any other name must be a present section (the library raises
   * `NoSectionError` otherwise), and only that section is written. No
   * section is added, removed or renamed.
   */
  function SetOption(st: Store, n: string, o: string, v: string): (r: Store)
    requires ToDefaults(n) || HasSection(st, n)
    ensures SectionNames(r.sections) == SectionNames(st.sections) && |r.sections| == |st.sections|
    ensures ToDefaults(n) ==> r == Store(st.sections, SetEntry(st.defaults, o, v))
    ensures !ToDefaults(n) ==>
      r.defaults == st.defaults
      && r.sections == st.sections[Find(st, n) := Section(n, SetEntry(st.sections[Find(st, n)].entries, o, v))]
  {
    if ToDefaults(n) then Store(st.sections, SetEntry(st.defaults, o, v))
    else
      var k := Find(st, n);
      var r := Store(st.sections[k := Section(n, SetEntry(st.sections[k].entries, o, v))], st.defaults);
      assert SectionNames(r.sections) == SectionNames(st.sections);
      r
  }

  /** Reading a key depends only on its lower-cased form. */
  lemma EntryValueSameKey(es: seq<Entry>, o1: string, o2: string)
    requires SameKey(o1, o2)
    ensures EntryValue(es, o1) == EntryValue(es, o2)
  {
  }

  /** Writing a key depends only on its lower-cased form. */
  lemma SetEntrySameKey(es: seq<Entry>, o1: string, o2: string, v: string)
    requires SameKey(o1, o2)
    ensures SetEntry(es, o1, v) == SetEntry(es, o2, v)
  {
  }

  /** `set` with two spellings of a key that lower-case alike does the same. */
  lemma SetOptionSameKey(st: Store, n: string, o1: string, o2: string, v: string)
    requires ToDefaults(n) || HasSection(st, n)
    requires SameKey(o1, o2)
    ensures SetOption(st, n, o1, v) == SetOption(st, n, o2, v)
  {
    if ToDefaults(n) {
      SetEntrySameKey(st.defaults, o1, o2, v);
    } else {
      SetEntrySameKey(st.sections[Find(st, n)].entries, o1, o2, v);
    }
  }

  /** In a `Dict`, the entry whose key matches `o` case-insensitively is what `o` reads. */
  lemma EntryValueAt(es: seq<Entry>, j: nat, o: string)
    requires Dict(es) && j < |es| && SameKey(es[j].option, o)
    ensures EntryValue(es, o) == Some(es[j].value)
  {
    assert es[j].option == OptionXform(o);
    assert forall m :: 0 <= m < j ==> OptionNames(es)[m] != es[j].option;
  }

  /** A key that matches no entry case-insensitively reads nothing. */
  lemma EntryValueMissing(es: seq<Entry>, o: string)
    requires forall j :: 0 <= j < |es| ==> !SameKey(es[j].option, o)
    ensures EntryValue(es, o).None?
  {
    assert forall j :: 0 <= j < |es| ==> OptionNames(es)[j] != OptionXform(o);
  }

  /** `set` keeps a dictionary a `Dict`. */
  lemma SetEntryDict(es: seq<Entry>, o: string, v: string)
    requires Dict(es)
    ensures Dict(SetEntry(es, o, v))
  {
    var r := SetEntry(es, o, v);
    assert forall a :: 0 <= a < |es| ==> r[a].option == es[a].option;
    if |r| > |es| {
      assert r[|es|].option == OptionXform(o);
      assert forall a :: 0 <= a < |es| ==> OptionNames(es)[a] != OptionXform(o);
    }
  }

  /** In a well-formed store a section is found at its own position. */
  lemma FindAt(st: Store, i: nat)
    requires WellFormed(st) && i < |st.sections|
    ensures HasSection(st, st.sections[i].name) && Find(st, st.sections[i].name) == i
  {
    assert SectionNames(st.sections)[i] == st.sections[i].name;
  }

  /** After `set(n, o, v)` on a section, `get(n, o)` gives `v` for every spelling of `o`; every other key reads as before. */
  lemma SetOptionGet(st: Store, n: string, o: string, v: string, n2: string, o2: string)
    requires !ToDefaults(n) && HasSection(st, n)
    ensures Get(SetOption(st, n, o, v), n2, o2) ==
      if n2 == n && SameKey(o2, o) then Some(v) else Get(st, n2, o2)
  {
    var r := SetOption(st, n, o, v);
    var k := Find(st, n);
    if HasSection(st, n2) {
      assert Find(r, n2) == Find(st, n2);
    }
  }

  /** `set(n, o, v)` on a section changes that section's own value for every spelling of `o`, and no other. */
  lemma SetOptionOwn(st: Store, n: string, o: string, v: string, n2: string, o2: string)
    requires !ToDefaults(n) && HasSection(st, n)
    ensures OwnValue(SetOption(st, n, o, v), n2, o2) ==
      if n2 == n && SameKey(o2, o) then Some(v) else OwnValue(st, n2, o2)
  {
    var r := SetOption(st, n, o, v);
    if HasSection(st, n2) {
      assert Find(r, n2) == Find(st, n2);
    }
  }

  /**
   * After `set(n, o, v)` with `n` falsy or `DEFAULT`, every section and the
   * defaults section read `v` for `o` unless they hold `o` themselves;
   * every other key reads as before.
   */
  lemma SetDefaultsGet(st: Store, n: string, o: string, v: string, n2: string, o2: string)
    requires ToDefaults(n)
    ensures Get(SetOption(st, n, o, v), n2, o2) ==
      if SameKey(o2, o) && (HasSection(st, n2) || n2 == DefaultSect) then
        (if OwnValue(st, n2, o2).Some? then OwnValue(st, n2, o2) else Some(v))
      else Get(st, n2, o2)
  {
    var r := SetOption(st, n, o, v);
    if HasSection(st, n2) {
      assert Find(r, n2) == Find(st, n2);
    }
  }

  /** A new section reads only the defaults; every other section reads as before. */
  lemma AddSectionGet(st: Store, n: string, n2: string, o2: string)
    requires n != DefaultSect && !HasSection(st, n)
    ensures Get(AddSection(st, n), n2, o2) ==
      if n2 == n then EntryValue(st.defaults, o2) else Get(st, n2, o2)
  {
    var r := AddSection(st, n);
    IndexOfAppend(SectionNames(st.sections), n, n2);
    assert forall k :: 0 <= k < |st.sections| ==> r.sections[k] == st.sections[k];
    assert OptionNames([]) == [];
  }

  /** A new section holds nothing of its own; every other section holds what it held. */
  lemma AddSectionOwn(st: Store, n: string, n2: string, o2: string)
    requires n != DefaultSect && !HasSection(st, n)
    ensures OwnValue(AddSection(st, n), n2, o2) == OwnValue(st, n2, o2)
  {
    var r := AddSection(st, n);
    IndexOfAppend(SectionNames(st.sections), n, n2);
    assert forall k :: 0 <= k < |st.sections| ==> r.sections[k] == st.sections[k];
    assert OptionNames([]) == [];
  }

  /** `set` keeps the store well-formed. */
  lemma SetOptionWellFormed(st: Store, n: string, o: string, v: string)
    requires WellFormed(st) && (ToDefaults(n) || HasSection(st, n))
    ensures WellFormed(SetOption(st, n, o, v))
  {
    if ToDefaults(n) {
      SetEntryDict(st.defaults, o, v);
    } else {
      SetEntryDict(st.sections[Find(st, n)].entries, o, v);
    }
  }

  /** `add_section` keeps the store well-formed when the library accepts the name. */
  lemma AddSectionWellFormed(st: Store, n: string)
    requires WellFormed(st) && !HasSection(st, n) && n != DefaultSect
    ensures WellFormed(AddSection(st, n))
  {
    var r := AddSection(st, n);
    assert r.sections == st.sections + [Section(n, [])];
    forall a, b | 0 <= a < b < |r.sections|
      ensures r.sections[a].name != r.sections[b].name
    {
      if b == |st.sections| {
        assert SectionNames(st.sections)[a] == st.sections[a].name;
      }
    }
    forall k | 0 <= k < |r.sections|
      ensures r.sections[k].name != DefaultSect && Dict(r.sections[k].entries)
        && (r.sections[k].name == "" ==> r.sections[k].entries == [])
    {
      if k < |st.sections| {
        assert r.sections[k] == st.sections[k];
      }
    }
  }
}
