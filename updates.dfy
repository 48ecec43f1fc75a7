/**
 * What `Instellingen.stelIn(sectie, optie, waarde)` does to the store: it
 * writes into the first section whose name matches `sectie`
 * case-insensitively, or adds a section spelt exactly `sectie`, and `set`s
 * the option there. `set` stores the option under its lower-cased form, and
 * sends a section named `""` to the defaults dictionary.
 */
module Updates {
  import opened Optional
  import opened Keys
  import opened Config
  import opened Lookups

  /**
   * `stelIn` gives up without changing anything when no section matches and
   * the name is the one configparser keeps for its defaults: `add_section`
   * raises on it and the exception handler only logs.
   */
  predicate Refused(st: Store, s: string): (r: bool)
    ensures r ==> s == DefaultSect && forall k :: 0 <= k < |st.sections| ==> !SameKey(st.sections[k].name, s)
  {
    FirstMatch(SectionNames(st.sections), s).None? && s == DefaultSect
  }

  /** `stelIn` calls `add_section`: no section matches and the name is accepted. */
  predicate Adds(st: Store, s: string)
  {
    FirstMatch(SectionNames(st.sections), s).None? && s != DefaultSect
  }

  /**
   * `bestaande_optie if bestaande_optie else optie`: the spelling of an
   * existing key unless there is none or it is empty. It always lower-cases
   * like `o`.
   */
  function OptionToUse(opts: seq<string>, o: string): (r: string)
    ensures SameKey(r, o)
    ensures r == o || r in opts
  {
    match FirstMatch(opts, o)
    case None => o
    case Some(j) => if opts[j] != "" then opts[j] else o
  }

  /**
   * The store after `stelIn(s, o, v)`, through the configparser calls the
   * source makes. Section names are kept, and one name `s` is appended when
   * `add_section` is called.
   */
  function Update(st: Store, s: string, o: string, v: string): (r: Store)
    ensures Refused(st, s) ==> r == st
    ensures SectionNames(r.sections) == SectionNames(st.sections) + (if Adds(st, s) then [s] else [])
  {
    match FirstMatch(SectionNames(st.sections), s)
    case Some(i) =>
      IndexOfFirstMatch(SectionNames(st.sections), s, i);
      var n := st.sections[i].name;
      SetOption(st, n, OptionToUse(Options(st, n), o), v)
    case None =>
      if s == DefaultSect then st
      else
        IndexOfNoMatch(SectionNames(st.sections), s);
        var added := AddSection(st, s);
        SetOption(added, s, OptionToUse(Options(added, s), o), v)
  }

  /** `Update` when the scan stops at section `i`: `set` on that section, with `o` as spelt. */
  lemma UpdateFound(st: Store, s: string, o: string, v: string, i: nat)
    requires FirstMatch(SectionNames(st.sections), s) == Some(i)
    ensures HasSection(st, st.sections[i].name)
    ensures Update(st, s, o, v) == SetOption(st, st.sections[i].name, o, v)
  {
    IndexOfFirstMatch(SectionNames(st.sections), s, i);
    var n := st.sections[i].name;
    SetOptionSameKey(st, n, OptionToUse(Options(st, n), o), o, v);
  }

  /** `Update` when a section is added: `set` on the new section, with `o` as spelt. */
  lemma UpdateAdded(st: Store, s: string, o: string, v: string)
    requires Adds(st, s)
    ensures !HasSection(st, s)
    ensures Update(st, s, o, v) == SetOption(AddSection(st, s), s, o, v)
  {
    IndexOfNoMatch(SectionNames(st.sections), s);
    var added := AddSection(st, s);
    SetOptionSameKey(added, s, OptionToUse(Options(added, s), o), o, v);
  }

  /**
   * Writing option `o` of a dictionary, said case-insensitively: the first
   * key matching `o` gets `v` in place, keeping its spelling, or `o.lower()`
   * is appended.
   */
  function Overwritten(es: seq<Entry>, o: string, v: string): seq<Entry>
  {
    match FirstMatch(OptionNames(es), o)
    case Some(j) => es[j := Entry(es[j].option, v)]
    case None => es + [Entry(OptionXform(o), v)]
  }

  /** On a configparser dictionary, `set`'s exact-key write is the case-insensitive overwrite. */
  lemma SetEntryOverwrites(es: seq<Entry>, o: string, v: string)
    requires Dict(es)
    ensures SetEntry(es, o, v) == Overwritten(es, o, v)
  {
    FirstMatchLowered(OptionNames(es), o);
  }

  /**
   * When a section matches, `stelIn` writes through the first one only. If
   * its name is not `""`, that section's option is overwritten in place or
   * appended, and nothing else changes. If it is `""`, the defaults
   * dictionary is written instead and every section stays as it was.
   */
  lemma UpdateExisting(st: Store, s: string, o: string, v: string, i: nat)
    requires WellFormed(st)
    requires FirstMatch(SectionNames(st.sections), s) == Some(i)
    ensures var r := Update(st, s, o, v); var sec := st.sections[i];
      (sec.name == "" ==> r == Store(st.sections, Overwritten(st.defaults, o, v)))
      && (sec.name != "" ==> r == Store(st.sections[i := Section(sec.name, Overwritten(sec.entries, o, v))], st.defaults))
  {
    UpdateFound(st, s, o, v, i);
    FindAt(st, i);
    if st.sections[i].name == "" {
      SetEntryOverwrites(st.defaults, o, v);
    } else {
      SetEntryOverwrites(st.sections[i].entries, o, v);
    }
  }

  /** `UpdateNew` for a non-empty name: the new section holds just the option, under its lower-cased name. */
  lemma UpdateNewNamed(st: Store, s: string, o: string, v: string)
    requires Adds(st, s) && s != ""
    ensures Update(st, s, o, v) == Store(st.sections + [Section(s, [Entry(OptionXform(o), v)])], st.defaults)
  {
    UpdateAdded(st, s, o, v);
    var added := AddSection(st, s);
    var x := Entry(OptionXform(o), v);
    assert added.sections == st.sections + [Section(s, [])];
    assert Find(added, s) == |st.sections|;
    assert OptionNames([]) == [];
    assert SetEntry([], o, v) == [x];
    assert (st.sections + [Section(s, [])])[|st.sections| := Section(s, [x])] == st.sections + [Section(s, [x])];
  }

  /** `UpdateNew` for the name `""`: the new section stays empty and the defaults dictionary is written. */
  lemma UpdateNewEmpty(st: Store, o: string, v: string)
    requires Adds(st, "") && Dict(st.defaults)
    ensures Update(st, "", o, v) == Store(st.sections + [Section("", [])], Overwritten(st.defaults, o, v))
  {
    UpdateAdded(st, "", o, v);
    SetEntryOverwrites(st.defaults, o, v);
  }

  /**
   * When no section matches and the name is accepted, exactly one section
   * spelt `s` is appended. It holds just the option, under its lower-cased
   * name; but when `s` is `""` it stays empty and the option goes into the
   * defaults dictionary.
   */
  lemma UpdateNew(st: Store, s: string, o: string, v: string)
    requires Adds(st, s) && Dict(st.defaults)
    ensures Update(st, s, o, v) ==
      if s == "" then Store(st.sections + [Section("", [])], Overwritten(st.defaults, o, v))
      else Store(st.sections + [Section(s, [Entry(OptionXform(o), v)])], st.defaults)
  {
    if s == "" {
      UpdateNewEmpty(st, o, v);
    } else {
      UpdateNewNamed(st, s, o, v);
    }
  }

  /** `stelIn` keeps the store a well-formed configparser state. */
  lemma UpdateWellFormed(st: Store, s: string, o: string, v: string)
    requires WellFormed(st)
    ensures WellFormed(Update(st, s, o, v))
  {
    match FirstMatch(SectionNames(st.sections), s)
    case Some(i) =>
      UpdateFound(st, s, o, v, i);
      SetOptionWellFormed(st, st.sections[i].name, o, v);
    case None =>
      if s != DefaultSect {
        UpdateAdded(st, s, o, v);
        AddSectionWellFormed(st, s);
        SetOptionWellFormed(AddSection(st, s), s, o, v);
      }
  }

  /** The position of the section `stelIn(s, ...)` writes through: the first match, or the one added at the end. */
  function Slot(st: Store, s: string): nat
  {
    match FirstMatch(SectionNames(st.sections), s)
    case Some(i) => i
    case None => |st.sections|
  }

  /**
   * After an accepted `stelIn(s, o, v)`, the section written through is the
   * first one matching `s`, and `get` there gives `v` for every spelling of
   * `o`.
   */
  lemma UpdateSlot(st: Store, s: string, o: string, v: string, o2: string)
    requires WellFormed(st) && !Refused(st, s) && SameKey(o, o2)
    ensures var r := Update(st, s, o, v); var i := Slot(st, s);
      i < |r.sections| && SameKey(r.sections[i].name, s)
      && (forall k :: 0 <= k < i ==> !SameKey(r.sections[k].name, s))
      && SectionGet(r.sections[i], r.defaults, o2) == Some(v)
  {
    var r := Update(st, s, o, v);
    match FirstMatch(SectionNames(st.sections), s)
    case Some(i) =>
      UpdateFound(st, s, o, v, i);
      FindAt(st, i);
      if st.sections[i].name == "" {
        assert r.sections[i].entries == [];
        assert OptionNames([]) == [];
      }
      EntryValueSameKey(r.sections[i].entries, o, o2);
      EntryValueSameKey(r.defaults, o, o2);
    case None =>
      UpdateAdded(st, s, o, v);
      var added := AddSection(st, s);
      assert Find(added, s) == |st.sections|;
      assert OptionNames([]) == [];
      EntryValueSameKey(r.sections[|st.sections|].entries, o, o2);
      EntryValueSameKey(r.defaults, o, o2);
  }

  /** After `stelIn(s, ...)` has been accepted, a section matching `s` exists, so another `stelIn(s, ...)` adds none. */
  lemma UpdateMakesSection(st: Store, s: string, o: string, v: string)
    requires WellFormed(st) && !Refused(st, s)
    ensures !Adds(Update(st, s, o, v), s)
  {
    var r := Update(st, s, o, v);
    UpdateSlot(st, s, o, v, o);
    assert SectionNames(r.sections)[Slot(st, s)] == r.sections[Slot(st, s)].name;
  }

  /** After `stelIn(s, o, v)` has been accepted, `haalOp` with any casing of `s` and `o` gives `v`. */
  lemma LookupAfterUpdate(st: Store, s: string, o: string, v: string,
                          s2: string, o2: string, standaard: Option<string>)
    requires WellFormed(st) && !Refused(st, s)
    requires SameKey(s, s2) && SameKey(o, o2)
    ensures Lookup(Update(st, s, o, v), s2, o2, standaard) == Some(v)
  {
    var r := Update(st, s, o, v);
    UpdateSlot(st, s, o, v, o2);
    FirstValueAt(r.sections, r.defaults, Slot(st, s), s2, o2);
  }

  /** `LookupUnrelated` when `stelIn` writes through existing section `i`. */
  lemma LookupUnrelatedExisting(st: Store, s: string, o: string, v: string,
                                s2: string, o2: string, i: nat)
    requires WellFormed(st)
    requires FirstMatch(SectionNames(st.sections), s) == Some(i)
    requires !(SameKey(s, s2) && SameKey(o, o2))
    requires s == "" ==> !SameKey(o, o2)
    ensures FirstValue(Update(st, s, o, v).sections, Update(st, s, o, v).defaults, s2, o2)
      == FirstValue(st.sections, st.defaults, s2, o2)
  {
    var r := Update(st, s, o, v);
    var n := st.sections[i].name;
    UpdateFound(st, s, o, v, i);
    FindAt(st, i);
    if n == "" {
      SameKeyEmpty(s, n);
      FirstValueDefaults(st.sections, r.defaults, st.defaults, s2, o2);
    } else {
      FirstValueReplace(st.sections, st.defaults, i, r.sections[i], s2, o2);
    }
  }

  /** `LookupUnrelated` when `stelIn` adds the section `""`: only the defaults change, and not for `o2`. */
  lemma LookupUnrelatedNewEmpty(st: Store, o: string, v: string,
                                s2: string, o2: string, standaard: Option<string>)
    requires WellFormed(st) && Adds(st, "") && !SameKey(o, o2)
    ensures Lookup(Update(st, "", o, v), s2, o2, standaard) ==
      if SameKey("", s2) then (match EntryValue(st.defaults, o2) case Some(d) => Some(d) case None => standaard)
      else Lookup(st, s2, o2, standaard)
  {
    var r := Update(st, "", o, v);
    UpdateAdded(st, "", o, v);
    var x := Section("", []);
    assert r.sections == st.sections + [x];
    FirstValueDefaults(r.sections, r.defaults, st.defaults, s2, o2);
    FirstValueAppend(st.sections, x, st.defaults, s2, o2);
    assert OptionNames([]) == [];
  }

  /**
   * A section appended under a new name `s`, holding only option `o`,
   * answers the searches for names matching `s` (from the defaults, for
   * every key other than `o`) and no others.
   */
  lemma FirstValueNewSection(secs: seq<Section>, defaults: seq<Entry>, s: string, o: string, v: string, s2: string, o2: string)
    requires forall k :: 0 <= k < |secs| ==> !SameKey(secs[k].name, s)
    requires !(SameKey(s, s2) && SameKey(o, o2))
    ensures FirstValue(secs + [Section(s, [Entry(OptionXform(o), v)])], defaults, s2, o2) ==
      if SameKey(s, s2) then EntryValue(defaults, o2) else FirstValue(secs, defaults, s2, o2)
  {
    var x := Section(s, [Entry(OptionXform(o), v)]);
    FirstValueAppend(secs, x, defaults, s2, o2);
    if SameKey(s, s2) {
      EntryValueMissing(x.entries, o2);
    }
  }

  /** `haalOp` on a store with such a section appended. */
  lemma LookupNewSection(st: Store, r: Store, s: string, o: string, v: string,
                         s2: string, o2: string, standaard: Option<string>)
    requires r == Store(st.sections + [Section(s, [Entry(OptionXform(o), v)])], st.defaults)
    requires forall k :: 0 <= k < |st.sections| ==> !SameKey(st.sections[k].name, s)
    requires !(SameKey(s, s2) && SameKey(o, o2))
    ensures Lookup(r, s2, o2, standaard) ==
      if SameKey(s, s2) then (match EntryValue(st.defaults, o2) case Some(d) => Some(d) case None => standaard)
      else Lookup(st, s2, o2, standaard)
  {
    FirstValueNewSection(st.sections, st.defaults, s, o, v, s2, o2);
  }

  /** `LookupUnrelated` when `stelIn` adds a section with a non-empty name. */
  lemma LookupUnrelatedNewNamed(st: Store, s: string, o: string, v: string,
                                s2: string, o2: string, standaard: Option<string>)
    requires Adds(st, s) && s != ""
    requires !(SameKey(s, s2) && SameKey(o, o2))
    ensures Lookup(Update(st, s, o, v), s2, o2, standaard) ==
      if SameKey(s, s2) then (match EntryValue(st.defaults, o2) case Some(d) => Some(d) case None => standaard)
      else Lookup(st, s2, o2, standaard)
  {
    UpdateNewNamed(st, s, o, v);
    assert forall k :: 0 <= k < |st.sections| ==> !SameKey(SectionNames(st.sections)[k], s);
    LookupNewSection(st, Update(st, s, o, v), s, o, v, s2, o2, standaard);
  }

  /**
   * `stelIn(s, o, v)` with a non-empty `s` leaves `haalOp` unchanged for
   * every key pair not matching `(s, o)`, with one exception: a section
   * `stelIn` adds is found by names that match it, and inherits the
   * defaults' values. `stelIn("", o, v)` leaves every key not matching `o`
   * unchanged in the same sense.
   */
  lemma LookupUnrelated(st: Store, s: string, o: string, v: string,
                        s2: string, o2: string, standaard: Option<string>)
    requires WellFormed(st)
    requires !(SameKey(s, s2) && SameKey(o, o2))
    requires s == "" ==> !SameKey(o, o2)
    ensures Lookup(Update(st, s, o, v), s2, o2, standaard) ==
      if Adds(st, s) && SameKey(s, s2) then (match EntryValue(st.defaults, o2) case Some(d) => Some(d) case None => standaard)
      else Lookup(st, s2, o2, standaard)
  {
    match FirstMatch(SectionNames(st.sections), s)
    case Some(i) =>
      LookupUnrelatedExisting(st, s, o, v, s2, o2, i);
    case None =>
      if s == "" {
        LookupUnrelatedNewEmpty(st, o, v, s2, o2, standaard);
      } else if s != DefaultSect {
        LookupUnrelatedNewNamed(st, s, o, v, s2, o2, standaard);
      }
  }

  /**
   * `stelIn("", o, v)` writes `o` into the defaults dictionary, so `haalOp`
   * of any spelling of `o` in any section gives `v`, unless the first
   * section matching the name holds `o` itself. Only a lookup of the section
   * `""` itself finds no section before the call and one after.
   */
  lemma LookupThroughDefaults(st: Store, o: string, v: string, s2: string, o2: string, standaard: Option<string>)
    requires WellFormed(st) && SameKey(o, o2)
    ensures Lookup(Update(st, "", o, v), s2, o2, standaard) ==
      match FirstMatch(SectionNames(st.sections), s2)
      case None => if s2 == "" then Some(v) else standaard
      case Some(i) => (match EntryValue(st.sections[i].entries, o2) case Some(w) => Some(w) case None => Some(v))
  {
    var r := Update(st, "", o, v);
    match FirstMatch(SectionNames(st.sections), "") {
    case Some(i) =>
      UpdateFound(st, "", o, v, i);
      SameKeyEmpty(st.sections[i].name, "");
      FindAt(st, i);
      assert st.sections[i].entries == [];
      assert OptionNames([]) == [];
    case None =>
      UpdateAdded(st, "", o, v);
      assert r.sections == st.sections + [Section("", [])];
      assert SectionNames(r.sections) == SectionNames(st.sections) + [""];
      FirstMatchAppend(SectionNames(st.sections), "", s2);
      if s2 == "" {
        assert SameKey("", s2);
      } else {
        assert !SameKey("", s2) by {
          if SameKey("", s2) {
            SameKeyEmpty(s2, "");
          }
        }
      }
      assert OptionNames([]) == [];
    }
    EntryValueSameKey(r.defaults, o, o2);
    FirstValueInherited(r.sections, r.defaults, s2, o2);
  }
}
