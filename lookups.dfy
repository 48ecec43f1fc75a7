/**
 * What `Instellingen.haalOp(sectie, optie, standaard)` answers: every
 * section whose name matches `sectie` case-insensitively is searched in
 * order; within it, the keys of `options()` (its own, then those it
 * inherits from the defaults) are searched for one matching `optie`
 * case-insensitively, and `get` reads it back. `standaard` is the answer
 * when no matching section has a matching key.
 */
module Lookups {
  import opened Optional
  import opened Keys
  import opened Config

  /**
   * The inner loop of `haalOp` for section `sec`. Whatever spelling the scan
   * of `options()` stops at, `get` reads the same as for `o` itself, and
   * when the scan finds nothing neither the section nor the defaults hold
   * `o`.
   */
  function SectionValue(sec: Section, defaults: seq<Entry>, o: string): (r: Option<string>)
    ensures r == SectionGet(sec, defaults, o)
  {
    var opties := SectionOptions(sec, defaults);
    match FirstMatch(opties, o)
    case Some(j) =>
      EntryValueSameKey(sec.entries, opties[j], o);
      EntryValueSameKey(defaults, opties[j], o);
      SectionGet(sec, defaults, opties[j])
    case None =>
      assert forall m :: 0 <= m < |opties| ==> opties[m] != OptionXform(o);
      None
  }

  /**
   * In configparser dictionaries, a key that the scan of `options()` finds
   * is one `get` reads: it is already lower-case, so it is `optionxform` of
   * the option asked for.
   */
  lemma OptionsListed(sec: Section, defaults: seq<Entry>, o: string)
    requires Dict(sec.entries) && Dict(defaults)
    requires FirstMatch(SectionOptions(sec, defaults), o).Some?
    ensures SectionGet(sec, defaults, o).Some?
  {
    var opties := SectionOptions(sec, defaults);
    var k := opties[FirstMatch(opties, o).value];
    assert k in OptionNames(sec.entries) || k in OptionNames(defaults);
    assert IsLower(k);
    assert k == OptionXform(o);
  }

  /**
   * The inner loop of `haalOp` over section `i` of a well-formed store: when
   * the scan of `options()` stops at key `j`, `get` on that key is what the
   * section answers; when it stops nowhere the section answers nothing.
   */
  lemma SectionValueAt(st: Store, i: nat, o: string)
    requires WellFormed(st) && i < |st.sections|
    ensures HasSection(st, st.sections[i].name)
    ensures Options(st, st.sections[i].name) == SectionOptions(st.sections[i], st.defaults)
    ensures match FirstMatch(Options(st, st.sections[i].name), o)
      case None => SectionValue(st.sections[i], st.defaults, o).None?
      case Some(j) =>
        SectionValue(st.sections[i], st.defaults, o).Some? &&
        Get(st, st.sections[i].name, Options(st, st.sections[i].name)[j]) == SectionValue(st.sections[i], st.defaults, o)
  {
    FindAt(st, i);
    var opties := SectionOptions(st.sections[i], st.defaults);
    if FirstMatch(opties, o).Some? {
      OptionsListed(st.sections[i], st.defaults, o);
      var j := FirstMatch(opties, o).value;
      EntryValueSameKey(st.sections[i].entries, opties[j], o);
      EntryValueSameKey(st.defaults, opties[j], o);
    }
  }

  /**
   * The outer loop of `haalOp`: a matching section that does not hold the
   * option does not end the search, the next matching section is tried. It
   * finds nothing exactly when no matching section holds the option.
   */
  function FirstValue(secs: seq<Section>, defaults: seq<Entry>, s: string, o: string): (r: Option<string>)
    ensures r.None? <==>
      forall i :: 0 <= i < |secs| && SameKey(secs[i].name, s) ==> SectionGet(secs[i], defaults, o).None?
    decreases |secs|
  {
    if secs == [] then None
    else
      assert forall i :: 0 <= i < |secs| - 1 ==> secs[1..][i] == secs[i + 1];
      if SameKey(secs[0].name, s) && SectionValue(secs[0], defaults, o).Some? then SectionValue(secs[0], defaults, o)
      else FirstValue(secs[1..], defaults, s, o)
  }

  /** The result of `haalOp(s, o, standaard)`; `standaard` when no matching section holds the option. */
  function Lookup(st: Store, s: string, o: string, standaard: Option<string>): (r: Option<string>)
    ensures (forall i :: 0 <= i < |st.sections| && SameKey(st.sections[i].name, s) ==>
               SectionGet(st.sections[i], st.defaults, o).None?) ==> r == standaard
    ensures r.None? ==> standaard.None?
  {
    match FirstValue(st.sections, st.defaults, s, o)
    case Some(v) => Some(v)
    case None => standaard
  }

  /** In a well-formed store, `get` on the name of section `i` reads that section and the defaults. */
  lemma GetAt(st: Store, i: nat, o: string)
    requires WellFormed(st) && i < |st.sections|
    ensures Get(st, st.sections[i].name, o) == SectionGet(st.sections[i], st.defaults, o)
  {
    FindAt(st, i);
  }

  /** `haalOp` returns `standaard` when `get` finds the option in no matching section. */
  lemma LookupDefault(st: Store, s: string, o: string, standaard: Option<string>)
    requires WellFormed(st)
    requires forall i :: 0 <= i < |st.sections| && SameKey(st.sections[i].name, s) ==>
      Get(st, st.sections[i].name, o).None?
    ensures Lookup(st, s, o, standaard) == standaard
  {
    forall i | 0 <= i < |st.sections|
      ensures Get(st, st.sections[i].name, o) == SectionGet(st.sections[i], st.defaults, o)
    {
      GetAt(st, i, o);
    }
  }

  /** The first matching section that has the option answers the search. */
  lemma {:induction false} FirstValueAt(secs: seq<Section>, defaults: seq<Entry>, i: nat, s: string, o: string)
    requires i < |secs|
    requires forall k :: 0 <= k < i && SameKey(secs[k].name, s) ==> SectionGet(secs[k], defaults, o).None?
    requires SameKey(secs[i].name, s) && SectionGet(secs[i], defaults, o).Some?
    ensures FirstValue(secs, defaults, s, o) == SectionGet(secs[i], defaults, o)
  {
    if i > 0 {
      assert forall k :: 0 <= k < |secs| - 1 ==> secs[1..][k] == secs[k + 1];
      FirstValueAt(secs[1..], defaults, i - 1, s, o);
    }
  }

  /**
   * `haalOp` returns what `get` gives in the first matching section where
   * `get` finds the option, whether the section holds it or inherits it from
   * the defaults.
   */
  lemma LookupFirst(st: Store, s: string, o: string, standaard: Option<string>, i: nat)
    requires WellFormed(st) && i < |st.sections|
    requires SameKey(st.sections[i].name, s) && Get(st, st.sections[i].name, o).Some?
    requires forall k :: 0 <= k < i && SameKey(st.sections[k].name, s) ==> Get(st, st.sections[k].name, o).None?
    ensures Lookup(st, s, o, standaard) == Get(st, st.sections[i].name, o)
  {
    forall k | 0 <= k < |st.sections|
      ensures Get(st, st.sections[k].name, o) == SectionGet(st.sections[k], st.defaults, o)
    {
      GetAt(st, k, o);
    }
    FirstValueAt(st.sections, st.defaults, i, s, o);
  }

  /**
   * When the only section matching `s` is `n`, `haalOp(s, o, standaard)` is
   * `get(n, o)`, or `standaard` where `get` raises.
   */
  lemma LookupExact(st: Store, n: string, s: string, o: string, standaard: Option<string>)
    requires WellFormed(st) && HasSection(st, n) && SameKey(n, s)
    requires forall k :: 0 <= k < |st.sections| && SameKey(st.sections[k].name, s) ==> st.sections[k].name == n
    ensures Lookup(st, s, o, standaard) == match Get(st, n, o) case Some(w) => Some(w) case None => standaard
  {
    var i := Find(st, n);
    FindAt(st, i);
    if Get(st, n, o).Some? {
      LookupFirst(st, s, o, standaard, i);
    } else {
      LookupDefault(st, s, o, standaard);
    }
  }

  /** The search from section `i` on: section `i` answers it, or the search goes on from `i + 1`. */
  lemma FirstValueFrom(secs: seq<Section>, defaults: seq<Entry>, i: nat, s: string, o: string)
    requires i < |secs|
    ensures FirstValue(secs[i..], defaults, s, o) ==
      if SameKey(secs[i].name, s) && SectionValue(secs[i], defaults, o).Some? then SectionValue(secs[i], defaults, o)
      else FirstValue(secs[i + 1..], defaults, s, o)
  {
    assert secs[i..][0] == secs[i];
    assert secs[i..][1..] == secs[i + 1..];
  }

  /** Replacing a section by one that reads the same for `(s, o)` leaves the search unchanged. */
  lemma {:induction false} FirstValueReplace(secs: seq<Section>, defaults: seq<Entry>, i: nat, x: Section, s: string, o: string)
    requires i < |secs|
    requires SameKey(x.name, s) == SameKey(secs[i].name, s)
    requires SameKey(x.name, s) ==> SectionGet(x, defaults, o) == SectionGet(secs[i], defaults, o)
    ensures FirstValue(secs[i := x], defaults, s, o) == FirstValue(secs, defaults, s, o)
  {
    if i == 0 {
      assert secs[i := x][1..] == secs[1..];
    } else {
      assert secs[i := x][1..] == secs[1..][i - 1 := x];
      FirstValueReplace(secs[1..], defaults, i - 1, x, s, o);
    }
  }

  /** A section added at the end is searched only when no earlier one answered. */
  lemma {:induction false} FirstValueAppend(secs: seq<Section>, x: Section, defaults: seq<Entry>, s: string, o: string)
    ensures FirstValue(secs + [x], defaults, s, o) ==
      if FirstValue(secs, defaults, s, o).Some? then FirstValue(secs, defaults, s, o)
      else if SameKey(x.name, s) then SectionGet(x, defaults, o) else None
  {
    if secs == [] {
      assert [x][1..] == [];
    } else {
      assert (secs + [x])[1..] == secs[1..] + [x];
      FirstValueAppend(secs[1..], x, defaults, s, o);
    }
  }

  /** Defaults that read the same for `o` give the same search for `o`. */
  lemma {:induction false} FirstValueDefaults(secs: seq<Section>, d1: seq<Entry>, d2: seq<Entry>, s: string, o: string)
    requires EntryValue(d1, o) == EntryValue(d2, o)
    ensures FirstValue(secs, d1, s, o) == FirstValue(secs, d2, s, o)
    decreases |secs|
  {
    if secs != [] {
      FirstValueDefaults(secs[1..], d1, d2, s, o);
    }
  }

  /** When the defaults hold `o`, every section answers, so the first matching section decides. */
  lemma {:induction false} FirstValueInherited(secs: seq<Section>, defaults: seq<Entry>, s: string, o: string)
    requires EntryValue(defaults, o).Some?
    ensures FirstValue(secs, defaults, s, o) ==
      match FirstMatch(SectionNames(secs), s)
      case None => None
      case Some(i) => SectionGet(secs[i], defaults, o)
    decreases |secs|
  {
    if secs != [] {
      assert SectionNames(secs)[1..] == SectionNames(secs[1..]);
      FirstValueInherited(secs[1..], defaults, s, o);
    }
  }
}
