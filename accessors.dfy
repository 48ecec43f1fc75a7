/**
 * The convenience rules of `Instellingen` built on `haalOp` and `stelIn`:
 * `haalLaatsteBestand`, `stelLaatsteBestandIn`, `stelOnthoudBestandIn`
 * and `haalAbsoluutPad`.
 */
module Accessors {
  import opened Optional
  import opened Keys
  import opened Config
  import opened Lookups
  import opened Updates
  import opened Bootstrapping
  import opened Paths

  /** Python's `str` of a boolean. */
  function BoolStr(b: bool): string
  {
    if b then "True" else "False"
  }

  /** Python truthiness of what `haalOp` returns: `None` and `''` are false. */
  predicate Truthy(p: Option<string>)
  {
    p.Some? && p.value != ""
  }

  /**
   * The result of `haalLaatsteBestand()`: `''` unless `OnthoudBestand` reads
   * exactly `'True'`; then the `LaatsteBestand` value, `''` when there is none.
   */
  function LastFile(st: Store): (r: string)
    ensures Lookup(st, General, RememberOption, None) != Some("True") ==> r == ""
    ensures Lookup(st, General, RememberOption, None) == Some("True") ==>
      r == match FirstValue(st.sections, st.defaults, General, LastFileOption) case Some(v) => v case None => ""
  {
    if Lookup(st, General, RememberOption, None) == Some("True")
    then Lookup(st, General, LastFileOption, Some("")).value
    else ""
  }

  /**
   * The result of `haalAbsoluutPad(s, o, standaard)`: `standaard` unless
   * `haalOp` returns a non-empty path, and then that path, resolved
   * against the working directory when it is relative.
   */
  function AbsolutePath(st: Store, s: string, o: string, standaard: Option<string>, env: PathEnv): (r: Option<string>)
    ensures !Truthy(Lookup(st, s, o, standaard)) ==> r == standaard
    ensures Truthy(Lookup(st, s, o, standaard)) ==>
      var p := Lookup(st, s, o, standaard).value;
      r.Some? && (if env.isabs(p) then r.value == p else r.value == p || env.abspath(p) == Some(r.value))
      && (!env.isabs(p) && env.abspath(p).Some? ==> r == env.abspath(p))
      && (!env.isabs(p) && env.abspath(p).None? ==> r == Some(p))
  {
    var pad := Lookup(st, s, o, standaard);
    if Truthy(pad) then Some(MaakAbsoluutPad(pad.value, env)) else standaard
  }

  /** `Algemeen.OnthoudBestand` and `Algemeen.LaatsteBestand` are different keys, whatever their casing. */
  lemma DefaultOptionsDiffer()
    ensures !SameKey(RememberOption, LastFileOption)
    ensures General != DefaultSect
  {
    assert LowerStr(RememberOption)[0] != LowerStr(LastFileOption)[0];
  }

  /** After `stelOnthoudBestandIn(False)`, `haalLaatsteBestand()` is `''`, whatever `LaatsteBestand` holds. */
  lemma LastFileForgotten(st: Store)
    requires WellFormed(st)
    ensures LastFile(Update(st, General, RememberOption, BoolStr(false))) == ""
  {
    DefaultOptionsDiffer();
    LookupAfterUpdate(st, General, RememberOption, BoolStr(false), General, RememberOption, None);
  }

  /**
   * After `stelOnthoudBestandIn(True)` and then storing `p` as
   * `LaatsteBestand`, `haalLaatsteBestand()` returns `p`.
   */
  lemma LastFileRemembered(st: Store, p: string)
    requires WellFormed(st)
    ensures LastFile(Update(Update(st, General, RememberOption, BoolStr(true)), General, LastFileOption, p)) == p
  {
    DefaultOptionsDiffer();
    var s1 := Update(st, General, RememberOption, BoolStr(true));
    UpdateWellFormed(st, General, RememberOption, BoolStr(true));
    UpdateMakesSection(st, General, RememberOption, BoolStr(true));
    LookupAfterUpdate(st, General, RememberOption, BoolStr(true), General, RememberOption, None);
    LookupUnrelated(s1, General, LastFileOption, p, General, RememberOption, None);
    LookupAfterUpdate(s1, General, LastFileOption, p, General, LastFileOption, Some(""));
  }

  /**
   * Bootstrapping forgets the last file: on a store without other spellings
   * of `Algemeen` and `Interface` (in particular one that a failed parse
   * left half-read, with a `laatstebestand` and `onthoudbestand = True` of
   * its own), `haalLaatsteBestand()` afterwards is `''`.
   */
  lemma LastFileAfterBootstrap(st: Store)
    requires WellFormed(st)
    requires forall k :: 0 <= k < |st.sections| && SameKey(st.sections[k].name, General) ==> st.sections[k].name == General
    requires forall k :: 0 <= k < |st.sections| && SameKey(st.sections[k].name, InterfaceSection) ==>
      st.sections[k].name == InterfaceSection
    ensures LastFile(MakeDefaults(st)) == ""
  {
    BootstrapLookup(st, None);
  }

  /**
   * When `get` finds the option in no matching section, `haalAbsoluutPad`
   * resolves the default itself if it is truthy, and returns it unchanged
   * otherwise.
   */
  lemma AbsolutePathMissing(st: Store, s: string, o: string, standaard: Option<string>, env: PathEnv)
    requires WellFormed(st)
    requires forall i :: 0 <= i < |st.sections| && SameKey(st.sections[i].name, s) ==>
      Get(st, st.sections[i].name, o).None?
    ensures AbsolutePath(st, s, o, standaard, env) ==
      if Truthy(standaard) then Some(MaakAbsoluutPad(standaard.value, env)) else standaard
  {
    LookupDefault(st, s, o, standaard);
  }

  /**
   * When `get` finds the option in matching section `i` and in no earlier
   * one, `haalAbsoluutPad` resolves that value if it is non-empty; an empty
   * value gives back the default, unresolved.
   */
  lemma AbsolutePathFound(st: Store, s: string, o: string, standaard: Option<string>, env: PathEnv, i: nat)
    requires WellFormed(st) && i < |st.sections|
    requires SameKey(st.sections[i].name, s) && Get(st, st.sections[i].name, o).Some?
    requires forall k :: 0 <= k < i && SameKey(st.sections[k].name, s) ==> Get(st, st.sections[k].name, o).None?
    ensures AbsolutePath(st, s, o, standaard, env) ==
      var v := Get(st, st.sections[i].name, o).value;
      if v != "" then Some(MaakAbsoluutPad(v, env)) else standaard
  {
    LookupFirst(st, s, o, standaard, i);
  }

  /**
   * `stelLaatsteBestandIn(p)` for an absolute `p`, then
   * `haalAbsoluutPad('Algemeen', 'LaatsteBestand')`, gives `p` back when the
   * working directory has not changed in between.
   */
  lemma LastFileRoundTrip(st: Store, p: string, env: PathEnv, standaard: Option<string>)
    requires WellFormed(st) && env.isabs(p) && RoundTrips(env, p)
    ensures AbsolutePath(Update(st, General, LastFileOption, MaakRelatiefPad(p, env)),
                         General, LastFileOption, standaard, env) == Some(p)
  {
    DefaultOptionsDiffer();
    PathRoundTrip(p, env);
    LookupAfterUpdate(st, General, LastFileOption, MaakRelatiefPad(p, env), General, LastFileOption, standaard);
  }
}
