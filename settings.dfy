/**
 * The class `Instellingen`: a configparser store that is read from the
 * configuration file on construction (or bootstrapped with the default
 * schema) and written back after every change.
 */
module Settings {
  import opened Optional
  import opened Keys
  import opened Config
  import opened Lookups
  import opened Updates
  import opened Bootstrapping
  import opened Accessors
  import opened Paths

  /**
   * What reading the configuration file gave: no file, a parsed store, or a
   * parse error, after which configparser keeps what it had read so far.
   */
  datatype LoadResult = Missing | Loaded(content: Store) | Failed(partial: Store)

  /**
   * The scan `stelIn` and `haalOp` make over `sections()` and over
   * `options()`: the first name whose lower-cased form equals
   * `sleutel.lower()`.
   */
  method Zoek(namen: seq<string>, sleutel: string) returns (r: Option<nat>)
    ensures r == FirstMatch(namen, sleutel)
  {
    var sleutelLower := LowerStr(sleutel);
    var i := 0;
    while i < |namen|
      invariant 0 <= i <= |namen|
      invariant forall k :: 0 <= k < i ==> !SameKey(namen[k], sleutel)
    {
      if LowerStr(namen[i]) == sleutelLower {
        return Some(i);
      }
      i := i + 1;
    }
    return None;
  }

  /**
   * The inner loop of `maakStandaardInstellingen`: `config.set(naam, optie,
   * waarde)` for every default option of one schema section, in order.
   */
  method ZetOpties(c0: Store, naam: string, opties: seq<Entry>) returns (c: Store)
    requires HasSection(c0, naam)
    ensures c == SetAll(c0, naam, opties)
  {
    c := c0;
    var j := 0;
    while j < |opties|
      invariant 0 <= j <= |opties|
      invariant c == SetAll(c0, naam, opties[..j])
    {
      assert HasSection(c, naam) && SetAll(c0, naam, opties[..j + 1]) ==
        SetOption(c, naam, opties[j].option, opties[j].value) by {
        SetAllStep(c0, naam, opties, j);
      }
      c := SetOption(c, naam, opties[j].option, opties[j].value);
      j := j + 1;
    }
    assert opties[..j] == opties;
  }

  /**
   * The outer loop of `maakStandaardInstellingen`: for every schema section
   * in order, `add_section` when `has_section` says it is not there yet, then
   * its default options.
   */
  method LegOver(start: Store, schema: seq<Section>) returns (c: Store)
    requires SchemaOk(schema)
    ensures c == ApplySchema(start, schema)
  {
    c := start;
    var i := 0;
    while i < |schema|
      invariant 0 <= i <= |schema|
      invariant c == ApplySchema(start, schema[..i])
    {
      var sectie := schema[i];
      ghost var before := c;
      if !HasSection(c, sectie.name) {
        c := AddSection(c, sectie.name);
      }
      assert HasSection(c, sectie.name) && c == EnsureSection(before, sectie.name);
      c := ZetOpties(c, sectie.name, sectie.entries);
      ApplySchemaStep(start, schema, i);
      i := i + 1;
    }
    assert schema[..i] == schema;
  }

  class Instellingen {
    const configBestand: string
    /** `self.standaardInstellingen`. */
    const standaardInstellingen: seq<Section>
    /** `self.config`. */
    var config: Store
    /** The store as last written to `configBestand`. */
    ghost var persisted: Store

    /** The store is a configparser state, and the schema can be laid over it. */
    ghost predicate Valid()
      reads this
    {
      WellFormed(config) && SchemaOk(standaardInstellingen)
    }

    /** The file holds what is in memory. */
    ghost predicate Synced()
      reads this
    {
      persisted == config
    }

    /**
     * `Instellingen(configBestand)`: a parsed file is taken as it is; a
     * missing or unreadable file leads to the default schema laid over what
     * was read (nothing, for a missing file), written out at once.
     */
    constructor (configBestand: string, bestand: LoadResult)
      requires bestand.Loaded? ==> WellFormed(bestand.content)
      requires bestand.Failed? ==> WellFormed(bestand.partial)
      ensures Valid() && Synced()
      ensures this.configBestand == configBestand
      ensures standaardInstellingen == Defaults
      ensures bestand.Loaded? ==> config == bestand.content
      ensures bestand.Missing? ==>
        config == Store([Section(General, [Entry("laatstebestand", ""), Entry("onthoudbestand", "False")]),
                        Section(InterfaceSection, [Entry("toontooltips", "True")])], [])
      ensures bestand.Failed? ==> config == MakeDefaults(bestand.partial)
    {
      this.configBestand := configBestand;
      standaardInstellingen := Defaults;
      config := match bestand
        case Missing => Store([], [])
        case Loaded(content) => content
        case Failed(partial) => partial;
      persisted := config;
      new;
      DefaultsOk();
      if !bestand.Loaded? {
        MaakStandaardInstellingen();
        BootstrapFromNothing();
      }
    }

    /** `_maakStandaardInstellingen()`. */
    method MaakStandaardInstellingen()
      requires Valid()
      modifies this
      ensures Valid() && Synced()
      ensures config == ApplySchema(old(config), standaardInstellingen)
    {
      var c := LegOver(config, standaardInstellingen);
      ApplySchemaFacts(old(config), standaardInstellingen);
      config := c;
      SlaOp();
    }

    /** `haalOp(sectie, optie, standaard)`. */
    method HaalOp(sectie: string, optie: string, standaard: Option<string>) returns (r: Option<string>)
      requires Valid()
      ensures r == Lookup(config, sectie, optie, standaard)
    {
      var c := config;
      var sectieLower := LowerStr(sectie);
      var i := 0;
      while i < |c.sections|
        invariant 0 <= i <= |c.sections|
        invariant FirstValue(c.sections, c.defaults, sectie, optie) == FirstValue(c.sections[i..], c.defaults, sectie, optie)
      {
        FirstValueFrom(c.sections, c.defaults, i, sectie, optie);
        var configSectie := c.sections[i].name;
        if LowerStr(configSectie) == sectieLower {
          SectionValueAt(c, i, optie);
          var opties := Options(c, configSectie);
          var j := Zoek(opties, optie);
          if j.Some? {
            var configOptie := opties[j.value];
            r := Get(c, configSectie, configOptie);
            return;
          }
        }
        i := i + 1;
      }
      r := standaard;
    }

    /** `stelIn(sectie, optie, waarde)`, with `waarde` already in its `str` form. */
    method StelIn(sectie: string, optie: string, waarde: string)
      requires Valid()
      modifies this
      ensures Valid()
      ensures config == Update(old(config), sectie, optie, waarde)
      ensures Refused(old(config), sectie) ==> persisted == old(persisted)
      ensures !Refused(old(config), sectie) ==> Synced()
    {
      var c := config;
      var gevonden := Zoek(SectionNames(c.sections), sectie);
      var naam;
      var werk := c;
      if gevonden.None? {
        if sectie == DefaultSect {
          return;
        }
        IndexOfNoMatch(SectionNames(c.sections), sectie);
        werk := AddSection(c, sectie);
        naam := sectie;
      } else {
        naam := c.sections[gevonden.value].name;
        IndexOfFirstMatch(SectionNames(c.sections), sectie, gevonden.value);
      }
      var opties := Options(werk, naam);
      var bestaandeOptie := Zoek(opties, optie);
      var teGebruikenOptie := if bestaandeOptie.Some? && opties[bestaandeOptie.value] != "" then opties[bestaandeOptie.value] else optie;
      var nieuw := SetOption(werk, naam, teGebruikenOptie, waarde);
      assert nieuw == Update(c, sectie, optie, waarde);
      UpdateWellFormed(c, sectie, optie, waarde);
      config := nieuw;
      SlaOp();
    }

    /** `slaOp()`: the whole store is written to the file. */
    method SlaOp()
      modifies this`persisted
      ensures Synced()
    {
      persisted := config;
    }

    /** `haalLaatsteBestand()`. */
    method HaalLaatsteBestand() returns (r: string)
      requires Valid()
      ensures r == LastFile(config)
    {
      var onthoud := HaalOp(General, RememberOption, None);
      if onthoud == Some("True") {
        var pad := HaalOp(General, LastFileOption, Some(""));
        r := pad.value;
      } else {
        r := "";
      }
    }

    /** `stelLaatsteBestandIn(bestandspad)`: the path is stored in relative form. */
    method StelLaatsteBestandIn(bestandspad: string, env: PathEnv)
      requires Valid()
      modifies this
      ensures Valid() && Synced()
      ensures config == Update(old(config), General, LastFileOption, MaakRelatiefPad(bestandspad, env))
    {
      var relPad := MaakRelatiefPad(bestandspad, env);
      DefaultOptionsDiffer();
      StelIn(General, LastFileOption, relPad);
    }

    /** `stelOnthoudBestandIn(onthoud)`. */
    method StelOnthoudBestandIn(onthoud: bool)
      requires Valid()
      modifies this
      ensures Valid() && Synced()
      ensures config == Update(old(config), General, RememberOption, BoolStr(onthoud))
    {
      DefaultOptionsDiffer();
      StelIn(General, RememberOption, BoolStr(onthoud));
    }

    /** `haalAbsoluutPad(sectie, optie, standaard)`. */
    method HaalAbsoluutPad(sectie: string, optie: string, standaard: Option<string>, env: PathEnv)
      returns (r: Option<string>)
      requires Valid()
      ensures r == AbsolutePath(config, sectie, optie, standaard, env)
    {
      var pad := HaalOp(sectie, optie, standaard);
      if pad.Some? && pad.value != "" {
        r := Some(MaakAbsoluutPad(pad.value, env));
      } else {
        r := standaard;
      }
    }
  }
}
