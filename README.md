# Case-insensitive settings store

This project models the settings store of Excelladin Reloaded
(`modules/settings.py`), written in Dafny, and proves properties of it.
The class `Instellingen` wraps a `configparser.ConfigParser`. That library
holds an ordered dictionary from section names to ordered dictionaries of
string options, plus one dictionary of defaults that every section
inherits. Section names are exact keys. Option names pass through
`optionxform`, which lower-cases them, whenever the library stores or
looks one up.

The store reads its state from `config.ini`, or bootstraps it with a fixed
default schema. It answers `haalOp(sectie, optie, standaard)` and
`stelIn(sectie, optie, waarde)`, matching section and option names
case-insensitively. `stelIn` keeps the spelling of a section name it
finds, or adds the section under the spelling it was given. It writes
the whole store back after every change. Around these sit:
- convenience rules for the last opened file;
- path-valued settings;
- two helpers that convert between absolute and relative paths.

Layout, one module per concern:

- `keys.dfy`: `Optional` (the `Option` type); `Keys` (ASCII lower-casing,
  `SameKey`, the case-insensitive first-match scan `FirstMatch` and the
  exact-key search `IndexOf`).
- `config.dfy`: `Config`, the part of configparser the store uses:
  `sections`, `has_section`, `add_section`, `options`, `set`, `get`, the
  lower-casing `optionxform`, and the defaults dictionary. `set` on the
  name `""` or `DEFAULT` writes that dictionary. `WellFormed` says:
  - section names are distinct;
  - `DEFAULT` is never among the sections;
  - every option dictionary has distinct, lower-case keys;
  - a section named `""` holds nothing of its own.
- `lookups.dfy`: `Lookups`, what `haalOp` answers.
- `updates.dfy`: `Updates`, what `stelIn` does to the store.
- `bootstrapping.dfy`: `Bootstrapping`, the default schema and
  `_maakStandaardInstellingen` as a fold over it.
- `paths.dfy`: `Paths`, `maak_relatief_pad` and `maak_absoluut_pad`.
- `accessors.dfy`: `Accessors`, `haalLaatsteBestand`, `stelLaatsteBestandIn`,
  `stelOnthoudBestandIn` and `haalAbsoluutPad` as functions over the store.
- `settings.dfy`: `Settings`, the class `Instellingen` itself.
  - `config` is a mutable field.
  - A ghost field `persisted` is the snapshot last written by `slaOp`.
  - Each method uses the source's loops: the `break` scans of `stelIn`,
    the nested loops with early return of `haalOp`, and the two nested
    loops of `_maakStandaardInstellingen` (the outer one in `LegOver`, the
    inner one in `ZetOpties`).
  - Each method is proved against the functions of the modules above.

Behaviour of the code worth stating plainly:
- `haalAbsoluutPad` passes a truthy default through `maak_absoluut_pad`
  when the option is missing, because `haalOp` has already substituted it
  (lines 250-253).
- `haalOp` goes on to later sections whose names also match when the
  first matching one lacks the option (lines 144-148). `stelIn` stops at
  the first match (lines 171-174).
- When reading the file raises, the sections configparser had parsed
  before the error remain, and the schema is laid over them (lines
  104-110). When the file spells the section `Algemeen` exactly, the
  defaults then overwrite `laatstebestand` and `onthoudbestand` of the
  file whatever their case, because `set` lower-cases option names, so the
  last file is forgotten. `has_section` compares section names exactly
  (line 117), so a file with `[algemeen]` gets a second section
  `Algemeen` appended, and `haalOp` still reads the file's own section
  first.
- `stelIn('', o, v)` is accepted by `add_section`, but `set` sends the
  name `''` to the defaults dictionary. Every section then inherits `o`.

## Model

| member | source | states |
|---|---|---|
| Keys.LowerStr | modules/settings.py:140-141 | `s.lower()` keeps the length of `s` |
| Keys.LowerStrTwice | modules/settings.py:145-147 | lower-casing a name that is already lower-case changes nothing |
| Keys.FirstMatch | modules/settings.py:171-174 | the scan stops at the first name that lower-cases like the key: it matches, no earlier name matches, and `None` means no name matches |
| Keys.IndexOf | modules/settings.py:117 | an exact dictionary-key search: the first position holding the key, `None` when no position does |
| Keys.FirstMatchLowered | modules/settings.py:183-186 | over keys that are already lower-case, the case-insensitive scan finds exactly the position of the lower-cased key |
| Keys.FirstMatchSameKey | modules/settings.py:166-172 | two keys with the same lower-cased form find the same section or option |
| Keys.FirstMatchAppend | modules/settings.py:171-174 | a name added at the end is found only when no earlier name matches |
| Keys.IndexOfAppend | modules/settings.py:117-118 | a key added at the end is found exactly only when no earlier key equals it |
| Keys.IndexOfFirstMatch | modules/settings.py:173-178 | the name the scan stops at is also the first exact key equal to it, so the configparser calls made with it address that very section |
| Keys.IndexOfNoMatch | modules/settings.py:177-178 | a name matching no section case-insensitively is not a section exactly either, so `add_section` meets no duplicate |
| Keys.SameKeyEmpty | modules/settings.py:172 | only the empty name lower-cases like the empty name |
| Config.OptionXform | modules/settings.py:121 | the key `set` stores an option under is lower-case and matches the option case-insensitively |
| Config.SectionNames | modules/settings.py:144 | `sections()` lists every section's name, in order |
| Config.OptionNames | modules/settings.py:146 | a dictionary's keys, in order |
| Config.HasSection | modules/settings.py:117 | `has_section(n)` holds exactly when `n` is among `sections()` |
| Config.Find | modules/settings.py:148 | the section a name addresses holds that name, and no earlier one does |
| Config.AddSection | modules/settings.py:178 | `add_section` appends an empty section under the name, keeps every earlier section and the defaults, and `has_section` then holds |
| Config.EntryValue | modules/settings.py:148 | a dictionary holds a value for `o` exactly when `optionxform(o)` is among its keys |
| Config.SetEntry | modules/settings.py:192 | after `set`, the key reads the new value, every key not matching it reads as before, and the keys are unchanged or gain `optionxform(o)` at the end |
| Config.Unlisted | modules/settings.py:146 | the defaults' keys `options()` adds are exactly those the section lacks |
| Config.SectionOptions | modules/settings.py:146 | `options()` of a section lists its own keys first, then the defaults' keys, and nothing else |
| Config.Options | modules/settings.py:183 | `options(n)` lists exactly the keys of section `n` and of the defaults |
| Config.SectionGet | modules/settings.py:148 | `get` in a section finds a value exactly when the section or the defaults hold the key, and the section's own value comes first |
| Config.Get | modules/settings.py:148 | `get(n, o)` fails for a missing section other than `DEFAULT`, reads the section and then the defaults for a present one, and reads the defaults alone for `DEFAULT` |
| Config.SetOption | modules/settings.py:192 | `set` on `""` or `DEFAULT` writes only the defaults; on any other name it writes only that section; no section is added, removed or renamed |
| Config.EntryValueSameKey | modules/settings.py:147-148 | reading a key depends only on its lower-cased form |
| Config.SetEntrySameKey | modules/settings.py:189-192 | writing a key depends only on its lower-cased form |
| Config.SetOptionSameKey | modules/settings.py:189-192 | `set` with two spellings of an option that lower-case alike has the same effect |
| Config.EntryValueAt | modules/settings.py:146-148 | in a configparser dictionary the entry matching `o` case-insensitively is what `o` reads |
| Config.EntryValueMissing | modules/settings.py:146-150 | a key matching no entry case-insensitively reads nothing |
| Config.SetEntryDict | modules/settings.py:192 | `set` keeps a dictionary's keys distinct and lower-case |
| Config.FindAt | modules/settings.py:144-148 | in a well-formed store, `get` with a listed section name addresses that very section |
| Config.SetOptionGet | modules/settings.py:192 | after `set(n, o, v)` on a named section, `get(n, o2)` is `v` for every spelling `o2` of `o`, and every other key reads as before |
| Config.SetOptionOwn | modules/settings.py:192 | `set` on a named section changes that section's own value for every spelling of `o`, and no other |
| Config.SetDefaultsGet | modules/settings.py:192 | after `set('', o, v)`, every section and `DEFAULT` read `v` for every spelling of `o` unless they hold `o` themselves; every other key reads as before |
| Config.AddSectionGet | modules/settings.py:178 | a new section reads only the defaults; every other section reads as before |
| Config.AddSectionOwn | modules/settings.py:178 | `add_section` changes no section's own values |
| Config.SetOptionWellFormed | modules/settings.py:192 | `set` keeps the store well-formed |
| Config.AddSectionWellFormed | modules/settings.py:177-179 | adding a section that is absent and not `DEFAULT` keeps the store well-formed |
| Lookups.SectionValue | modules/settings.py:146-148 | the inner scan of `options()` followed by `get` on the key it stops at answers exactly what `get(section, optie)` answers |
| Lookups.OptionsListed | modules/settings.py:146-148 | a key the scan of `options()` finds is one `get` can read |
| Lookups.SectionValueAt | modules/settings.py:146-148 | in a well-formed store, the scan over `options(n)` finding key `j` means `get(n, j)` is the section's answer, and finding nothing means the section has none |
| Lookups.FirstValue | modules/settings.py:144-148 | the search over matching sections finds nothing exactly when `get` finds the option in no section whose name matches |
| Lookups.Lookup | modules/settings.py:144-150 | `haalOp` returns `standaard` when no matching section answers, and returns no `None` unless `standaard` is `None` |
| Lookups.GetAt | modules/settings.py:148 | `get` on the name of section `i` reads that section and the defaults |
| Lookups.LookupDefault | modules/settings.py:144-150 | `haalOp` returns `standaard` when `get` finds the option in no matching section |
| Lookups.FirstValueAt | modules/settings.py:144-148 | the first matching section where `get` finds the option answers the search |
| Lookups.LookupFirst | modules/settings.py:144-148 | `haalOp` returns what `get` gives in the first matching section that answers, also when that is a later matching section or the value is inherited from the defaults |
| Lookups.LookupExact | modules/settings.py:144-150 | when the only section matching the name is `n`, `haalOp` is `get(n, o)`, or `standaard` where `get` finds nothing |
| Lookups.FirstValueFrom | modules/settings.py:144-148 | the search from section `i` on is answered by section `i` or goes on from `i + 1` |
| Lookups.FirstValueReplace | modules/settings.py:144-148 | replacing a section by one that reads the same for the key leaves the search unchanged |
| Lookups.FirstValueAppend | modules/settings.py:144-150 | a section appended at the end is consulted only when nothing before it answered |
| Lookups.FirstValueDefaults | modules/settings.py:146-148 | defaults that read the same for `o` give the same search for `o` |
| Lookups.FirstValueInherited | modules/settings.py:144-148 | when the defaults hold `o`, every section answers, so the first matching section decides |
| Updates.Refused | modules/settings.py:177-178 | `stelIn` gives up only when no section matches and the name is `DEFAULT`, which `add_section` rejects |
| Updates.OptionToUse | modules/settings.py:182-189 | the option name passed to `set` lower-cases like `optie`, and is `optie` or a key of `options()` |
| Updates.Update | modules/settings.py:164-192 | a refused `stelIn` changes nothing; otherwise `sections()` is unchanged or gains exactly the name `sectie` at the end, the latter exactly when `add_section` is called |
| Updates.UpdateFound | modules/settings.py:170-192 | when the scan stops at section `i`, `stelIn` is `set` on that section with `optie` as spelt |
| Updates.UpdateAdded | modules/settings.py:176-192 | when no section matches and the name is accepted, `stelIn` is `add_section(sectie)` then `set` on it |
| Updates.SetEntryOverwrites | modules/settings.py:181-192 | on a configparser dictionary, `set` overwrites the first key matching `o` in place or appends `o.lower()` |
| Updates.UpdateExisting | modules/settings.py:170-192 | when a section matches, the first one is written through: a named section has its option overwritten in place or appended and nothing else changes; a section named `""` leaves every section alone and writes the defaults |
| Updates.UpdateNewNamed | modules/settings.py:176-192 | a new section with a non-empty name holds just the option, under its lower-cased name |
| Updates.UpdateNewEmpty | modules/settings.py:176-192 | a new section `""` stays empty and the option is written into the defaults |
| Updates.UpdateNew | modules/settings.py:176-192 | when no section matches and the name is accepted, exactly one section spelt `sectie` is appended; it holds just the option, or for `""` stays empty while the option goes into the defaults |
| Updates.UpdateWellFormed | modules/settings.py:155-196 | `stelIn` keeps the store well-formed |
| Updates.UpdateSlot | modules/settings.py:170-192 | after an accepted `stelIn`, the section written through is the first one matching `sectie`, and `get` there gives `waarde` for every spelling of `optie` |
| Updates.UpdateMakesSection | modules/settings.py:176-179 | after an accepted `stelIn(s, ...)`, a section matching `s` exists, so a later `stelIn(s, ...)` adds none |
| Updates.LookupAfterUpdate | modules/settings.py:155-192 | after an accepted `stelIn(s, o, v)`, `haalOp(s2, o2)` gives `v` for every `s2`, `o2` that lower-case like `s`, `o` |
| Updates.LookupUnrelatedExisting | modules/settings.py:170-192 | writing through an existing section leaves the search for every unrelated key pair unchanged |
| Updates.LookupUnrelatedNewEmpty | modules/settings.py:176-192 | adding the section `""` changes `haalOp` only for names matching `""`, which then read the defaults |
| Updates.FirstValueNewSection | modules/settings.py:144-150 | a section appended under a new name, holding one option, answers only names matching it, and for other keys from the defaults |
| Updates.LookupNewSection | modules/settings.py:144-150 | `haalOp` on a store with such a section appended is the old answer, or the defaults' value for names matching the new section |
| Updates.LookupUnrelatedNewNamed | modules/settings.py:176-192 | adding a named section changes `haalOp` of unrelated keys only for names matching it, which read the defaults |
| Updates.LookupUnrelated | modules/settings.py:155-192 | `stelIn(s, o, v)` leaves `haalOp` unchanged for every key pair not matching `(s, o)`, except that a section it adds is found by names matching it and inherits the defaults; for `s == ""` this holds for every key not matching `o` |
| Updates.LookupThroughDefaults | modules/settings.py:155-192 | after `stelIn('', o, v)`, `haalOp` of any spelling of `o` in any existing section gives `v` unless that section holds `o` itself; only the section `''` goes from missing to `v` |
| Bootstrapping.SchemaEntry | modules/settings.py:120-121 | a schema section gives no default for `o` exactly when none of its options lower-cases like `o` |
| Bootstrapping.SchemaValue | modules/settings.py:116-121 | the schema gives a default only for sections it names |
| Bootstrapping.EnsureSection | modules/settings.py:117-118 | afterwards the section exists; `sections()` gains its name exactly when `has_section` was false; earlier sections and the defaults are kept |
| Bootstrapping.SetAll | modules/settings.py:120-121 | setting the options of one section keeps the sections' count and names, changes no other section, and leaves the defaults alone |
| Bootstrapping.SetAllStep | modules/settings.py:120-121 | one more iteration of the inner loop is one more `set` |
| Bootstrapping.ApplySchemaStep | modules/settings.py:116-121 | one more iteration of the outer loop is one more schema section laid over the store |
| Bootstrapping.SchemaEntryAppend | modules/settings.py:120-121 | a schema option added at the end gives a default only for keys the earlier options did not match |
| Bootstrapping.SchemaEntryLast | modules/settings.py:120-121 | with distinct keys, the last schema option decides its own key and the others decide the rest |
| Bootstrapping.SetAllOwn | modules/settings.py:120-121 | setting a section's schema options makes every spelling of each read its default, and leaves every other own value unchanged |
| Bootstrapping.SetAllWellFormed | modules/settings.py:120-121 | setting options keeps the store well-formed |
| Bootstrapping.ApplySectionShape | modules/settings.py:117-121 | one schema section keeps the store well-formed, keeps existing names and positions, and leaves other sections and the defaults untouched |
| Bootstrapping.ApplySectionHas | modules/settings.py:117-118 | after one schema section the store has exactly the old sections plus that one |
| Bootstrapping.ApplySectionOwn | modules/settings.py:117-121 | after one schema section, its defaults are laid over what that section held, for every spelling of each option |
| Bootstrapping.PrefixOk | modules/settings.py:116 | every prefix of a valid schema is valid, and its names are the prefix's names |
| Bootstrapping.SchemaValueAppend | modules/settings.py:116-121 | a schema section added at the end gives defaults only for its own name |
| Bootstrapping.OverlaidShapeStep | modules/settings.py:116-121 | the outer loop keeps the store's shape invariant for one more section |
| Bootstrapping.OverlaidSectionsStep | modules/settings.py:116-118 | one more schema section adds just its own name |
| Bootstrapping.OverlaidValuesStep | modules/settings.py:116-121 | one more schema section lays its options over the store |
| Bootstrapping.ApplySchemaFacts | modules/settings.py:116-121 | laying a valid schema over a well-formed store keeps it well-formed, keeps every existing section's name and position, leaves sections outside the schema and the defaults untouched, adds exactly the schema sections that were missing, and makes every spelling of each schema option read its default while every other own value is unchanged |
| Bootstrapping.Lowered | modules/settings.py:120-121 | a schema section's options as `set` stores them: same values, lower-cased names |
| Bootstrapping.LowerKeys | modules/settings.py:116-121 | the schema as `set` stores it: same sections, lower-cased option names |
| Bootstrapping.LastSection | modules/settings.py:117-121 | a section under a name no earlier section has is found at the end |
| Bootstrapping.SetOptionLast | modules/settings.py:121 | `set` on the last section appends to or overwrites only its dictionary |
| Bootstrapping.LoweredLast | modules/settings.py:120-121 | setting the last of a schema section's distinct options after the others appends it, lower-cased |
| Bootstrapping.SetAllFresh | modules/settings.py:117-121 | on a section just added, setting the options gives exactly those options with lower-cased names |
| Bootstrapping.ApplySectionFresh | modules/settings.py:117-121 | a schema section laid over a store without it appends exactly that section, lower-cased |
| Bootstrapping.LowerKeysLast | modules/settings.py:116-121 | the schema as `set` stores it, one section more at a time, with the section names kept |
| Bootstrapping.ApplySchemaEmpty | modules/settings.py:112-121 | bootstrapping an empty store gives exactly the schema, option names lower-cased, and no defaults |
| Bootstrapping.DefaultsOk | modules/settings.py:93-101 | the default schema has distinct section names, none of them `DEFAULT` or `''`, and no two options that lower-case alike |
| Bootstrapping.DefaultsValue | modules/settings.py:93-101 | the schema names just `Algemeen` and `Interface`, with `LaatsteBestand = ''`, `OnthoudBestand = 'False'` and `ToonTooltips = 'True'` |
| Bootstrapping.BootstrapDefaults | modules/settings.py:93-121 | after `_maakStandaardInstellingen` on any well-formed store, both default sections exist and `get` reads the three defaults whatever the store held under any spelling; existing sections keep their names and positions, sections outside the schema and the defaults are untouched, and no other section appears |
| Bootstrapping.SchemaNamesDiffer | modules/settings.py:94-98 | `Algemeen` and `Interface` differ whatever their casing |
| Bootstrapping.SchemaSpellings | modules/settings.py:116-118 | bootstrapping adds no new spelling of a schema section name |
| Bootstrapping.BootstrapLookup | modules/settings.py:93-150 | when the store spells `Algemeen` and `Interface` only exactly, `haalOp` of the three default options reads their defaults after bootstrapping |
| Bootstrapping.DefaultKeys | modules/settings.py:95-99 | the keys `set` stores the schema's options under are `laatstebestand`, `onthoudbestand` and `toontooltips` |
| Bootstrapping.LowerDefaults | modules/settings.py:93-101 | the fixed schema as `set` stores it |
| Bootstrapping.BootstrapFromNothing | modules/settings.py:104-112 | with no file, the store becomes exactly the default schema with lower-cased option names |
| Paths.MaakRelatiefPad | modules/settings.py:9-31 | a relative path comes back unchanged; otherwise the result is what `relpath` gives, or the input when `relpath` raises |
| Paths.MaakAbsoluutPad | modules/settings.py:33-54 | an absolute path comes back unchanged; otherwise the result is what `abspath` gives, or the input when `abspath` raises |
| Paths.PathRoundTrip | modules/settings.py:9-54 | while the working directory stays the same, an absolute path made relative is not empty and resolves back to the path itself |
| Accessors.LastFile | modules/settings.py:206-216 | `''` unless `OnthoudBestand` reads exactly `'True'`; then the `LaatsteBestand` value, or `''` when it is absent |
| Accessors.AbsolutePath | modules/settings.py:238-253 | `standaard` unless `haalOp` returns a non-empty path; then that path when it is absolute, what `abspath` resolves it to when that succeeds, and the path itself when `abspath` raises |
| Accessors.DefaultOptionsDiffer | modules/settings.py:213-236 | `OnthoudBestand` and `LaatsteBestand` never match each other, and `Algemeen` is not `DEFAULT` |
| Accessors.LastFileForgotten | modules/settings.py:213-236 | after `stelOnthoudBestandIn(False)`, `haalLaatsteBestand()` is `''` |
| Accessors.LastFileRemembered | modules/settings.py:213-236 | after `stelOnthoudBestandIn(True)` and storing `p` as `LaatsteBestand`, `haalLaatsteBestand()` is `p` |
| Accessors.LastFileAfterBootstrap | modules/settings.py:104-216 | after bootstrapping a store that spells `Algemeen` and `Interface` only exactly, for instance one a failed parse left with `onthoudbestand = True` and a `laatstebestand` of its own, `haalLaatsteBestand()` is `''` |
| Accessors.AbsolutePathMissing | modules/settings.py:248-253 | with the option absent, `haalAbsoluutPad` resolves a truthy default and returns a falsy one unchanged |
| Accessors.AbsolutePathFound | modules/settings.py:248-253 | with the option found, `haalAbsoluutPad` resolves a non-empty value and returns `standaard` for an empty one |
| Accessors.LastFileRoundTrip | modules/settings.py:218-253 | storing an absolute `p` with `stelLaatsteBestandIn` and reading it with `haalAbsoluutPad` gives `p` back while the working directory stays the same |
| Settings.Zoek | modules/settings.py:170-174 | the `for ... if ....lower() == ...: break` loop finds exactly the first case-insensitive match |
| Settings.ZetOpties | modules/settings.py:120-121 | the inner loop of `_maakStandaardInstellingen` sets the schema section's options in order |
| Settings.LegOver | modules/settings.py:116-121 | the outer loop lays the whole schema over the store, adding each missing section first |
| Settings.Instellingen.constructor | modules/settings.py:82-112 | a parsed file is taken as it is; a missing file gives exactly the defaults with lower-cased option names; a read error lays the defaults over what was read; the store is well-formed; after a successful read the snapshot is the file just read, and in the other two branches the bootstrapped store is written out |
| Settings.Instellingen.MaakStandaardInstellingen | modules/settings.py:114-124 | the nested loops leave the store equal to the schema laid over the old store, still well-formed, and saved |
| Settings.Instellingen.HaalOp | modules/settings.py:126-153 | the nested loops with early return give the `haalOp` answer |
| Settings.Instellingen.StelIn | modules/settings.py:155-196 | the store becomes the `stelIn` result and stays well-formed; it is saved unless `add_section` refused the name, in which case nothing changes or is written |
| Settings.Instellingen.SlaOp | modules/settings.py:198-204 | the persisted snapshot equals the store |
| Settings.Instellingen.HaalLaatsteBestand | modules/settings.py:206-216 | returns `haalLaatsteBestand`'s answer on the current store |
| Settings.Instellingen.StelLaatsteBestandIn | modules/settings.py:218-227 | stores the relative form of the path under `Algemeen.LaatsteBestand` and saves |
| Settings.Instellingen.StelOnthoudBestandIn | modules/settings.py:229-236 | stores `str(onthoud)` under `Algemeen.OnthoudBestand` and saves |
| Settings.Instellingen.HaalAbsoluutPad | modules/settings.py:238-253 | returns `haalAbsoluutPad`'s answer on the current store |

`Bootstrapping.ApplySection` and `Bootstrapping.ApplySchema` are the
outer loop of `_maakStandaardInstellingen` as functions, and
`Bootstrapping.MakeDefaults` is that loop with the fixed schema of lines
93-101 (stated by `BootstrapDefaults`, `BootstrapLookup` and
`BootstrapFromNothing`). Their properties
are stated by `ApplySectionShape`, `ApplySectionHas`, `ApplySectionOwn`
and `ApplySchemaFacts`.

## Left out

- File I/O: `open`/`write` in `slaOp`, `config.read` and `os.path.exists`
  in `__init__`. The file is the ghost snapshot `persisted`. What reading
  gave is the constructor argument `LoadResult`. A write failure, which
  the source only logs, is not modelled.
- The INI text format and configparser's parser. A loaded or partly parsed
  store is taken as given: well-formed, with any `[DEFAULT]` section of the
  file already in the defaults dictionary.
- `%` interpolation (`BasicInterpolation`): `set` rejects a value with a
  stray `%` (`ValueError`, which `stelIn` only logs), and `get` expands
  `%(name)s` references and can raise `InterpolationError`, after which
  `haalOp` returns `standaard`. The model stores and returns values
  verbatim, so `LookupAfterUpdate` and the other read-after-write lemmas
  hold for values without `%`.
- Logging (`logInfo`/`logFout`) and every `except` branch other than the
  two that change results. A `ValueError` from `add_section('DEFAULT')`
  leaves `stelIn` without effect (`Refused`). An error in
  `relpath`/`abspath` returns the input path.
- Keys.Lower: folds only the ASCII letters `A`-`Z`, while Python's
  `str.lower` follows the Unicode case tables.
- `os.path.isabs`, `os.path.relpath(pad, os.getcwd())` and
  `os.path.abspath`: these are the functions in `PathEnv`, so the
  platform's rules are parameters. Their results are not modelled beyond
  `RoundTrips`, the round-trip assumption about the working directory.
- `zorg_voor_directory` (lines 56-77): it only creates directories.
- The module-level singleton `instellingen = Instellingen()` (line 256),
  which does I/O at import time.
- Settings.Instellingen.StelIn: `waarde` is taken as already converted by
  `str(...)`.
- Settings.Instellingen.StelOnthoudBestandIn: `onthoud` is a `bool`, so
  `str(onthoud)` is `'True'` or `'False'`.
- Settings.Instellingen.MaakStandaardInstellingen: the schema is required
  to have distinct section names, none of them `''` or `DEFAULT`, and
  options that do not lower-case alike. The fixed schema of lines 93-101
  meets this.
- The configuration file name is kept as the constant `configBestand`. It
  is never opened.
