# virt-manager capability, sysinfo and build-config model

A Dafny model of three pieces of virt-manager's core, with proofs of what their code promises.

- **Domain capabilities** (`domcaps.dfy`, module `DomCapabilities`). This models the parsed
  `<domainCapabilities>` document libvirt reports: its `<os>/<loader>`, `<devices>` and `<features>`
  caps blocks, with their values and enums. It also models the lookups on a block (`get_values`,
  `enum_names`, `get_enum`), the UEFI heuristics over the fixed table of firmware path patterns
  (`arch_can_uefi`, `find_uefi_path_for_arch`, `label_for_firmware_path`, `supports_uefi_xml`),
  and `build_from_params`, which falls back to a stub object when the connection cannot supply
  the document.
- **Domain sysinfo** (`sysinfo.dfy`, module `Sysinfo`). The `<sysinfo>` SMBIOS record is a class
  whose state is its backing document, a map from document place to text. Its 18 properties are
  each bound to a distinct place. The setter runs the `bios_date` validator `_validate_date`,
  which is modelled with the exact field grammar of `strptime`'s `%m`, `%d`, `%Y` and `%y`
  and a Gregorian calendar check. Serialisation emits the set properties in `_XML_PROP_ORDER`.
- **Build configuration** (`cliconfig.dfy`, module `CliConfig`). This covers `_split_list`,
  `_get_param` over a parsed `cli.cfg` with its test-mode override, and the `int()` parse behind
  `stable_defaults`. The `_CLIConfig` object is a class: `__init__` reads the settings, and
  `set_paths_by_prefix` updates the five path fields, with POSIX `os.path.join` written out.

`wrappers.dfy` holds `Option` and `Result`. `text.dfy` holds Python's `str.split` and `join` on a
single character, and ASCII digit strings.

Regular expressions: every pattern in `_uefi_arch_patterns` is `.*A`, `.*A.*` or `.*A.*B`, with
`A` and `B` literal. Under `re.match`, which anchors only at the start and whose `.` stops at a
newline, `.*A` and `.*A.*` succeed exactly when `A` occurs in the string's first line. `.*A.*B`
succeeds exactly when `B` also occurs there, after that `A`. `DomCapabilities.Matches` decides
this by a leftmost search, and `MatchesIsRegexMatch` proves it equal to the existential
definition.

The libvirt connection is a value: a support flag and a function from query arguments to
"returned this text" or "raised". The XML parser is a function argument of `DocumentOf`.
The module-level probes of `cliconfig.py` (the parsed config file, `VIRTINST_TEST_SUITE`,
running from a source checkout, the checkout directory) are the fields of `CliConfig.BuildEnv`.

## Model

| member | source | states |
|---|---|---|
| DomCapabilities.GetValues | virtinst/domcapabilities.py:23-24 | one entry per `<value>` child, in document order, each that child's text |
| DomCapabilities.EnumNames | virtinst/domcapabilities.py:36-37 | one name per enum, in document order, the length equal to the number of enums |
| DomCapabilities.EnumDictLastWins | virtinst/domcapabilities.py:40 | the dict built from the enums has a key exactly for each name some enum carries, and maps it to the last enum of that name |
| DomCapabilities.GetEnum | virtinst/domcapabilities.py:39-41 | succeeds iff the name is among `enum_names()`; the result is then the last enum with that name; otherwise the error is `KeyError(name)` |
| DomCapabilities.LastNamedIsNamed | virtinst/domcapabilities.py:39-41 | a name that some enum carries last is among the enum names |
| DomCapabilities.SupportsUefiXml | virtinst/domcapabilities.py:144-149 | true iff the loader has a `readonly` enum and the last such enum has a value `yes`; the name test comes first, so the lookup cannot fail |
| DomCapabilities.FindFrom | virtinst/domcapabilities.py:117 | the leftmost position at or after `from` where the literal occurs, or none when it occurs nowhere from there |
| DomCapabilities.FirstLine | virtinst/domcapabilities.py:117 | the prefix of the string up to its first newline, which `.` in a pattern cannot cross |
| DomCapabilities.Matches | virtinst/domcapabilities.py:117 | `re.match(pattern, path)` for a table pattern, by leftmost search on the first line; `MatchesIsRegexMatch` proves it equal to what the pattern denotes |
| DomCapabilities.MatchesIsRegexMatch | virtinst/domcapabilities.py:93-105 | the computed match agrees exactly with the denotation: `.*A(.*)` iff A occurs on the first line; `.*A.*B` iff A occurs there with B somewhere after it |
| DomCapabilities.FirstMatchingPath | virtinst/domcapabilities.py:116-118 | no result iff no path matches the pattern; otherwise the first matching path in document order |
| DomCapabilities.SearchPatterns | virtinst/domcapabilities.py:115-118 | no result iff no (pattern, path) pair matches; otherwise a path matched by the earliest pattern that matches any path, and the first such path of that pattern |
| DomCapabilities.PatternsFor | virtinst/domcapabilities.py:93-105 | a pattern list exists exactly for `x86_64` and `aarch64`, and it is that architecture's row of the table |
| DomCapabilities.ArchCanUefi | virtinst/domcapabilities.py:138-142 | true iff the architecture is `x86_64` or `aarch64` |
| DomCapabilities.FindUefiPathForArch | virtinst/domcapabilities.py:107-118 | nothing when `arch_can_uefi` is false; a result is a loader value found by the pattern-major search; no result with UEFI support means no pattern of the architecture matches any loader value |
| DomCapabilities.FirstArchMatching | virtinst/domcapabilities.py:130-134 | no result iff no row of the table has a matching pattern; otherwise the first such row's architecture, every earlier row matching nothing |
| DomCapabilities.FirstArchOfTwo | virtinst/domcapabilities.py:130-134 | on the two-row table the x86_64 row is tried before the aarch64 row |
| DomCapabilities.LabelForFirmwarePath | virtinst/domcapabilities.py:120-136 | an absent or empty path gives `BIOS` on i686 and x86_64 and `None` elsewhere; an x86_64 match gives `UEFI x86_64: <path>`; otherwise an aarch64 match gives `UEFI aarch64: <path>`; otherwise `Custom: <path>` |
| DomCapabilities.BuildFromParams | virtinst/domcapabilities.py:68-83 | absorbs a missing, failed or empty query: the stub iff the connection lacks support, the query raises, or it returns empty text; otherwise parsed from exactly the returned, non-empty text |
| DomCapabilities.DocumentOf | virtinst/domcapabilities.py:79-83 | the stub for an unsupported result, otherwise the given parser applied to the returned text; `UnsupportedConnectionGivesStub` and `StubDefaults` state what follows |
| DomCapabilities.StubDefaults | virtinst/domcapabilities.py:80-82 | on the stub: no values, no enums, not supported, `get_enum` fails, no UEFI, no UEFI path, and the label of an empty path is `None` |
| DomCapabilities.UnsupportedConnectionGivesStub | virtinst/domcapabilities.py:71-82 | a connection without the call yields the stub whatever the query would have returned |
| DomCapabilities.X86PatternsTakePrecedence | virtinst/domcapabilities.py:93-105 | a path matching both `.*ovmf.*` and `.*aarch64.*` also matches an aarch64 pattern, yet is labelled `UEFI x86_64` |
| DomCapabilities.ContainsMatches | virtinst/domcapabilities.py:98 | a one-line path containing a literal matches that literal's `.*A.*` pattern |
| DomCapabilities.AarchOvmfPath | virtinst/domcapabilities.py:98-103 | one-line paths with `aarch64` before `ovmf`, such as `/usr/share/aarch64/ovmf.fd`, match both catch-all patterns |
| DomCapabilities.TestLoaderQueries | tests/capabilities.py:123-132 | on the test loader block: supported, values `/foo/bar` and `/tmp/my_path`, enums `type` and `readonly`, and `type` has `rom` and `pflash` |
| Sysinfo.TargetsDistinct | virtinst/domain/sysinfo.py:25-59 | every property is bound to its own document place (the place identifies the property), so no two properties share one |
| Sysinfo.PropOrderNamesResolve | virtinst/domain/sysinfo.py:18-23 | the resolved order names, position by position, the attributes written in `_XML_PROP_ORDER` |
| Sysinfo.PropOrderIsPermutation | virtinst/domain/sysinfo.py:18-59 | `_XML_PROP_ORDER` lists each of the 18 properties exactly once and nothing else, and the class body declares the same 18 |
| Sysinfo.BiosOrderDiffersFromDeclaration | virtinst/domain/sysinfo.py:18-19 | within bios the emit order is vendor, version, date, release, while the class body declares `bios_date` first |
| Sysinfo.RankGroupsSections | virtinst/domain/sysinfo.py:18-23 | a property earlier in `_XML_PROP_ORDER` belongs to the same or an earlier section (type, bios, system, baseBoard) |
| Sysinfo.EmitFromSpec | virtinst/domain/sysinfo.py:18-23 | walking the order from position k emits exactly the set properties of rank k or above, with their values, in strictly increasing rank |
| Sysinfo.SerializeDoc | virtinst/domain/sysinfo.py:17-23 | emits a node (property, text) iff the document holds that text for that property; in `_XML_PROP_ORDER`; section by section |
| Sysinfo.DomainSysinfo.Serialize | virtinst/domain/sysinfo.py:17-23 | the object renders its document as `SerializeDoc` specifies: the set properties with their texts, in `_XML_PROP_ORDER` |
| Sysinfo.SetOrderIrrelevant | virtinst/domain/sysinfo.py:18-59 | setting two different properties in either order gives the same document and the same serialisation |
| Sysinfo.Strptime | virtinst/domain/sysinfo.py:30-33 | `datetime.strptime` with `%m/%d/%Y` or `%m/%d/%y`; `StrptimeOfFields` shows it reads exactly the three `/`-separated fields, and `ValidateDateSpec` when they form a date |
| Sysinfo.StrptimeOfFields | virtinst/domain/sysinfo.py:30 | a string built from three `/`-free fields parses as exactly those three fields |
| Sysinfo.ValidateDate | virtinst/domain/sysinfo.py:27-37 | on success the value is the argument unchanged; on failure the message is `SMBios date string '<val>' is invalid.` |
| Sysinfo.MonthFieldSpec | virtinst/domain/sysinfo.py:30 | `%m` reads month m exactly from its two-digit form, or its bare digit for m below 10 |
| Sysinfo.DayFieldSpec | virtinst/domain/sysinfo.py:30 | `%d` reads day d exactly from its two-digit form, or its digit (bare or after a space) for d below 10 |
| Sysinfo.ValidateDateSpec | virtinst/domain/sysinfo.py:27-37 | a date string passes iff its fields spell a month, a day and a 4- or 2-digit year (00-68 as 20xx, 69-99 as 19xx) that make a real date in years 1-9999 |
| Sysinfo.ValidateDateShape | virtinst/domain/sysinfo.py:27-37 | a string that is not three `/`-separated fields is rejected |
| Sysinfo.DomainSysinfo.constructor | virtinst/domain/sysinfo.py:12-17 | a fresh object has an empty document |
| Sysinfo.DomainSysinfo.FromDocument | virtinst/domain/sysinfo.py:12-17 | an object over a parsed document holds exactly that document |
| Sysinfo.DomainSysinfo.Get | virtinst/domain/sysinfo.py:25-59 | a property read gives the text at the property's own place, or nothing; `Set` states how it changes and `TargetsDistinct` that no two properties share a place |
| Sysinfo.DomainSysinfo.Set | virtinst/domain/sysinfo.py:39-40 | fails iff the property is `bios_date` and the validator rejects the value, leaving the document unchanged; otherwise stores the value at the property's place; no other property changes |
| Sysinfo.LeapDayAccepted | virtinst/domain/sysinfo.py:30 | 02/29/2020 passes, and so does 02/29/00, read as 2000 |
| Sysinfo.LeapDayRejected | virtinst/domain/sysinfo.py:30-36 | 02/29/2019 is rejected |
| Sysinfo.CenturyLeapDayRejected | virtinst/domain/sysinfo.py:30-36 | 02/29/1900 is rejected |
| Sysinfo.TwoDigitLeapDayRejected | virtinst/domain/sysinfo.py:33-36 | 02/29/69 is rejected, because 69 reads as 1969 |
| Sysinfo.MonthEndRejected | virtinst/domain/sysinfo.py:30-36 | 02/30/2020 and 04/31/2020 are rejected |
| Text.Split | virtcli/cliconfig.py:35 | `str.split` on one character: at least one piece, and no piece holds the separator |
| Text.JoinSplit | virtcli/cliconfig.py:35 | joining the pieces of a split with the separator gives back the string |
| Text.SplitConcat | virtcli/cliconfig.py:35 | splitting at a separator gives the pieces before it followed by the pieces after it |
| Text.SplitJoin | virtcli/cliconfig.py:35 | separator-free pieces, joined and split again, are the same pieces |
| Text.DigitsValueZero | virtcli/cliconfig.py:74 | a digit string is worth zero iff every digit is `0` |
| CliConfig.DropEmpty | virtcli/cliconfig.py:35 | the result holds only pieces of the input, none of them empty, and is the input when no piece is empty |
| CliConfig.DropEmptyCounts | virtcli/cliconfig.py:35 | every non-empty piece is kept exactly as often as it occurs, and no empty piece is kept |
| CliConfig.DropEmptyConcat | virtcli/cliconfig.py:35 | dropping empty pieces keeps the order: it maps a concatenation to the concatenation of the results |
| CliConfig.SplitList | virtcli/cliconfig.py:34-35 | every item is a comma-separated piece of the input, not empty and without a comma; with `DropEmptyCounts`, each non-empty piece is an item as often as it occurs |
| CliConfig.SplitListConcat | virtcli/cliconfig.py:34-35 | the items of `a,b` are the items of `a` followed by the items of `b`, so the pieces keep their order |
| CliConfig.SplitListPiece | virtcli/cliconfig.py:34-35 | a comma-free string is one item, or none when it is empty |
| CliConfig.SplitListEmpty | virtcli/cliconfig.py:34-35 | `""` and `",,"` give no items |
| CliConfig.SplitListJoin | virtcli/cliconfig.py:34-35 | for a string with no empty segment, joining its items with commas gives back the string |
| CliConfig.JoinSplitList | virtcli/cliconfig.py:34-35 | non-empty, comma-free items joined with commas split back into the same items |
| CliConfig.SplitListDropsEmptyPieces | virtcli/cliconfig.py:35 | for any non-empty comma-free `a` and `b`, `a,,b,` gives `a` and `b` |
| CliConfig.ConfigGet | virtcli/cliconfig.py:42-43 | the option's value iff the section and the option exist; otherwise `NoOptionError` for an existing section, `NoSectionError` for a missing one |
| CliConfig.GetParam | virtcli/cliconfig.py:38-44 | in test mode the default; otherwise the `[config]` option if present, the default when the option or the section is missing |
| CliConfig.StripLeft | virtcli/cliconfig.py:74 | a suffix of the input without leading whitespace, everything dropped being whitespace |
| CliConfig.StripRight | virtcli/cliconfig.py:74 | a prefix of the input without trailing whitespace, everything dropped being whitespace |
| CliConfig.Strip | virtcli/cliconfig.py:74 | the text `int()` reads neither starts nor ends with the whitespace it ignores |
| CliConfig.StripSpec | virtcli/cliconfig.py:74 | the stripped text sits in place in the input, everything before and after it is whitespace, and it neither starts nor ends with whitespace |
| CliConfig.ParseInt | virtcli/cliconfig.py:74 | `int()` succeeds iff the stripped text is an optionally signed digit string; the value is zero iff every digit is `0`, and negative only after a `-` |
| CliConfig.StableDefaults | virtcli/cliconfig.py:74 | defined iff `int()` accepts the text; then true iff some digit is not `0`, i.e. the number is not zero |
| CliConfig.StableDefaultsOff | virtcli/cliconfig.py:74 | the default `0` parses and gives false |
| CliConfig.PathJoin | virtcli/cliconfig.py:94-106 | POSIX `os.path.join`, part by part: an absolute part restarts the path, otherwise one `/` is added when needed; `PathJoinLayout` states its result for plain names |
| CliConfig.PathJoinLayout | virtcli/cliconfig.py:94 | joining plain names (non-empty, no `/`) onto a path puts them under it, separated by `/`, with one `/` added unless the path is empty or ends in one |
| CliConfig.LocaleDirLayout | virtcli/cliconfig.py:94 | below a prefix without a trailing `/`, the message catalogues are `<prefix>/share/locale` |
| CliConfig.UiDirLayout | virtcli/cliconfig.py:102 | below a prefix without a trailing `/`, the interface files are `<prefix>/share/virt-manager/ui` |
| CliConfig.IconDirLayout | virtcli/cliconfig.py:103-104 | below such a prefix, the icons are `<prefix>/share/virt-manager/icons` |
| CliConfig.SchemaDirLayout | virtcli/cliconfig.py:105-106 | below such a prefix, the settings schemas are `<prefix>/share/glib-2.0/schemas` |
| CliConfig.CLIConfig.SetPathsByPrefix | virtcli/cliconfig.py:92-106 | sets the prefix and `<p>/share/locale` on both branches; from a checkout, when asked to look, ui and icons below the checkout with the schema directory equal to the icon directory; otherwise the three directories below the prefix |
| CliConfig.CLIConfig.constructor | virtcli/cliconfig.py:68-90 | the config path and the version `1.5.0`; every setting read through `_get_param` with its default, the lists through `_split_list`, `stable_defaults` through `int()`; then the paths for the configured prefix (default `/usr`), looking for a checkout |
| CliConfig.SettingsWithoutConfig | virtcli/cliconfig.py:73-82 | with no `[config]` section, or in test mode, the settings are `root`, not stable, no lists and `spice`, and the prefix is `/usr` |

## Left out

- The XML binding layer (`XMLBuilder`, `XMLProperty`, `XMLChildProperty`) is not part of this
  model. Documents are datatypes, or a map from place to text, and the path expressions are a
  fixed mapping from property to place.
- XML text, parsing and rendering. A parsed document is an input, and the parser is a function
  argument. Serialisation yields the ordered (property, text) nodes, not XML text.
- DomCapabilities.BuildFromParams: the parse of the returned text, which raises on malformed XML,
  is the parser argument of `DocumentOf`, so that error is not modelled.
- The libvirt calls `check_support` and `getDomainCapabilities` are a flag and a function in
  `Connection`. `logging.debug` on a failed query is left out.
- `build_from_guest` is left out: it only forwards the guest's emulator, arch, machine and type.
- Gettext `_()` is the identity.
- The general `re.match` engine is left out. Only the fixed patterns of the table are modelled,
  by their substring meaning.
- A `<value>` without text and an `<enum>` without a name read as `None` in the source. Here they
  are strings. A missing `supported` attribute is `false` here and `None` in the source.
- Dictionary order in `label_for_firmware_path`: this follows Python 3.7+ insertion order, so
  x86_64 is tried first. Older interpreters did not promise that order.
- `datetime.strptime` is written out for the two formats used. Its `\d` also accepts non-ASCII
  Unicode digits, and the model accepts ASCII digits only.
- `int()` is modelled for ASCII whitespace (space, tab, newline, carriage return, vertical tab, form feed), an optional sign and ASCII digits. Underscores between
  digits and non-ASCII digits and spaces, all of which `int()` also accepts, are left out.
- `ConfigParser` behaviour beyond section and option lookup is left out: option-name lowercasing,
  the `DEFAULT` section and interpolation.
- The module-level side effects of `cliconfig.py` are left out: the Python version check with
  `sys.exit`, reading `cli.cfg`, and the environment and filesystem probes. Their results are the
  fields of `BuildEnv`.
- CliConfig.CLIConfig.SetPathsByPrefix: does not run `_setup_gsettings_path`. That function runs
  `glib-compile-schemas` as a subprocess and can raise on the checkout branch.
- CliConfig.CLIConfig.constructor: requires that `int()` accepts the `stable_defaults` setting.
  Otherwise the source raises `ValueError` while importing the module, and no object exists.
- CliConfig.CLIConfig: the settings that only `__init__` assigns are immutable fields. Only the
  prefix and the four directories, which `set_paths_by_prefix` rewrites, are mutable.
- Sysinfo.DomainSysinfo.Set: assigning `None`, which removes the node, is left out. So is the
  clean-up of an emptied section.
