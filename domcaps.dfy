/**
 * The domain-capabilities query layer: a parsed libvirt `<domainCapabilities>`
 * document, the lookups made on its caps blocks, the UEFI firmware
 * heuristics over a fixed table of path patterns, and the factory that falls
 * back to a stub object when the connection cannot supply the document.
 */
module DomCapabilities {
  import opened Wrappers

  /** A `<value>` element, by its text. */
  datatype Value = Value(text: string)

  /** An `<enum name='...'>` element with its `<value>` children in document order. */
  datatype Enum = Enum(name: string, values: seq<Value>)

  /**
   * A caps block (`<os>`, `<loader>`, `<devices>`, `<disk>`, ...): its
   * `supported='yes'` flag, its own `<value>` children and its `<enum>` children.
   */
  datatype CapsBlock = CapsBlock(supported: bool, values: seq<Value>, enums: seq<Enum>)

  /** `<os>` with its single `<loader>` block. */
  datatype OsBlock = OsBlock(caps: CapsBlock, loader: CapsBlock)

  /** `<devices>` with its single `<hostdev>` and `<disk>` blocks. */
  datatype DevicesBlock = DevicesBlock(caps: CapsBlock, hostdev: CapsBlock, disk: CapsBlock)

  /** `<features>` with its single `<gic>` block. */
  datatype FeaturesBlock = FeaturesBlock(caps: CapsBlock, gic: CapsBlock)

  /** The whole document; `arch` is the text of `<arch>`, absent in a stub. */
  datatype DomainCapabilities = DomainCapabilities(
    arch: Option<string>,
    os: OsBlock,
    devices: DevicesBlock,
    features: FeaturesBlock)

  /** A block with no node behind it: every read gives its default. */
  const EmptyBlock := CapsBlock(false, [], [])

  /** The object built with no XML at all. */
  const Stub := DomainCapabilities(
    None,
    OsBlock(EmptyBlock, EmptyBlock),
    DevicesBlock(EmptyBlock, EmptyBlock, EmptyBlock),
    FeaturesBlock(EmptyBlock, EmptyBlock))

  // ---------------------------------------------------------------------------
  // Values and enums

  /** `get_values()`: the text of every `<value>` child, one per child, in document order. */
  function GetValues(values: seq<Value>): (r: seq<string>)
    ensures |r| == |values|
    ensures forall i :: 0 <= i < |values| ==> r[i] == values[i].text
  {
    if values == [] then [] else [values[0].text] + GetValues(values[1..])
  }

  /** `enum_names()`: the name of every enum, one per enum, in document order. */
  function EnumNames(enums: seq<Enum>): (r: seq<string>)
    ensures |r| == |enums|
    ensures forall i :: 0 <= i < |enums| ==> r[i] == enums[i].name
  {
    if enums == [] then [] else [enums[0].name] + EnumNames(enums[1..])
  }

  /**
   * `dict((e.name, e) for e in enums)`: the enums are inserted in document
   * order, so a later enum replaces an earlier one of the same name.
   */
  function EnumDict(enums: seq<Enum>): map<string, Enum>
  {
    if enums == [] then map[]
    else EnumDict(enums[..|enums| - 1])[enums[|enums| - 1].name := enums[|enums| - 1]]
  }

  /** `enums[i]` carries `name` and no later enum does. */
  ghost predicate IsLastNamed(enums: seq<Enum>, name: string, i: int)
  {
    0 <= i < |enums| && enums[i].name == name &&
    forall j :: i < j < |enums| ==> enums[j].name != name
  }

  /** The dictionary has a key for each enum name, bound to the last enum of that name. */
  lemma {:induction false} EnumDictLastWins(enums: seq<Enum>, name: string)
    ensures name in EnumDict(enums) <==> exists i :: 0 <= i < |enums| && enums[i].name == name
    ensures name in EnumDict(enums) ==>
      exists i :: IsLastNamed(enums, name, i) && EnumDict(enums)[name] == enums[i]
  {
    if enums != [] {
      var n := |enums| - 1;
      var init := enums[..n];
      EnumDictLastWins(init, name);
      assert forall i :: 0 <= i < n ==> init[i] == enums[i];
      if enums[n].name == name {
        assert IsLastNamed(enums, name, n);
      } else if name in EnumDict(init) {
        var i :| IsLastNamed(init, name, i) && EnumDict(init)[name] == init[i];
        assert IsLastNamed(enums, name, i);
      }
    }
  }

  /** The `KeyError` raised by `get_enum` for a name no enum carries. */
  datatype LookupError = KeyError(key: string)

  /**
   * `get_enum(name)`: the last enum named `name` in document order, or a
   * `KeyError` exactly when no enum carries that name.
   */
  function GetEnum(block: CapsBlock, name: string): (r: Result<Enum, LookupError>)
    ensures r.Ok? <==> name in EnumNames(block.enums)
    ensures r.Ok? ==> exists i :: IsLastNamed(block.enums, name, i) && r.value == block.enums[i]
    ensures r.Err? ==> r.error == KeyError(name)
  {
    EnumDictLastWins(block.enums, name);
    var names := EnumNames(block.enums);
    assert name in names <==> exists i :: 0 <= i < |block.enums| && block.enums[i].name == name by {
      if name in names {
        var i :| 0 <= i < |names| && names[i] == name;
        assert block.enums[i].name == name;
      }
      if exists i :: 0 <= i < |block.enums| && block.enums[i].name == name {
        var i :| 0 <= i < |block.enums| && block.enums[i].name == name;
        assert names[i] == name;
      }
    }
    var d := EnumDict(block.enums);
    if name in d then Ok(d[name]) else Err(KeyError(name))
  }

  /**
   * `supports_uefi_xml()`: the loader has a `readonly` enum and the one
   * `get_enum` picks (the last) lists `yes`. The name test comes first, so the
   * lookup never fails.
   */
  function SupportsUefiXml(caps: DomainCapabilities): (r: bool)
    ensures r <==> exists i, k ::
      IsLastNamed(caps.os.loader.enums, "readonly", i) &&
      0 <= k < |caps.os.loader.enums[i].values| &&
      caps.os.loader.enums[i].values[k].text == "yes"
  {
    var loader := caps.os.loader;
    LastNamedIsNamed(loader.enums, "readonly");
    if "readonly" in EnumNames(loader.enums) then
      var e := GetEnum(loader, "readonly").value;
      var vs := GetValues(e.values);
      assert "yes" in vs <==> exists k :: 0 <= k < |e.values| && e.values[k].text == "yes" by {
        if "yes" in vs {
          var k :| 0 <= k < |vs| && vs[k] == "yes";
          assert e.values[k].text == "yes";
        }
      }
      LastNamedUnique(loader.enums, "readonly");
      "yes" in vs
    else
      false
  }

  /** A name that some enum carries last is among the enum names. */
  lemma LastNamedIsNamed(enums: seq<Enum>, name: string)
    ensures (exists i :: IsLastNamed(enums, name, i)) ==> name in EnumNames(enums)
  {
    if exists i :: IsLastNamed(enums, name, i) {
      var i :| IsLastNamed(enums, name, i);
      assert EnumNames(enums)[i] == name;
    }
  }

  /** At most one index is the last one carrying a name. */
  lemma LastNamedUnique(enums: seq<Enum>, name: string)
    ensures forall i, j :: IsLastNamed(enums, name, i) && IsLastNamed(enums, name, j) ==> i == j
  {
  }

  // ---------------------------------------------------------------------------
  // UEFI path patterns

  /**
   * A pattern of `_uefi_arch_patterns`, as `re.match` reads it. `.*A` and
   * `.*A.*` match when the literal A occurs in the string's first line
   * (`re.match` anchors only at the start, and `.` does not match a newline);
   * `.*A.*B` matches when A occurs there and B occurs later on that line.
   */
  datatype Pattern = Contains(lit: string) | ContainsThen(first: string, second: string)

  /** The UEFI patterns, per architecture, in the order the table lists them. */
  const UefiArchPatterns: seq<(string, seq<Pattern>)> := [
    ("x86_64", [
      Contains("OVMF_CODE.fd"),                  // .*OVMF_CODE\.fd
      ContainsThen("ovmf-x64/OVMF", ".fd"),      // .*ovmf-x64/OVMF.*\.fd
      Contains("ovmf-x86_64-"),                  // .*ovmf-x86_64-.*
      Contains("ovmf"),                          // .*ovmf.*
      Contains("OVMF")                           // .*OVMF.*
    ]),
    ("aarch64", [
      Contains("AAVMF_CODE.fd"),                 // .*AAVMF_CODE\.fd
      Contains("aarch64/QEMU_EFI"),              // .*aarch64/QEMU_EFI.*
      Contains("aarch64")                        // .*aarch64.*
    ])
  ]

  /** A string without a newline is its own first line. */
  lemma {:induction false} FirstLineOfLine(s: string)
    requires '\n' !in s
    ensures FirstLine(s) == s
  {
    if s != [] {
      FirstLineOfLine(s[1..]);
      assert s == [s[0]] + s[1..];
    }
  }

  /** The part of `s` before its first newline. */
  function FirstLine(s: string): (r: string)
    ensures r <= s
    ensures '\n' !in r
    ensures |r| < |s| ==> s[|r|] == '\n'
  {
    if s == [] || s[0] == '\n' then [] else [s[0]] + FirstLine(s[1..])
  }

  /** The literal `lit` occurs in `s` at position `k`. */
  ghost predicate OccursAt(s: string, lit: string, k: int)
  {
    0 <= k && k + |lit| <= |s| && s[k..k + |lit|] == lit
  }

  /** The leftmost occurrence of `lit` in `s` at or after `from`. */
  function FindFrom(s: string, lit: string, from: nat): (r: Option<nat>)
    ensures r.Some? ==> from <= r.value && OccursAt(s, lit, r.value)
    ensures r.Some? ==> forall k :: from <= k < r.value ==> !OccursAt(s, lit, k)
    ensures r.None? ==> forall k :: from <= k ==> !OccursAt(s, lit, k)
    decreases |s| - from
  {
    if from + |lit| > |s| then None
    else if s[from..from + |lit|] == lit then Some(from)
    else FindFrom(s, lit, from + 1)
  }

  /** `re.match(pattern, path)` succeeds, computed by leftmost search. */
  function Matches(p: Pattern, path: string): bool
  {
    var line := FirstLine(path);
    match p
    case Contains(a) => FindFrom(line, a, 0).Some?
    case ContainsThen(a, b) =>
      match FindFrom(line, a, 0)
      case None => false
      case Some(k) => FindFrom(line, b, k + |a|).Some?
  }

  /** What the regular expressions denote: the literals occur, in order, in the first line. */
  ghost predicate RegexDenotes(p: Pattern, path: string)
  {
    var line := FirstLine(path);
    match p
    case Contains(a) => exists k :: OccursAt(line, a, k)
    case ContainsThen(a, b) =>
      exists k, j :: OccursAt(line, a, k) && k + |a| <= j && OccursAt(line, b, j)
  }

  /** The leftmost search decides exactly the regular-expression semantics. */
  lemma MatchesIsRegexMatch(p: Pattern, path: string)
    ensures Matches(p, path) <==> RegexDenotes(p, path)
  {
    var line := FirstLine(path);
    match p
    case Contains(a) =>
    case ContainsThen(a, b) =>
      if RegexDenotes(p, path) {
        var k, j :| OccursAt(line, a, k) && k + |a| <= j && OccursAt(line, b, j);
        var k0 := FindFrom(line, a, 0).value;
        assert k0 <= k;
      }
  }

  /** The first path, in document order, that `p` matches. */
  function FirstMatchingPath(p: Pattern, paths: seq<string>): (r: Option<string>)
    ensures r.None? <==> forall i :: 0 <= i < |paths| ==> !Matches(p, paths[i])
    ensures r.Some? ==> exists i :: IsFirstMatch(p, paths, i) && paths[i] == r.value
  {
    if paths == [] then None
    else if Matches(p, paths[0]) then Some(paths[0])
    else
      var r := FirstMatchingPath(p, paths[1..]);
      assert forall i :: 1 <= i < |paths| ==> paths[i] == paths[1..][i - 1];
      if r.Some? then
        assert exists i :: IsFirstMatch(p, paths, i) && paths[i] == r.value by {
          var i :| IsFirstMatch(p, paths[1..], i) && paths[1..][i] == r.value;
          FirstMatchAfterMiss(p, paths, i);
        }
        r
      else
        r
  }

  /** `paths[i]` is the first path that `p` matches. */
  ghost predicate IsFirstMatch(p: Pattern, paths: seq<string>, i: int)
  {
    0 <= i < |paths| && Matches(p, paths[i]) && forall j :: 0 <= j < i ==> !Matches(p, paths[j])
  }

  /** Behind a path that does not match, the first match moves one place along. */
  lemma FirstMatchAfterMiss(p: Pattern, paths: seq<string>, i: int)
    requires paths != [] && !Matches(p, paths[0]) && IsFirstMatch(p, paths[1..], i)
    ensures IsFirstMatch(p, paths, i + 1) && paths[i + 1] == paths[1..][i]
  {
    forall j | 0 <= j < i + 1
      ensures !Matches(p, paths[j])
    {
      if j > 0 {
        assert paths[j] == paths[1..][j - 1];
      }
    }
  }

  /**
   * `paths[i]` is what the pattern-major search returns: `patterns[q]` is the
   * earliest pattern matching any path, and `paths[i]` the first path it matches.
   */
  ghost predicate IsPatternMajorFirst(patterns: seq<Pattern>, paths: seq<string>, q: int, i: int)
  {
    0 <= q < |patterns| && IsFirstMatch(patterns[q], paths, i) &&
    (forall q', j :: 0 <= q' < q && 0 <= j < |paths| ==> !Matches(patterns[q'], paths[j]))
  }

  /** Behind a pattern that matches no path, the pattern-major first match moves one pattern along. */
  lemma PatternMajorAfterMiss(patterns: seq<Pattern>, paths: seq<string>, q: int, i: int)
    requires patterns != [] && forall j :: 0 <= j < |paths| ==> !Matches(patterns[0], paths[j])
    requires IsPatternMajorFirst(patterns[1..], paths, q, i)
    ensures IsPatternMajorFirst(patterns, paths, q + 1, i)
  {
    assert patterns[q + 1] == patterns[1..][q];
    forall q', j | 0 <= q' < q + 1 && 0 <= j < |paths|
      ensures !Matches(patterns[q'], paths[j])
    {
      if q' > 0 {
        assert patterns[q'] == patterns[1..][q' - 1];
      }
    }
  }

  /** The nested loops `for pattern in patterns: for path in paths: if match: return path`. */
  function SearchPatterns(patterns: seq<Pattern>, paths: seq<string>): (r: Option<string>)
    ensures r.None? <==> forall q, i :: 0 <= q < |patterns| && 0 <= i < |paths| ==>
      !Matches(patterns[q], paths[i])
    ensures r.Some? ==> exists q, i :: IsPatternMajorFirst(patterns, paths, q, i) && paths[i] == r.value
  {
    if patterns == [] then None
    else match FirstMatchingPath(patterns[0], paths)
      case Some(path) =>
        assert exists i :: IsPatternMajorFirst(patterns, paths, 0, i) && paths[i] == path by {
          var i :| IsFirstMatch(patterns[0], paths, i) && paths[i] == path;
          assert IsPatternMajorFirst(patterns, paths, 0, i);
        }
        Some(path)
      case None =>
        var r := SearchPatterns(patterns[1..], paths);
        assert forall q :: 1 <= q < |patterns| ==> patterns[q] == patterns[1..][q - 1];
        assert r.Some? ==> exists q, i :: IsPatternMajorFirst(patterns, paths, q, i) && paths[i] == r.value by {
          if r.Some? {
            var q, i :| IsPatternMajorFirst(patterns[1..], paths, q, i) && paths[i] == r.value;
            PatternMajorAfterMiss(patterns, paths, q, i);
          }
        }
        r
  }

  /** `_uefi_arch_patterns.get(arch)`. */
  function PatternsFor(arch: string): (r: Option<seq<Pattern>>)
    ensures r.Some? <==> arch == "x86_64" || arch == "aarch64"
    ensures r.Some? ==> (arch, r.value) in UefiArchPatterns
  {
    if arch == UefiArchPatterns[0].0 then Some(UefiArchPatterns[0].1)
    else if arch == UefiArchPatterns[1].0 then Some(UefiArchPatterns[1].1)
    else None
  }

  /** `arch_can_uefi()`: the architecture is a key of the pattern table. */
  function ArchCanUefi(caps: DomainCapabilities): (r: bool)
    ensures r <==> caps.arch == Some("x86_64") || caps.arch == Some("aarch64")
  {
    caps.arch.Some? && PatternsFor(caps.arch.value).Some?
  }

  /**
   * `find_uefi_path_for_arch()`: nothing for an architecture without UEFI
   * patterns; otherwise the loader value found by the pattern-major search
   * over that architecture's patterns, or nothing if no value matches.
   */
  function FindUefiPathForArch(caps: DomainCapabilities): (r: Option<string>)
    ensures !ArchCanUefi(caps) ==> r.None?
    ensures r.Some? ==> exists q, i ::
      var patterns := PatternsFor(caps.arch.value).value;
      IsPatternMajorFirst(patterns, GetValues(caps.os.loader.values), q, i) &&
      caps.os.loader.values[i].text == r.value
    ensures ArchCanUefi(caps) && r.None? ==>
      forall q, i :: (0 <= q < |PatternsFor(caps.arch.value).value| &&
        0 <= i < |caps.os.loader.values|) ==>
        !Matches(PatternsFor(caps.arch.value).value[q], caps.os.loader.values[i].text)
  {
    if !ArchCanUefi(caps) then None
    else
      var paths := GetValues(caps.os.loader.values);
      SearchPatterns(PatternsFor(caps.arch.value).value, paths)
  }

  // ---------------------------------------------------------------------------
  // Firmware labels

  /** Some pattern of the list matches `path`. */
  predicate AnyMatches(patterns: seq<Pattern>, path: string)
  {
    exists q :: 0 <= q < |patterns| && Matches(patterns[q], path)
  }

  /** The first architecture of `table`, in table order, one of whose patterns matches `path`. */
  function FirstArchMatching(table: seq<(string, seq<Pattern>)>, path: string): (r: Option<string>)
    ensures r.None? <==> forall a :: 0 <= a < |table| ==> !AnyMatches(table[a].1, path)
    ensures r.Some? ==> exists a :: (0 <= a < |table| && table[a].0 == r.value &&
      AnyMatches(table[a].1, path) && forall b :: 0 <= b < a ==> !AnyMatches(table[b].1, path))
  {
    if table == [] then None
    else if AnyMatches(table[0].1, path) then Some(table[0].0)
    else
      var r := FirstArchMatching(table[1..], path);
      assert forall a :: 1 <= a < |table| ==> table[a] == table[1..][a - 1];
      r
  }

  /** On a two-row table the first row is tried before the second. */
  lemma FirstArchOfTwo(table: seq<(string, seq<Pattern>)>, path: string)
    requires |table| == 2
    ensures FirstArchMatching(table, path) ==
      if AnyMatches(table[0].1, path) then Some(table[0].0)
      else if AnyMatches(table[1].1, path) then Some(table[1].0)
      else None
  {
    assert table[1..][0] == table[1] && table[1..][1..] == [];
  }

  /**
   * `label_for_firmware_path(path)`: for no path, "BIOS" on i686 and x86_64
   * and "None" elsewhere; for a path some table pattern matches, "UEFI <arch>: <path>"
   * naming the first such architecture (x86_64 before aarch64); else "Custom: <path>".
   * The labels are written as concatenations of their literal pieces, which
   * spares the verifier a character-by-character comparison of whole literals.
   */
  function LabelForFirmwarePath(caps: DomainCapabilities, path: Option<string>): (r: string)
    ensures (path.None? || path.value == "") ==>
      r == if caps.arch == Some("i686") || caps.arch == Some("x86_64") then "BIOS" else "None"
    ensures path.Some? && path.value != "" && AnyMatches(UefiArchPatterns[0].1, path.value) ==>
      r == "UEFI " + "x86_64" + ": " + path.value
    ensures (path.Some? && path.value != "" && !AnyMatches(UefiArchPatterns[0].1, path.value) &&
      AnyMatches(UefiArchPatterns[1].1, path.value)) ==>
      r == "UEFI " + "aarch64" + ": " + path.value
    ensures (path.Some? && path.value != "" && !AnyMatches(UefiArchPatterns[0].1, path.value) &&
      !AnyMatches(UefiArchPatterns[1].1, path.value)) ==>
      r == "Custom: " + path.value
  {
    if path.None? || path.value == "" then
      if caps.arch == Some("i686") || caps.arch == Some("x86_64") then "BIOS" else "None"
    else
      FirstArchOfTwo(UefiArchPatterns, path.value);
      match FirstArchMatching(UefiArchPatterns, path.value)
      case Some(arch) => "UEFI " + arch + ": " + path.value
      case None => "Custom: " + path.value
  }

  // ---------------------------------------------------------------------------
  // Building from a connection

  /** What `conn.getDomainCapabilities(...)` did: returned XML text, or raised. */
  datatype QueryOutcome = Returned(xml: string) | Raised

  /** The arguments of the capability query. */
  datatype QueryArgs = QueryArgs(
    emulator: Option<string>, arch: Option<string>, machine: Option<string>, hvtype: Option<string>)

  /**
   * The libvirt connection, reduced to what `build_from_params` asks of it:
   * whether it supports the domain-capabilities call, and what that call does.
   */
  datatype Connection = Connection(
    supportsDomainCapabilities: bool,
    getDomainCapabilities: QueryArgs -> QueryOutcome)

  /** The object `build_from_params` returns: one parsed from XML text, or the stub. */
  datatype Built = Parsed(xml: string) | Unsupported

  /**
   * `build_from_params(...)`: absorbs a missing, failed or empty query; the stub when the connection lacks
   * the call, the call raises, or it returns empty text; otherwise an object
   * parsed from the returned text.
   */
  function BuildFromParams(conn: Connection, args: QueryArgs): (r: Built)
    ensures r.Unsupported? <==>
      !conn.supportsDomainCapabilities ||
      conn.getDomainCapabilities(args).Raised? ||
      conn.getDomainCapabilities(args).xml == ""
    ensures r.Parsed? ==> r.xml != "" && conn.getDomainCapabilities(args) == Returned(r.xml)
  {
    var xml: Option<string> :=
      if !conn.supportsDomainCapabilities then None
      else match conn.getDomainCapabilities(args)
        case Raised => None
        case Returned(text) => Some(text);
    if xml.None? || xml.value == "" then Unsupported else Parsed(xml.value)
  }

  /** The document behind a built object, given the parser for the parsed case. */
  function DocumentOf(b: Built, parse: string -> DomainCapabilities): DomainCapabilities
  {
    match b
    case Unsupported => Stub
    case Parsed(xml) => parse(xml)
  }

  /** Every query on the stub gives its default answer. */
  lemma StubDefaults(path: Option<string>)
    ensures GetValues(Stub.os.loader.values) == [] && EnumNames(Stub.os.loader.enums) == []
    ensures !Stub.os.loader.supported
    ensures GetEnum(Stub.os.loader, "readonly") == Err(KeyError("readonly"))
    ensures !ArchCanUefi(Stub) && !SupportsUefiXml(Stub)
    ensures FindUefiPathForArch(Stub) == None
    ensures (path.None? || path.value == "") ==> LabelForFirmwarePath(Stub, path) == "None"
  {
  }

  /** An unsupported connection yields the stub whatever the query would have done. */
  lemma UnsupportedConnectionGivesStub(conn: Connection, args: QueryArgs, parse: string -> DomainCapabilities)
    requires !conn.supportsDomainCapabilities
    ensures DocumentOf(BuildFromParams(conn, args), parse) == Stub
  {
  }

  // ---------------------------------------------------------------------------
  // Consequences

  /**
   * The x86_64 patterns are tried first: a path that matches both the generic
   * x86_64 pattern and the generic aarch64 pattern is labelled x86_64.
   */
  lemma X86PatternsTakePrecedence(caps: DomainCapabilities, path: string)
    requires path != ""
    requires Matches(Contains("ovmf"), path) && Matches(Contains("aarch64"), path)
    ensures AnyMatches(UefiArchPatterns[1].1, path)
    ensures LabelForFirmwarePath(caps, Some(path)) == "UEFI " + "x86_64" + ": " + path
  {
    assert UefiArchPatterns[0].1[3] == Contains("ovmf");
    assert UefiArchPatterns[1].1[2] == Contains("aarch64");
  }

  /** A one-line path matches every literal it contains. */
  lemma ContainsMatches(pre: string, lit: string, post: string)
    requires '\n' !in pre + lit + post
    ensures Matches(Contains(lit), pre + lit + post)
  {
    var s := pre + lit + post;
    FirstLineOfLine(s);
    assert s[|pre|..|pre| + |lit|] == lit;
    assert OccursAt(s, lit, |pre|);
    MatchesIsRegexMatch(Contains(lit), s);
  }

  /**
   * Such paths exist: any one-line path with an `aarch64` directory above an
   * image whose name contains `ovmf`, `/usr/share/aarch64/ovmf.fd` say.
   */
  lemma AarchOvmfPath(pre: string, mid: string, post: string)
    requires '\n' !in pre + mid + post
    ensures var path := pre + "aarch64" + mid + "ovmf" + post;
      Matches(Contains("ovmf"), path) && Matches(Contains("aarch64"), path)
  {
    var path := pre + "aarch64" + mid + "ovmf" + post;
    assert '\n' !in path;
    ContainsMatches(pre + "aarch64" + mid, "ovmf", post);
    assert path == pre + "aarch64" + (mid + "ovmf" + post);
    ContainsMatches(pre, "aarch64", mid + "ovmf" + post);
  }

  /**
   * The loader test document: supported, two values, enums `type` and
   * `readonly`. The test asserts only the enum names and the values of `type`;
   * the values `yes` and `no` of `readonly` are assumed here.
   */
  const TestLoader := CapsBlock(
    true,
    [Value("/foo/bar"), Value("/tmp/my_path")],
    [Enum("type", [Value("rom"), Value("pflash")]), Enum("readonly", [Value("yes"), Value("no")])])

  /** The expectations of the domain-capabilities test on that loader block. */
  lemma TestLoaderQueries()
    ensures TestLoader.supported
    ensures GetValues(TestLoader.values) == ["/foo/bar", "/tmp/my_path"]
    ensures EnumNames(TestLoader.enums) == ["type", "readonly"]
    ensures GetEnum(TestLoader, "type").Ok?
    ensures GetValues(GetEnum(TestLoader, "type").value.values) == ["rom", "pflash"]
  {
    var e := GetEnum(TestLoader, "type").value;
    var i :| IsLastNamed(TestLoader.enums, "type", i) && e == TestLoader.enums[i];
    assert i == 0;
  }
}
