/**
 * Build-time configuration of the command-line tools: comma-list settings,
 * lookups in the `[config]` section of `cli.cfg` with defaults and a test-mode
 * override, and the install layout derived from a prefix.
 *
 * The module-level probes of the source (is the config file there, is the
 * test suite running, is this a source checkout) are inputs here, gathered in
 * `BuildEnv`.
 */
module CliConfig {
  import opened Wrappers
  import Text

  // ---------------------------------------------------------------------------
  // Comma lists

  /** The pieces that are not empty, in their order. */
  function DropEmpty(pieces: seq<string>): (r: seq<string>)
    ensures forall i :: 0 <= i < |r| ==> r[i] != "" && r[i] in pieces
    ensures (forall i :: 0 <= i < |pieces| ==> pieces[i] != "") ==> r == pieces
  {
    if pieces == [] then []
    else
      var rest := DropEmpty(pieces[1..]);
      assert pieces == [pieces[0]] + pieces[1..];
      assert forall x :: x in pieces[1..] ==> x in pieces;
      if pieces[0] == "" then rest else [pieces[0]] + rest
  }

  /** Dropping empty pieces keeps every non-empty piece as often as it occurs, and no empty one. */
  lemma {:induction false} DropEmptyCounts(pieces: seq<string>)
    ensures multiset(DropEmpty(pieces)) == multiset(pieces)["" := 0]
  {
    if pieces != [] {
      DropEmptyCounts(pieces[1..]);
      assert pieces == [pieces[0]] + pieces[1..];
    }
  }

  /** Dropping empty pieces keeps the order: it distributes over concatenation. */
  lemma {:induction false} DropEmptyConcat(a: seq<string>, b: seq<string>)
    ensures DropEmpty(a + b) == DropEmpty(a) + DropEmpty(b)
  {
    if a == [] {
      assert a + b == b;
    } else {
      assert (a + b)[0] == a[0] && (a + b)[1..] == a[1..] + b;
      DropEmptyConcat(a[1..], b);
    }
  }

  /** `_split_list(commastr)`: the comma-separated pieces, in order, empty pieces dropped. */
  function SplitList(commastr: string): (r: seq<string>)
    ensures forall i :: 0 <= i < |r| ==> r[i] != "" && ',' !in r[i] && r[i] in Text.Split(commastr, ',')
  {
    DropEmpty(Text.Split(commastr, ','))
  }

  /** The items of `a,b` are the items of `a` followed by the items of `b`. */
  lemma SplitListConcat(a: string, b: string)
    ensures SplitList(a + "," + b) == SplitList(a) + SplitList(b)
  {
    Text.SplitConcat(a, ',', b);
    DropEmptyConcat(Text.Split(a, ','), Text.Split(b, ','));
  }

  /** One comma-free piece gives itself as the only item, or nothing when it is empty. */
  lemma SplitListPiece(x: string)
    requires ',' !in x
    ensures SplitList(x) == if x == "" then [] else [x]
  {
    Text.SplitSingle(x, ',');
  }

  /** A string of nothing but commas, the empty string included, gives no items. */
  lemma SplitListEmpty()
    ensures SplitList("") == []
    ensures SplitList(",,") == []
  {
    assert ",,"[1..] == "," && ","[1..] == "";
  }

  /** A string without empty segments is given back by joining its items with commas. */
  lemma SplitListJoin(commastr: string)
    requires forall i :: 0 <= i < |Text.Split(commastr, ',')| ==> Text.Split(commastr, ',')[i] != ""
    ensures Text.Join(SplitList(commastr), ',') == commastr
  {
    Text.JoinSplit(commastr, ',');
  }

  /** Non-empty, comma-free items joined with commas split back into the same items. */
  lemma JoinSplitList(items: seq<string>)
    requires forall i :: 0 <= i < |items| ==> items[i] != "" && ',' !in items[i]
    ensures SplitList(Text.Join(items, ',')) == items
  {
    if items != [] {
      Text.SplitJoin(items, ',');
    }
  }

  /** Empty pieces anywhere are dropped: `a,,b,` gives `a` and `b`, for any items `a` and `b`. */
  lemma SplitListDropsEmptyPieces(a: string, b: string)
    requires a != "" && ',' !in a && b != "" && ',' !in b
    ensures SplitList(a + "," + "," + b + ",") == [a, b]
  {
    var tail := b + ",";
    assert SplitList(tail) == [b] by {
      SplitListPiece(b);
      SplitListPiece("");
      SplitListConcat(b, "");
      assert b + "," + "" == tail;
    }
    var mid := "," + tail;
    assert SplitList(mid) == [b] by {
      SplitListPiece("");
      SplitListConcat("", tail);
      assert "" + "," + tail == mid;
    }
    SplitListPiece(a);
    SplitListConcat(a, mid);
    assert a + "," + mid == a + "," + "," + b + ",";
  }

  // ---------------------------------------------------------------------------
  // The configuration file

  /** The parsed `cli.cfg`: section name to option name to value. */
  type ConfigFile = map<string, map<string, string>>

  /** The errors `ConfigParser.get` raises for a missing section or option. */
  datatype ConfigError = NoSectionError(section: string) | NoOptionError(option: string)

  /** `ConfigParser.get(section, option)`. */
  function ConfigGet(cfg: ConfigFile, section: string, option: string): (r: Result<string, ConfigError>)
    ensures r.Ok? <==> section in cfg && option in cfg[section]
    ensures r.Ok? ==> r.value == cfg[section][option]
    ensures r.Err? ==> r.error == if section in cfg then NoOptionError(option) else NoSectionError(section)
  {
    if section !in cfg then Err(NoSectionError(section))
    else if option !in cfg[section] then Err(NoOptionError(option))
    else Ok(cfg[section][option])
  }

  /**
   * `_get_param(name, default)`: in test mode the default, always; otherwise
   * the option of section `config`, or the default when the option or the
   * section is missing.
   */
  function GetParam(cfg: ConfigFile, isTest: bool, name: string, default: string): (r: string)
    ensures isTest ==> r == default
    ensures !isTest && "config" in cfg && name in cfg["config"] ==> r == cfg["config"][name]
    ensures !isTest && ("config" !in cfg || name !in cfg["config"]) ==> r == default
  {
    if isTest then default
    else match ConfigGet(cfg, "config", name)
      case Ok(v) => v
      case Err(_) => default
  }

  // ---------------------------------------------------------------------------
  // Integers

  predicate IsSpace(c: char)
  {
    c == ' ' || c == '\t' || c == '\n' || c == '\r' || c == '\U{B}' || c == '\U{C}'
  }

  /** `s` without its leading whitespace. */
  function StripLeft(s: string): (r: string)
    ensures |r| <= |s| && r == s[|s| - |r|..]
    ensures forall i :: 0 <= i < |s| - |r| ==> IsSpace(s[i])
    ensures r != [] ==> !IsSpace(r[0])
  {
    if s != [] && IsSpace(s[0]) then StripLeft(s[1..]) else s
  }

  /** `s` without its trailing whitespace. */
  function StripRight(s: string): (r: string)
    ensures |r| <= |s| && r == s[..|r|]
    ensures forall i :: |r| <= i < |s| ==> IsSpace(s[i])
    ensures r != [] ==> !IsSpace(r[|r| - 1])
  {
    if s != [] && IsSpace(s[|s| - 1]) then StripRight(s[..|s| - 1]) else s
  }

  /** `s` without the surrounding ASCII whitespace that `int()` ignores. */
  function Strip(s: string): (r: string)
    ensures r != [] ==> !IsSpace(r[0]) && !IsSpace(r[|r| - 1])
  {
    var l := StripLeft(s);
    var r := StripRight(l);
    assert r != [] ==> r[0] == l[0];
    r
  }

  /** `r` is `s` from `lo` on, less whitespace on either side and nothing else. */
  predicate StrippedAt(s: string, lo: nat, r: string)
  {
    && lo + |r| <= |s| && s[lo..lo + |r|] == r
    && (forall i :: 0 <= i < lo ==> IsSpace(s[i]))
    && (forall i :: lo + |r| <= i < |s| ==> IsSpace(s[i]))
    && (r != [] ==> !IsSpace(r[0]) && !IsSpace(r[|r| - 1]))
  }

  /**
   * Dropping leading whitespace to get `l` and then trailing whitespace to get
   * `r` leaves `r` in place in `s`, with whitespace only on either side.
   */
  lemma TrimmedSlice(s: string, l: string, r: string)
    requires |l| <= |s| && l == s[|s| - |l|..] && forall i :: 0 <= i < |s| - |l| ==> IsSpace(s[i])
    requires |r| <= |l| && r == l[..|r|] && forall i :: |r| <= i < |l| ==> IsSpace(l[i])
    requires r != [] ==> !IsSpace(r[0]) && !IsSpace(r[|r| - 1])
    ensures StrippedAt(s, |s| - |l|, r)
  {
    var lo := |s| - |l|;
    forall i | lo + |r| <= i < |s|
      ensures IsSpace(s[i])
    {
      assert s[i] == l[i - lo];
    }
    assert s[lo..lo + |r|] == s[lo..][..|r|];
  }

  /** Stripping removes whitespace at both ends and nothing else. */
  lemma StripSpec(s: string)
    ensures StrippedAt(s, |s| - |StripLeft(s)|, Strip(s))
  {
    TrimmedSlice(s, StripLeft(s), Strip(s));
  }

  /** `t` without its sign, if it has one. */
  function Magnitude(t: string): string
  {
    if t != [] && (t[0] == '+' || t[0] == '-') then t[1..] else t
  }

  /** A decimal integer literal: an optional sign, then one or more digits. */
  predicate IsIntLiteral(t: string)
  {
    Magnitude(t) != [] && Text.AllDigits(Magnitude(t))
  }

  /**
   * `int(s)` for base-10 text: surrounding whitespace is ignored; the value is
   * zero exactly when every digit is `0`, and negative only after a `-`.
   */
  function ParseInt(s: string): (r: Option<int>)
    ensures r.Some? <==> IsIntLiteral(Strip(s))
    ensures r.Some? ==> (r.value == 0 <==>
      forall i :: 0 <= i < |Magnitude(Strip(s))| ==> Magnitude(Strip(s))[i] == '0')
    ensures r.Some? && r.value < 0 ==> Strip(s)[0] == '-'
  {
    var t := Strip(s);
    var digits := Magnitude(t);
    if digits == [] || !Text.AllDigits(digits) then None
    else
      Text.DigitsValueZero(digits);
      var n: int := Text.DigitsValue(digits);
      Some(if t[0] == '-' then -n else n)
  }

  /**
   * `bool(int(raw))` for `stable_defaults`: nothing when `int` would raise;
   * otherwise true exactly when some digit is not `0`.
   */
  function StableDefaults(raw: string): (r: Option<bool>)
    ensures r.Some? <==> IsIntLiteral(Strip(raw))
    ensures r.Some? ==> (r.value <==>
      exists i :: 0 <= i < |Magnitude(Strip(raw))| && Magnitude(Strip(raw))[i] != '0')
  {
    match ParseInt(raw)
    case None => None
    case Some(n) => Some(n != 0)
  }

  // ---------------------------------------------------------------------------
  // Paths

  /** One step of POSIX `os.path.join`: an absolute part restarts; otherwise a separator is added if needed. */
  function JoinStep(path: string, part: string): string
  {
    if part != [] && part[0] == '/' then part
    else if path == [] || path[|path| - 1] == '/' then path + part
    else path + "/" + part
  }

  /** POSIX `os.path.join(a, *parts)`. */
  function PathJoin(a: string, parts: seq<string>): string
    decreases |parts|
  {
    if parts == [] then a else PathJoin(JoinStep(a, parts[0]), parts[1..])
  }

  /** `a` ready to have a relative part appended: with a trailing `/` unless empty. */
  function DirPrefix(a: string): string
  {
    if a == [] || a[|a| - 1] == '/' then a else a + "/"
  }

  /** Joining plain names (non-empty, no `/`) puts them under `a`, separated by `/`. */
  lemma {:induction false} PathJoinLayout(a: string, parts: seq<string>)
    requires |parts| >= 1
    requires forall i :: 0 <= i < |parts| ==> parts[i] != "" && '/' !in parts[i]
    ensures PathJoin(a, parts) == DirPrefix(a) + Text.Join(parts, '/')
    decreases |parts|
  {
    var step := JoinStep(a, parts[0]);
    assert step == DirPrefix(a) + parts[0];
    if |parts| > 1 {
      PathJoinLayout(step, parts[1..]);
      assert parts[0][|parts[0]| - 1] != '/' by {
        assert parts[0][|parts[0]| - 1] in parts[0];
      }
      assert step[|step| - 1] == parts[0][|parts[0]| - 1];
      assert DirPrefix(step) == DirPrefix(a) + parts[0] + "/";
    }
  }

  // ---------------------------------------------------------------------------
  // The configuration object

  /** `__version__`. */
  const Version := "1.5.0"

  /**
   * What the module learns at import time: the parsed `cli.cfg` (empty when
   * the file is absent), whether `VIRTINST_TEST_SUITE` is set, whether this is
   * a source checkout, the checkout directory and the config path.
   */
  datatype BuildEnv = BuildEnv(
    cfg: ConfigFile, isTest: bool, runningFromSrcdir: bool, srcdir: string, cfgpath: string)

  // The layout lemmas take their name lists as parameters fixed by a requires,
  // and write the expected paths piecewise: with the literals inline the
  // verifier unfolds `PathJoin` and compares whole strings far more expensively.

  /** Three plain names joined below a path without a trailing `/`, one `/` before each. */
  lemma ThreeNamesBelow(prefix: string, parts: seq<string>)
    requires prefix != "" && prefix[|prefix| - 1] != '/'
    requires |parts| == 3 && forall i :: 0 <= i < 3 ==> parts[i] != "" && '/' !in parts[i]
    ensures PathJoin(prefix, parts) == prefix + "/" + parts[0] + "/" + parts[1] + "/" + parts[2]
  {
    PathJoinLayout(prefix, parts);
    assert DirPrefix(prefix) == prefix + "/";
    Text.JoinThree(parts, '/');
    var a, x, y, z := prefix + "/", parts[0], parts[1], parts[2];
    calc {
      a + (x + "/" + y + "/" + z);
      { Text.Concat3(a, x + "/" + y + "/", z); }
      a + (x + "/" + y + "/") + z;
      { Text.Concat3(a, x + "/" + y, "/"); }
      a + (x + "/" + y) + "/" + z;
      { Text.Concat3(a, x + "/", y); }
      a + (x + "/") + y + "/" + z;
      { Text.Concat3(a, x, "/"); }
      a + x + "/" + y + "/" + z;
    }
  }

  /** The message catalogues below an installed prefix that has no trailing `/`. */
  lemma LocaleDirLayout(prefix: string, parts: seq<string>)
    requires prefix != "" && prefix[|prefix| - 1] != '/'
    requires parts == ["share", "locale"]
    ensures PathJoin(prefix, parts) == prefix + "/" + "share" + "/" + "locale"
  {
    PathJoinLayout(prefix, parts);
    Text.JoinTwo(parts, '/');
  }

  /** The interface files below an installed prefix that has no trailing `/`. */
  lemma UiDirLayout(prefix: string, parts: seq<string>)
    requires prefix != "" && prefix[|prefix| - 1] != '/'
    requires parts == ["share", "virt-manager", "ui"]
    ensures PathJoin(prefix, parts) == prefix + "/" + "share" + "/" + "virt-manager" + "/" + "ui"
  {
    ThreeNamesBelow(prefix, parts);
  }

  /** The icons below an installed prefix that has no trailing `/`. */
  lemma IconDirLayout(prefix: string, parts: seq<string>)
    requires prefix != "" && prefix[|prefix| - 1] != '/'
    requires parts == ["share", "virt-manager", "icons"]
    ensures PathJoin(prefix, parts) == prefix + "/" + "share" + "/" + "virt-manager" + "/" + "icons"
  {
    ThreeNamesBelow(prefix, parts);
  }

  /** The settings schemas below an installed prefix that has no trailing `/`. */
  lemma SchemaDirLayout(prefix: string, parts: seq<string>)
    requires prefix != "" && prefix[|prefix| - 1] != '/'
    requires parts == ["share", "glib-2.0", "schemas"]
    ensures PathJoin(prefix, parts) == prefix + "/" + "share" + "/" + "glib-2.0" + "/" + "schemas"
  {
    ThreeNamesBelow(prefix, parts);
  }

  /** `_CLIConfig`: the settings, resolved once when the module is imported. */
  class CLIConfig {
    const env: BuildEnv
    const cfgpath: string
    const version: string
    const defaultQemuUser: string
    const stableDefaults: bool
    const preferredDistros: seq<string>
    const hvPackages: seq<string>
    const askpassPackage: seq<string>
    const libvirtPackages: seq<string>
    const defaultGraphics: string
    const defaultHvs: seq<string>
    var prefix: string
    var gettextDir: string
    var uiDir: string
    var iconDir: string
    var gsettingsDir: string

    /**
     * The settings as `__init__` reads them from `e`: each `_get_param` with
     * its default, the list-valued ones through `_split_list`.
     */
    ghost predicate SettingsFrom(e: BuildEnv)
    {
      && defaultQemuUser == GetParam(e.cfg, e.isTest, "default_qemu_user", "root")
      && StableDefaults(GetParam(e.cfg, e.isTest, "stable_defaults", "0")) == Some(stableDefaults)
      && preferredDistros == SplitList(GetParam(e.cfg, e.isTest, "preferred_distros", ""))
      && hvPackages == SplitList(GetParam(e.cfg, e.isTest, "hv_packages", ""))
      && askpassPackage == SplitList(GetParam(e.cfg, e.isTest, "askpass_packages", ""))
      && libvirtPackages == SplitList(GetParam(e.cfg, e.isTest, "libvirt_packages", ""))
      && defaultGraphics == GetParam(e.cfg, e.isTest, "default_graphics", "spice")
      && defaultHvs == SplitList(GetParam(e.cfg, e.isTest, "default_hvs", ""))
    }

    /**
     * The paths as `set_paths_by_prefix(p, checkSourceDir)` leaves them: the
     * message catalogues below `p`; the data below the checkout when running
     * from one and asked to look, below `p` otherwise.
     */
    ghost predicate PathsFor(p: string, checkSourceDir: bool)
      reads this
    {
      && prefix == p
      && gettextDir == PathJoin(p, ["share", "locale"])
      && (env.runningFromSrcdir && checkSourceDir ==>
          uiDir == PathJoin(env.srcdir, ["ui"]) &&
          iconDir == PathJoin(env.srcdir, ["data"]) &&
          gsettingsDir == iconDir)
      && (!(env.runningFromSrcdir && checkSourceDir) ==>
          uiDir == PathJoin(p, ["share", "virt-manager", "ui"]) &&
          iconDir == PathJoin(p, ["share", "virt-manager", "icons"]) &&
          gsettingsDir == PathJoin(p, ["share", "glib-2.0", "schemas"]))
    }

    /** `set_paths_by_prefix(prefix, check_source_dir)`. */
    method SetPathsByPrefix(p: string, checkSourceDir: bool)
      modifies this`prefix, this`gettextDir, this`uiDir, this`iconDir, this`gsettingsDir
      ensures PathsFor(p, checkSourceDir)
    {
      prefix := p;
      gettextDir := PathJoin(p, ["share", "locale"]);
      if env.runningFromSrcdir && checkSourceDir {
        uiDir := PathJoin(env.srcdir, ["ui"]);
        iconDir := PathJoin(env.srcdir, ["data"]);
        gsettingsDir := iconDir;
      } else {
        uiDir := PathJoin(p, ["share", "virt-manager", "ui"]);
        iconDir := PathJoin(p, ["share", "virt-manager", "icons"]);
        gsettingsDir := PathJoin(p, ["share", "glib-2.0", "schemas"]);
      }
    }

    /**
     * `_CLIConfig()`. `int()` must accept the `stable_defaults` setting; the
     * source raises at import time otherwise.
     */
    constructor (e: BuildEnv)
      requires StableDefaults(GetParam(e.cfg, e.isTest, "stable_defaults", "0")).Some?
      ensures env == e && cfgpath == e.cfgpath && version == Version
      ensures SettingsFrom(e)
      ensures PathsFor(GetParam(e.cfg, e.isTest, "prefix", "/usr"), true)
    {
      env := e;
      cfgpath := e.cfgpath;
      version := Version;
      defaultQemuUser := GetParam(e.cfg, e.isTest, "default_qemu_user", "root");
      stableDefaults := StableDefaults(GetParam(e.cfg, e.isTest, "stable_defaults", "0")).value;
      preferredDistros := SplitList(GetParam(e.cfg, e.isTest, "preferred_distros", ""));
      hvPackages := SplitList(GetParam(e.cfg, e.isTest, "hv_packages", ""));
      askpassPackage := SplitList(GetParam(e.cfg, e.isTest, "askpass_packages", ""));
      libvirtPackages := SplitList(GetParam(e.cfg, e.isTest, "libvirt_packages", ""));
      defaultGraphics := GetParam(e.cfg, e.isTest, "default_graphics", "spice");
      defaultHvs := SplitList(GetParam(e.cfg, e.isTest, "default_hvs", ""));
      prefix, gettextDir, uiDir, iconDir, gsettingsDir := "", "", "", "", "";
      new;
      SetPathsByPrefix(GetParam(e.cfg, e.isTest, "prefix", "/usr"), true);
    }
  }

  /** The default `stable_defaults` setting, `0`, parses and reads as false. */
  lemma StableDefaultsOff()
    ensures StableDefaults("0") == Some(false)
  {
    assert StripLeft("0") == "0" && StripRight("0") == "0";
    assert Magnitude("0") == "0";
    assert Text.AllDigits("0");
  }

  /**
   * With no `[config]` section, or in test mode, every setting takes its
   * literal default: `root`, not stable, no lists, `spice`.
   */
  lemma SettingsWithoutConfig(c: CLIConfig, e: BuildEnv)
    requires c.SettingsFrom(e)
    requires e.isTest || "config" !in e.cfg
    ensures c.defaultQemuUser == "root" && !c.stableDefaults && c.defaultGraphics == "spice"
    ensures c.preferredDistros == [] && c.hvPackages == [] && c.askpassPackage == []
    ensures c.libvirtPackages == [] && c.defaultHvs == []
    ensures GetParam(e.cfg, e.isTest, "prefix", "/usr") == "/usr"
  {
    StableDefaultsOff();
    SplitListEmpty();
  }
}
