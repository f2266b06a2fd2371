/**
 * The domain `<sysinfo>` record: 18 optional string properties, each bound to
 * one place of the backing document (the `type` attribute, or an `<entry
 * name='...'>` of the `<bios>`, `<system>` or `<baseBoard>` section), a
 * declared emit order, and the SMBIOS date validator that guards `bios_date`.
 */
module Sysinfo {
  import opened Wrappers
  import Text

  // ---------------------------------------------------------------------------
  // Properties and where they live

  datatype Section = Bios | System | BaseBoard

  /** A place in the `<sysinfo>` document. */
  datatype Target = TypeAttribute | Entry(section: Section, name: string)

  /** The declared properties of `DomainSysinfo`. */
  datatype Field =
    | Type
    | BiosVendor | BiosVersion | BiosDate | BiosRelease
    | SystemManufacturer | SystemProduct | SystemVersion | SystemSerial
    | SystemUuid | SystemSku | SystemFamily
    | BaseBoardManufacturer | BaseBoardProduct | BaseBoardVersion
    | BaseBoardSerial | BaseBoardAsset | BaseBoardLocation

  /** The Python attribute name of each property. */
  function PropName(f: Field): string
  {
    match f
    case Type => "type"
    case BiosVendor => "bios_vendor"
    case BiosVersion => "bios_version"
    case BiosDate => "bios_date"
    case BiosRelease => "bios_release"
    case SystemManufacturer => "system_manufacturer"
    case SystemProduct => "system_product"
    case SystemVersion => "system_version"
    case SystemSerial => "system_serial"
    case SystemUuid => "system_uuid"
    case SystemSku => "system_sku"
    case SystemFamily => "system_family"
    case BaseBoardManufacturer => "baseBoard_manufacturer"
    case BaseBoardProduct => "baseBoard_product"
    case BaseBoardVersion => "baseBoard_version"
    case BaseBoardSerial => "baseBoard_serial"
    case BaseBoardAsset => "baseBoard_asset"
    case BaseBoardLocation => "baseBoard_location"
  }

  /** The document place each property is bound to (its path expression). */
  function TargetOf(f: Field): Target
  {
    match f
    case Type => TypeAttribute
    case BiosVendor => Entry(Bios, "vendor")
    case BiosVersion => Entry(Bios, "version")
    case BiosDate => Entry(Bios, "date")
    case BiosRelease => Entry(Bios, "release")
    case SystemManufacturer => Entry(System, "manufacturer")
    case SystemProduct => Entry(System, "product")
    case SystemVersion => Entry(System, "version")
    case SystemSerial => Entry(System, "serial")
    case SystemUuid => Entry(System, "uuid")
    case SystemSku => Entry(System, "sku")
    case SystemFamily => Entry(System, "family")
    case BaseBoardManufacturer => Entry(BaseBoard, "manufacturer")
    case BaseBoardProduct => Entry(BaseBoard, "product")
    case BaseBoardVersion => Entry(BaseBoard, "version")
    case BaseBoardSerial => Entry(BaseBoard, "serial")
    case BaseBoardAsset => Entry(BaseBoard, "asset")
    case BaseBoardLocation => Entry(BaseBoard, "location")
  }

  /** The property bound to a document place, if any: the inverse of `TargetOf`. */
  function FieldAt(t: Target): Option<Field>
  {
    match t
    case TypeAttribute => Some(Type)
    case Entry(Bios, n) =>
      if n == "vendor" then Some(BiosVendor)
      else if n == "version" then Some(BiosVersion)
      else if n == "date" then Some(BiosDate)
      else if n == "release" then Some(BiosRelease)
      else None
    case Entry(System, n) =>
      if n == "manufacturer" then Some(SystemManufacturer)
      else if n == "product" then Some(SystemProduct)
      else if n == "version" then Some(SystemVersion)
      else if n == "serial" then Some(SystemSerial)
      else if n == "uuid" then Some(SystemUuid)
      else if n == "sku" then Some(SystemSku)
      else if n == "family" then Some(SystemFamily)
      else None
    case Entry(BaseBoard, n) =>
      if n == "manufacturer" then Some(BaseBoardManufacturer)
      else if n == "product" then Some(BaseBoardProduct)
      else if n == "version" then Some(BaseBoardVersion)
      else if n == "serial" then Some(BaseBoardSerial)
      else if n == "asset" then Some(BaseBoardAsset)
      else if n == "location" then Some(BaseBoardLocation)
      else None
  }

  /** Every property has a place of its own: no two properties share a target. */
  lemma TargetsDistinct(f: Field, g: Field)
    ensures FieldAt(TargetOf(f)) == Some(f)
    ensures TargetOf(f) == TargetOf(g) ==> f == g
  {
    assert FieldAt(TargetOf(g)) == Some(g);
  }

  /** `_XML_PROP_ORDER`, as the source writes it: attribute names. */
  const XmlPropOrderNames: seq<string> := [
    "type",
    "bios_vendor", "bios_version", "bios_date", "bios_release",
    "system_manufacturer", "system_product", "system_version",
    "system_serial", "system_uuid", "system_sku", "system_family",
    "baseBoard_manufacturer", "baseBoard_product", "baseBoard_version",
    "baseBoard_serial", "baseBoard_asset", "baseBoard_location"]

  /** `_XML_PROP_ORDER`, each name resolved to the property it names. */
  const XmlPropOrder: seq<Field> := [
    Type,
    BiosVendor, BiosVersion, BiosDate, BiosRelease,
    SystemManufacturer, SystemProduct, SystemVersion,
    SystemSerial, SystemUuid, SystemSku, SystemFamily,
    BaseBoardManufacturer, BaseBoardProduct, BaseBoardVersion,
    BaseBoardSerial, BaseBoardAsset, BaseBoardLocation]

  /** The order in which the class body declares the properties. */
  const DeclarationOrder: seq<Field> := [
    Type,
    BiosDate, BiosVendor, BiosVersion, BiosRelease,
    SystemUuid, SystemManufacturer, SystemProduct, SystemVersion,
    SystemSerial, SystemSku, SystemFamily,
    BaseBoardManufacturer, BaseBoardProduct, BaseBoardVersion,
    BaseBoardSerial, BaseBoardAsset, BaseBoardLocation]

  /** The position of a property in `_XML_PROP_ORDER`. */
  function Rank(f: Field): nat
  {
    match f
    case Type => 0
    case BiosVendor => 1
    case BiosVersion => 2
    case BiosDate => 3
    case BiosRelease => 4
    case SystemManufacturer => 5
    case SystemProduct => 6
    case SystemVersion => 7
    case SystemSerial => 8
    case SystemUuid => 9
    case SystemSku => 10
    case SystemFamily => 11
    case BaseBoardManufacturer => 12
    case BaseBoardProduct => 13
    case BaseBoardVersion => 14
    case BaseBoardSerial => 15
    case BaseBoardAsset => 16
    case BaseBoardLocation => 17
  }

  /** The resolved order names exactly the attributes `_XML_PROP_ORDER` lists. */
  lemma PropOrderNamesResolve()
    ensures |XmlPropOrderNames| == |XmlPropOrder|
    ensures forall k :: 0 <= k < |XmlPropOrder| ==> PropName(XmlPropOrder[k]) == XmlPropOrderNames[k]
  {
  }

  /**
   * `_XML_PROP_ORDER` is a permutation of the declared properties: it lists
   * every property once, at position `Rank`, and nothing else; the class body
   * declares the same 18 properties.
   */
  lemma PropOrderIsPermutation()
    ensures |XmlPropOrder| == 18
    ensures forall f: Field :: Rank(f) < 18 && XmlPropOrder[Rank(f)] == f
    ensures forall k :: 0 <= k < 18 ==> Rank(XmlPropOrder[k]) == k
    ensures forall i, j :: 0 <= i < j < 18 ==> XmlPropOrder[i] != XmlPropOrder[j]
    ensures |DeclarationOrder| == 18 && forall f: Field :: f in DeclarationOrder
  {
    assert forall k :: 0 <= k < 18 ==> Rank(XmlPropOrder[k]) == k;
    forall f: Field
      ensures f in DeclarationOrder
    {
      // The class body moves `bios_date` ahead of the other bios entries and
      // `system_uuid` ahead of the other system entries.
      var k := Rank(f);
      var p := if k == 3 then 1 else if 1 <= k <= 2 then k + 1
        else if k == 9 then 5 else if 5 <= k <= 8 then k + 1 else k;
      assert DeclarationOrder[p] == XmlPropOrder[k];
    }
  }

  /**
   * Within `<bios>` the emit order is vendor, version, date, release, while the
   * class body declares `bios_date` first.
   */
  lemma BiosOrderDiffersFromDeclaration()
    ensures Rank(BiosVendor) < Rank(BiosVersion) < Rank(BiosDate) < Rank(BiosRelease)
    ensures DeclarationOrder[1] == BiosDate && DeclarationOrder[2] == BiosVendor
  {
  }

  /** The section rank of a place: the `type` attribute, then bios, system, baseBoard. */
  function Group(t: Target): nat
  {
    match t
    case TypeAttribute => 0
    case Entry(Bios, _) => 1
    case Entry(System, _) => 2
    case Entry(BaseBoard, _) => 3
  }

  /** Emitting in `_XML_PROP_ORDER` groups the places by section, in section order. */
  lemma RankGroupsSections(f: Field, g: Field)
    requires Rank(f) <= Rank(g)
    ensures Group(TargetOf(f)) <= Group(TargetOf(g))
  {
    assert forall h: Field ::
      Group(TargetOf(h)) == (if Rank(h) == 0 then 0 else if Rank(h) <= 4 then 1 else if Rank(h) <= 11 then 2 else 3);
  }

  // ---------------------------------------------------------------------------
  // Serialisation

  /** One emitted node: the property and its text. */
  datatype Emitted = Emitted(prop: Field, text: string)

  /** The value a document holds for a property, if any. */
  function Lookup(doc: map<Target, string>, f: Field): Option<string>
  {
    if TargetOf(f) in doc then Some(doc[TargetOf(f)]) else None
  }

  /** Walk `_XML_PROP_ORDER` from position `k`, emitting each property that is set. */
  function EmitFrom(doc: map<Target, string>, k: nat): seq<Emitted>
    decreases |XmlPropOrder| - k
  {
    if k >= |XmlPropOrder| then []
    else
      var f := XmlPropOrder[k];
      var rest := EmitFrom(doc, k + 1);
      if TargetOf(f) in doc then [Emitted(f, doc[TargetOf(f)])] + rest else rest
  }

  /** The walk from `k` emits the set properties of rank `k` and above, in rank order. */
  lemma {:induction false} EmitFromSpec(doc: map<Target, string>, k: nat)
    requires k <= 18
    ensures forall e :: e in EmitFrom(doc, k) <==> k <= Rank(e.prop) && Lookup(doc, e.prop) == Some(e.text)
    ensures forall i, j :: 0 <= i < j < |EmitFrom(doc, k)| ==>
      Rank(EmitFrom(doc, k)[i].prop) < Rank(EmitFrom(doc, k)[j].prop)
    ensures forall i :: 0 <= i < |EmitFrom(doc, k)| ==> k <= Rank(EmitFrom(doc, k)[i].prop)
    decreases 18 - k
  {
    PropOrderIsPermutation();
    if k < 18 {
      EmitFromSpec(doc, k + 1);
    }
  }

  /**
   * Serialisation emits exactly the set properties with their values, in
   * `_XML_PROP_ORDER`, hence section by section: the `type` attribute, then
   * `<bios>`, `<system>`, `<baseBoard>`.
   */
  function SerializeDoc(doc: map<Target, string>): (out: seq<Emitted>)
    ensures forall f, v :: Emitted(f, v) in out <==> Lookup(doc, f) == Some(v)
    ensures forall i, j :: 0 <= i < j < |out| ==> Rank(out[i].prop) < Rank(out[j].prop)
    ensures forall i, j :: 0 <= i < j < |out| ==>
      Group(TargetOf(out[i].prop)) <= Group(TargetOf(out[j].prop))
  {
    EmitFromSpec(doc, 0);
    var out := EmitFrom(doc, 0);
    forall i, j | 0 <= i < j < |out|
      ensures Group(TargetOf(out[i].prop)) <= Group(TargetOf(out[j].prop))
    {
      RankGroupsSections(out[i].prop, out[j].prop);
    }
    out
  }

  /**
   * Setting two different properties gives the same document, and so the same
   * serialisation, in either order.
   */
  lemma SetOrderIrrelevant(doc: map<Target, string>, f: Field, a: string, g: Field, b: string)
    requires f != g
    ensures doc[TargetOf(f) := a][TargetOf(g) := b] == doc[TargetOf(g) := b][TargetOf(f) := a]
    ensures SerializeDoc(doc[TargetOf(f) := a][TargetOf(g) := b]) ==
      SerializeDoc(doc[TargetOf(g) := b][TargetOf(f) := a])
  {
    TargetsDistinct(f, g);
  }

  // ---------------------------------------------------------------------------
  // The SMBIOS date validator

  datatype Date = Date(year: int, month: int, day: int)

  function DigitChar(n: nat): char
    requires n <= 9
  {
    ('0' as int + n) as char
  }

  function DigitOf(c: char): nat
    requires Text.IsDigit(c)
  {
    (c as int - '0' as int) as nat
  }

  /** `%m` as strptime reads it: `1[0-2]|0[1-9]|[1-9]`. */
  function MonthField(s: string): Option<int>
  {
    if |s| == 1 && '1' <= s[0] <= '9' then Some(DigitOf(s[0]))
    else if |s| == 2 && s[0] == '1' && '0' <= s[1] <= '2' then Some(10 + DigitOf(s[1]))
    else if |s| == 2 && s[0] == '0' && '1' <= s[1] <= '9' then Some(DigitOf(s[1]))
    else None
  }

  /** `%d` as strptime reads it: `3[01]|[12]\d|0[1-9]|[1-9]| [1-9]`. */
  function DayField(s: string): Option<int>
  {
    if |s| == 1 && '1' <= s[0] <= '9' then Some(DigitOf(s[0]))
    else if |s| == 2 && s[0] == '3' && '0' <= s[1] <= '1' then Some(30 + DigitOf(s[1]))
    else if |s| == 2 && '1' <= s[0] <= '2' && Text.IsDigit(s[1]) then Some(10 * DigitOf(s[0]) + DigitOf(s[1]))
    else if |s| == 2 && (s[0] == '0' || s[0] == ' ') && '1' <= s[1] <= '9' then Some(DigitOf(s[1]))
    else None
  }

  /** `%y` maps 69..99 to 1969..1999 and 00..68 to 2000..2068. */
  function ExpandTwoDigitYear(n: nat): nat
  {
    if n <= 68 then n + 2000 else n + 1900
  }

  /** `%Y`: exactly four digits; `%y`: exactly two digits. */
  function YearField(s: string, fourDigits: bool): Option<int>
  {
    if !Text.AllDigits(s) then None
    else if fourDigits then (if |s| == 4 then Some(Text.DigitsValue(s)) else None)
    else if |s| == 2 then Some(ExpandTwoDigitYear(Text.DigitsValue(s)))
    else None
  }

  predicate IsLeapYear(y: int)
  {
    y % 4 == 0 && (y % 100 != 0 || y % 400 == 0)
  }

  function DaysInMonth(y: int, m: int): int
    requires 1 <= m <= 12
  {
    if m == 2 then (if IsLeapYear(y) then 29 else 28)
    else if m == 4 || m == 6 || m == 9 || m == 11 then 30
    else 31
  }

  /** A real calendar date in the range `datetime` accepts (years 1 to 9999). */
  predicate IsCalendarDate(y: int, m: int, d: int)
  {
    1 <= y <= 9999 && 1 <= m <= 12 && 1 <= d <= DaysInMonth(y, m)
  }

  /**
   * `datetime.strptime(val, '%m/%d/%Y')` (or `'%m/%d/%y'`): three fields
   * separated by `/`, no text left over, and a date that exists.
   */
  function Strptime(val: string, fourDigits: bool): Option<Date>
  {
    var parts := Text.Split(val, '/');
    if |parts| != 3 then None else DateOfFields(parts[0], parts[1], parts[2], fourDigits)
  }

  /** The date three separated fields spell, if they spell one. */
  function DateOfFields(ms: string, ds: string, ys: string, fourDigits: bool): Option<Date>
  {
    match (MonthField(ms), DayField(ds), YearField(ys, fourDigits))
    case (Some(m), Some(d), Some(y)) =>
      if IsCalendarDate(y, m, d) then Some(Date(y, m, d)) else None
    case _ => None
  }

  /** A string built from three `/`-free fields splits back into them. */
  lemma StrptimeOfFields(ms: string, ds: string, ys: string, fourDigits: bool)
    requires '/' !in ms && '/' !in ds && '/' !in ys
    ensures Strptime(ms + "/" + ds + "/" + ys, fourDigits) == DateOfFields(ms, ds, ys, fourDigits)
  {
    var val := ms + "/" + ds + "/" + ys;
    assert [ms, ds, ys][1..] == [ds, ys] && [ds, ys][1..] == [ys];
    assert Text.Join([ds, ys], '/') == ds + "/" + ys;
    assert val == Text.Join([ms, ds, ys], '/');
    Text.SplitJoin([ms, ds, ys], '/');
  }

  /**
   * `_validate_date(val)`: `val` itself when it parses as `mm/dd/yyyy` or,
   * failing that, as `mm/dd/yy`; otherwise an error naming the string.
   */
  function ValidateDate(val: string): (r: Result<string, string>)
    ensures r.Ok? ==> r.value == val
    ensures r.Err? ==> r.error == "SMBios date string '" + val + "' is invalid."
  {
    if Strptime(val, true).Some? then Ok(val)
    else if Strptime(val, false).Some? then Ok(val)
    else Err("SMBios date string '" + val + "' is invalid.")
  }

  /** The texts `%m` accepts for month `m`: two digits, or one digit for months below 10. */
  ghost predicate DenotesMonth(s: string, m: int)
  {
    1 <= m <= 12 &&
    (s == [DigitChar(m / 10), DigitChar(m % 10)] || (m <= 9 && s == [DigitChar(m)]))
  }

  /** The texts `%d` accepts for day `d`: two digits, or one digit (bare or after a space) below 10. */
  ghost predicate DenotesDay(s: string, d: int)
  {
    1 <= d <= 31 &&
    (s == [DigitChar(d / 10), DigitChar(d % 10)] ||
     (d <= 9 && (s == [DigitChar(d)] || s == [' ', DigitChar(d)])))
  }

  lemma MonthFieldSpec(s: string, m: int)
    ensures MonthField(s) == Some(m) <==> DenotesMonth(s, m)
  {
  }

  lemma DayFieldSpec(s: string, d: int)
    ensures DayField(s) == Some(d) <==> DenotesDay(s, d)
  {
  }

  /** The year a `%Y` or `%y` field denotes. */
  ghost predicate DenotesYear(s: string, y: int)
  {
    Text.AllDigits(s) &&
    ((|s| == 4 && y == Text.DigitsValue(s)) ||
     (|s| == 2 && y == ExpandTwoDigitYear(Text.DigitsValue(s))))
  }

  /**
   * A date string with fields `ms`, `ds`, `ys` passes the validator exactly
   * when the fields spell a month, a day and a four- or two-digit year that
   * together make a real calendar date.
   */
  lemma {:induction false} ValidateDateSpec(ms: string, ds: string, ys: string)
    requires '/' !in ms && '/' !in ds && '/' !in ys
    ensures ValidateDate(ms + "/" + ds + "/" + ys).Ok? <==>
      exists m, d, y :: DenotesMonth(ms, m) && DenotesDay(ds, d) && DenotesYear(ys, y) &&
        IsCalendarDate(y, m, d)
  {
    var val := ms + "/" + ds + "/" + ys;
    StrptimeOfFields(ms, ds, ys, true);
    StrptimeOfFields(ms, ds, ys, false);
    if ValidateDate(val).Ok? {
      var four := Strptime(val, true).Some?;
      var dt := if four then Strptime(val, true).value else Strptime(val, false).value;
      MonthFieldSpec(ms, dt.month);
      DayFieldSpec(ds, dt.day);
      assert DenotesYear(ys, dt.year);
    }
    if exists m, d, y :: DenotesMonth(ms, m) && DenotesDay(ds, d) && DenotesYear(ys, y) &&
        IsCalendarDate(y, m, d) {
      var m, d, y :| DenotesMonth(ms, m) && DenotesDay(ds, d) && DenotesYear(ys, y) &&
        IsCalendarDate(y, m, d);
      MonthFieldSpec(ms, m);
      DayFieldSpec(ds, d);
      assert YearField(ys, |ys| == 4) == Some(y);
      assert DateOfFields(ms, ds, ys, |ys| == 4) == Some(Date(y, m, d));
    }
  }

  /** A string that is not three `/`-separated fields is rejected. */
  lemma ValidateDateShape(val: string)
    requires |Text.Split(val, '/')| != 3
    ensures ValidateDate(val).Err?
  {
  }

  // ---------------------------------------------------------------------------
  // The record

  /**
   * A `DomainSysinfo` object. Its state is the backing document: the text at
   * each place that has been written (or was parsed).
   */
  class DomainSysinfo {
    var doc: map<Target, string>

    /** A fresh object with no XML behind it. */
    constructor ()
      ensures doc == map[]
    {
      doc := map[];
    }

    /** An object over an already parsed document. */
    constructor FromDocument(parsed: map<Target, string>)
      ensures doc == parsed
    {
      doc := parsed;
    }

    /** Reading a property: its text, or nothing when the place is absent. */
    function Get(f: Field): Option<string>
      reads this
    {
      Lookup(doc, f)
    }

    /**
     * Writing a property. Only `bios_date` has a validator; it runs first, and
     * a rejected value leaves the document as it was. Every other write succeeds.
     */
    method Set(f: Field, v: string) returns (err: Option<string>)
      modifies this
      ensures err.Some? <==> f == BiosDate && ValidateDate(v).Err?
      ensures err.Some? ==> err.value == ValidateDate(v).error && doc == old(doc)
      ensures err.None? ==> doc == old(doc)[TargetOf(f) := v] && Get(f) == Some(v)
      ensures forall g :: g != f ==> Get(g) == old(Get(g))
    {
      if f == BiosDate {
        var checked := ValidateDate(v);
        if checked.Err? {
          return Some(checked.error);
        }
      }
      doc := doc[TargetOf(f) := v];
      err := None;
      forall g | g != f
        ensures Get(g) == old(Get(g))
      {
        TargetsDistinct(g, f);
      }
    }

    /** The nodes the object renders, in `_XML_PROP_ORDER`. */
    function Serialize(): seq<Emitted>
      reads this
    {
      SerializeDoc(doc)
    }
  }

  // ---------------------------------------------------------------------------
  // Dates
  //
  // The example dates are written as their three fields joined by "/", the
  // form `StrptimeOfFields` splits; a whole literal would cost the verifier a
  // character-by-character split first.

  /** 02/29 exists in 2020 and in 2000, written 00. */
  lemma LeapDayAccepted()
    ensures ValidateDate("02" + "/" + "29" + "/" + "2020").Ok?
    ensures ValidateDate("02" + "/" + "29" + "/" + "00").Ok?
  {
    StrptimeOfFields("02", "29", "2020", true);
    Text.DigitsValue4("2020");
    StrptimeOfFields("02", "29", "00", true);
    StrptimeOfFields("02", "29", "00", false);
    Text.DigitsValue2("00");
  }

  /** 02/29 does not exist in a common year: 2019. */
  lemma LeapDayRejected()
    ensures ValidateDate("02" + "/" + "29" + "/" + "2019").Err?
  {
    StrptimeOfFields("02", "29", "2019", true);
    StrptimeOfFields("02", "29", "2019", false);
    Text.DigitsValue4("2019");
  }

  /** 02/29 does not exist in a century year not divisible by 400: 1900. */
  lemma CenturyLeapDayRejected()
    ensures ValidateDate("02" + "/" + "29" + "/" + "1900").Err?
  {
    StrptimeOfFields("02", "29", "1900", true);
    StrptimeOfFields("02", "29", "1900", false);
    Text.DigitsValue4("1900");
  }

  /** A two-digit year above 68 is in the 1900s: 02/29/69 is 1969, not a leap year. */
  lemma TwoDigitLeapDayRejected()
    ensures ValidateDate("02" + "/" + "29" + "/" + "69").Err?
  {
    StrptimeOfFields("02", "29", "69", true);
    StrptimeOfFields("02", "29", "69", false);
    Text.DigitsValue2("69");
  }

  /** A day past the end of its month is rejected: 02/30/2020, 04/31/2020. */
  lemma MonthEndRejected()
    ensures ValidateDate("02" + "/" + "30" + "/" + "2020").Err?
    ensures ValidateDate("04" + "/" + "31" + "/" + "2020").Err?
  {
    StrptimeOfFields("02", "30", "2020", true);
    StrptimeOfFields("02", "30", "2020", false);
    StrptimeOfFields("04", "31", "2020", true);
    StrptimeOfFields("04", "31", "2020", false);
  }
}
