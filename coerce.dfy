/**
 * `parseValue` and `prepareAttributeValue`: how a raw CSV cell becomes the
 * value stored in an attribute, according to the attribute's type and the
 * import's number, date and time settings.
 */
module Coerce {
  import opened Wrappers
  import opened PhpStrings

  /** The attribute types `parseValue` distinguishes; every other type is OtherType. */
  datatype AttrType = Date | DateTime | Float | Int | Bool | JsonObject | JsonArray | Varchar | OtherType

  /** An attribute's definition: its type and its `len` parameter, 0 when it has none. */
  datatype AttrDef = AttrDef(kind: AttrType, len: nat)

  /**
   * A stored value. Number, DateValue, DateTimeValue and JsonValue stand for
   * what `floatval`, `DateTime::createFromFormat` and the JSON decoder make
   * of the text under the given format; their evaluation is not modelled.
   */
  datatype Value =
    | NullValue
    | Boolean(b: bool)
    | Integer(i: int)
    | Text(s: string)
    | Number(text: string)
    | DateValue(format: string, text: string)
    | DateTimeValue(format: string, text: string, timezone: string)
    | JsonValue(json: string)
    | Items(items: seq<string>)

  /** The import settings `parseValue` reads: an absent setting is None. */
  datatype ParseOptions = ParseOptions(decimalMark: Option<string>, dateFormat: Option<string>,
                                       timeFormat: Option<string>, timezone: Option<string>)

  /** The user-facing date formats and their PHP `DateTime` equivalents. */
  function DateFormats(): map<string, string> {
    map[
      "YYYY-MM-DD" := "Y-m-d",
      "DD-MM-YYYY" := "d-m-Y",
      "MM-DD-YYYY" := "m-d-Y",
      "MM/DD/YYYY" := "m/d/Y",
      "DD/MM/YYYY" := "d/m/Y",
      "DD.MM.YYYY" := "d.m.Y",
      "MM.DD.YYYY" := "m.d.Y",
      "YYYY.MM.DD" := "Y.m.d"
    ]
  }

  /** The user-facing time formats and their PHP `DateTime` equivalents. */
  function TimeFormats(): map<string, string> {
    map[
      "HH:mm" := "H:i",
      "HH:mm:ss" := "H:i:s",
      "hh:mm a" := "h:i a",
      "hh:mma" := "h:ia",
      "hh:mm A" := "h:iA",
      "hh:mmA" := "h:iA"
    ]
  }

  /** The format a setting selects from table, or the fallback when the setting is empty or unknown. */
  function FormatFor(table: map<string, string>, setting: Option<string>, fallback: string): (r: string)
    ensures r == fallback || r in table.Values
  {
    if setting.Some? && !PhpEmpty(setting.value) && setting.value in table && !PhpEmpty(table[setting.value])
    then table[setting.value] else fallback
  }

  function DateFormat(opts: ParseOptions): string {
    FormatFor(DateFormats(), opts.dateFormat, "Y-m-d")
  }

  function TimeFormat(opts: ParseOptions): string {
    FormatFor(TimeFormats(), opts.timeFormat, "H:i")
  }

  /** A known key selects its own format. */
  lemma KnownFormat(table: map<string, string>, key: string, fallback: string)
    requires key in table && !PhpEmpty(key) && !PhpEmpty(table[key])
    ensures FormatFor(table, Some(key), fallback) == table[key]
  {
  }

  /** An unknown key, or none, selects the fallback. */
  lemma UnknownFormat(table: map<string, string>, setting: Option<string>, fallback: string)
    requires setting.None? || setting.value !in table
    ensures FormatFor(table, setting, fallback) == fallback
  {
  }

  /** Every key and every format of the two tables is a non-empty string other than "0", so every key selects its own format. */
  lemma TablesHaveNoEmptyEntries()
    ensures forall k :: k in DateFormats() ==> !PhpEmpty(k) && !PhpEmpty(DateFormats()[k])
    ensures forall k :: k in TimeFormats() ==> !PhpEmpty(k) && !PhpEmpty(TimeFormats()[k])
  {
  }

  /** The decimal mark: the setting when it is not PHP-empty, otherwise '.'. */
  function DecimalMark(opts: ParseOptions): (m: string)
    ensures m != []
  {
    if opts.decimalMark.Some? && !PhpEmpty(opts.decimalMark.value) then opts.decimalMark.value else "."
  }

  /** The characters `preg_replace('/[^A-Za-z0-9\-]/', '', ...)` keeps. */
  predicate IsNumberChar(c: char) {
    'A' <= c <= 'Z' || 'a' <= c <= 'z' || '0' <= c <= '9' || c == '-'
  }

  /** s with every character other than a letter, a digit or '-' removed. */
  function StripNumber(s: string): (r: string)
    ensures |r| <= |s|
    ensures forall k :: 0 <= k < |r| ==> IsNumberChar(r[k])
  {
    if s == [] then []
    else (if IsNumberChar(s[0]) then [s[0]] else []) + StripNumber(s[1..])
  }

  /** Stripping removes nothing from a string made only of kept characters. */
  lemma {:induction false} StripNumberKeeps(s: string)
    requires forall k :: 0 <= k < |s| ==> IsNumberChar(s[k])
    ensures StripNumber(s) == s
  {
    if s != [] {
      StripNumberKeeps(s[1..]);
      assert [s[0]] + s[1..] == s;
    }
  }

  /**
   * The text handed to `floatval`: the cell split at the decimal mark, the
   * part before it stripped to letters, digits and '-', and the part after
   * it (up to a second mark) appended after a '.'.
   */
  function FloatText(value: string, mark: string): string
    requires mark != []
  {
    var a := Explode(value, mark);
    var head := StripNumber(a[0]);
    if |a| > 1 then head + "." + a[1] else head
  }

  /** A cell with one decimal mark m becomes the stripped integer part, '.', and the fraction. */
  lemma FloatTextOneMark(x: string, m: char, y: string)
    requires forall k :: 0 <= k < |x| ==> x[k] != m
    requires forall k :: 0 <= k < |y| ==> y[k] != m
    ensures FloatText(x + [m] + y, [m]) == StripNumber(x) + "." + y
  {
    ExplodeOnce(x, m, y);
  }

  /** With ',' as decimal mark, "1.234,56" is read as 1234.56: the '.' grouping is stripped. */
  lemma ThousandsGrouping()
    ensures FloatText("1.234,56", ",") == "1234.56"
  {
    assert "1.234,56" == "1.234" + [','] + "56";
    FloatTextOneMark("1.234", ',', "56");
    assert StripNumber("1.234") == "1234";
  }

  /** `$value && strtolower($value) !== 'false' && $value !== '0'`. */
  function BoolOf(value: string): bool {
    !(value == "" || value == "0" || ToLower(value) == "false")
  }

  /** The boolean reading ignores letter case. */
  lemma BoolIgnoresCase(value: string)
    ensures BoolOf(ToLower(value)) == BoolOf(value)
  {
    ToLowerIdempotent(value);
    if ToLower(value) == "0" {
      assert LowerChar(value[0]) == '0';
      assert value == "0";
    }
  }

  /** A cell reads as false exactly when it is "", "0" or some casing of "false". */
  lemma FalseSpellings(value: string)
    ensures !BoolOf(value) <==> value == "" || value == "0" || ToLower(value) == "false"
  {
  }

  /** A jsonArray cell: null when empty, decoded when it starts with '[', otherwise the comma-separated pieces. */
  function JsonArrayValue(value: string): (r: Value)
    ensures r == NullValue <==> value == ""
  {
    if value == "" then NullValue
    else if value[0] == '[' then JsonValue(value)
    else Items(Explode(value, ","))
  }

  /** The comma-separated pieces of a jsonArray cell contain no comma and join back to the cell. */
  lemma JsonArrayPieces(value: string)
    requires value != "" && value[0] != '['
    ensures JsonArrayValue(value).Items?
    ensures Implode(JsonArrayValue(value).items, ",") == value
    ensures forall i, k :: 0 <= i < |JsonArrayValue(value).items| && 0 <= k < |JsonArrayValue(value).items[i]| ==>
      JsonArrayValue(value).items[i][k] != ','
  {
    ImplodeExplode(value, ",");
    ExplodePiecesFree(value, ',');
  }

  /** `prepareAttributeValue`: a varchar with a `len` is cut to that many characters. */
  function PrepareAttributeValue(def: AttrDef, value: string): (r: string)
    ensures |r| <= |value| && r == value[..|r|]
    ensures def.kind == Varchar && def.len > 0 ==> |r| <= def.len
    ensures |r| < |value| ==> def.kind == Varchar && def.len > 0 && |r| == def.len
  {
    if def.kind == Varchar && def.len > 0 && |value| > def.len then value[..def.len] else value
  }

  /** Preparing a prepared value changes nothing. */
  lemma PrepareIdempotent(def: AttrDef, value: string)
    ensures PrepareAttributeValue(def, PrepareAttributeValue(def, value)) == PrepareAttributeValue(def, value)
  {
  }

  /** `parseValue`: the value a cell gives an attribute of the given definition. */
  function ParseValue(def: AttrDef, value: string, opts: ParseOptions): (r: Value)
    ensures r.Text? <==> def.kind in {Varchar, OtherType}
    ensures r.Text? ==> r.s == PrepareAttributeValue(def, value)
    ensures def.kind == Bool ==> r.Boolean?
  {
    match def.kind
    case Date => DateValue(DateFormat(opts), value)
    case DateTime =>
      DateTimeValue(DateFormat(opts) + " " + TimeFormat(opts), value,
                    if opts.timezone.Some? then opts.timezone.value else "UTC")
    case Float => Number(FloatText(value, DecimalMark(opts)))
    case Int => Integer(IntVal(value))
    case Bool => Boolean(BoolOf(value))
    case JsonObject => JsonValue(value)
    case JsonArray => JsonArrayValue(value)
    case _ => Text(PrepareAttributeValue(def, value))
  }
}
