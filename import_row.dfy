/**
 * `importRow`: turns one CSV row into a created or updated record.
 *
 * The record store, the ACL check, the duplicate check and the save are
 * foreign calls; a Store value answers them for the row being imported. The
 * entity is a Record value that the method updates column by column, as the
 * source updates its entity object.
 */
module ImportRows {
  import opened Wrappers
  import opened PhpStrings
  import opened Coerce
  import opened PersonNames

  /** One entry of the import attribute list: Removed after `unset`, otherwise the attribute name ("" for null). */
  datatype Column = Removed | Mapped(name: string)

  /** `!empty($attribute)`. */
  predicate IsAttribute(c: Column) {
    c.Mapped? && !PhpEmpty(c.name)
  }

  /** `count($importAttributeList)`: the entries `unset` has not removed. */
  function MappedCount(cols: seq<Column>): (n: nat)
    ensures n <= |cols|
    ensures n == 0 <==> forall i :: 0 <= i < |cols| ==> cols[i] == Removed
  {
    if cols == [] then 0
    else MappedCount(cols[..|cols| - 1]) + (if cols[|cols| - 1].Mapped? then 1 else 0)
  }

  datatype EmailEntry = EmailEntry(emailAddress: string, primary: bool)
  datatype PhoneEntry = PhoneEntry(phoneNumber: string, kind: Option<string>, primary: bool)

  /** An entity: its id, its attribute values, and its emailAddressData and phoneNumberData lists. */
  datatype Record = Record(id: Option<string>, attrs: map<string, Value>, emails: seq<EmailEntry>, phones: seq<PhoneEntry>)

  /**
   * What importRow reads from the entity definitions and the metadata: the
   * attribute definitions, the type of each field, whether phoneNumber is a
   * 'phone' field and its type list, and the fields of type 'currency'.
   */
  datatype Schema = Schema(attributes: map<string, AttrDef>, fieldTypes: map<string, string>,
                           phoneNumberIsPhone: bool, phoneTypeList: seq<string>, currencyFields: seq<string>)

  /** The import parameters; an absent setting is None. */
  datatype Params = Params(
    action: Option<string>,
    updateBy: seq<nat>,
    defaultValues: map<string, Value>,
    personNameFormat: Option<string>,
    parse: ParseOptions,
    currency: Option<string>,
    skipDuplicateChecking: bool,
    delimiter: Option<string>,
    textQualifier: Option<string>,
    headerRow: bool,
    idleMode: bool,
    manualMode: bool,
    startFromLastIndex: bool)

  /**
   * The answers of the foreign calls for one row: the record a where clause
   * finds, whether the user may edit it, a new entity, the duplicate check,
   * whether saving succeeds, the id a save gives a record without one, and
   * the configured default currency.
   */
  datatype Store = Store(
    find: map<string, Option<string>> -> Option<Record>,
    canEdit: Record -> bool,
    newEntity: Record,
    isDuplicate: Record -> bool,
    saves: Record -> bool,
    generatedId: string,
    defaultCurrency: Option<string>)

  /** null, or the result object: the id, when the save succeeded, and the three flags. */
  datatype RowResult = Skipped | Done(id: Option<string>, isImported: bool, isUpdated: bool, isDuplicate: bool)

  // ---------------------------------------------------------------------------
  // Choosing the record
  // ---------------------------------------------------------------------------

  /** The action: the parameter when it is not PHP-empty, otherwise 'create'. */
  function ActionOf(params: Params): string {
    if params.action.Some? && !PhpEmpty(params.action.value) then params.action.value else "create"
  }

  predicate IsUpdateAction(action: string) {
    action == "createAndUpdate" || action == "update"
  }

  /** `$row[$i]`: the cell, or null when the row has no such column. */
  function Cell(row: map<nat, string>, i: nat): Option<string> {
    if i in row then Some(row[i]) else None
  }

  /** The update-by attributes found so far and the where clause built from them. */
  datatype Lookup = Lookup(count: nat, where: map<string, Option<string>>)

  /** The updateBy loop over the first entries of updateBy. */
  function LookupOf(cols: seq<Column>, row: map<nat, string>, updateBy: seq<nat>): Lookup {
    if updateBy == [] then Lookup(0, map[])
    else
      var l := LookupOf(cols, row, updateBy[..|updateBy| - 1]);
      var i := updateBy[|updateBy| - 1];
      if i < |cols| && cols[i].Mapped? then Lookup(l.count + 1, l.where[cols[i].name := Cell(row, i)]) else l
  }

  /** No update-by attribute is found exactly when no updateBy index names a column still in the list. */
  lemma {:induction false} LookupCount(cols: seq<Column>, row: map<nat, string>, updateBy: seq<nat>)
    ensures LookupOf(cols, row, updateBy).count == 0 <==>
      forall j :: 0 <= j < |updateBy| ==> !(updateBy[j] < |cols| && cols[updateBy[j]].Mapped?)
    decreases |updateBy|
  {
    if updateBy != [] {
      var u := updateBy[..|updateBy| - 1];
      LookupCount(cols, row, u);
      assert forall j :: 0 <= j < |u| ==> u[j] == updateBy[j];
    }
  }

  /** Every column the where clause names is an update-by column, with its cell. */
  lemma {:induction false} LookupWhere(cols: seq<Column>, row: map<nat, string>, updateBy: seq<nat>)
    ensures forall a :: a in LookupOf(cols, row, updateBy).where ==>
      exists j :: 0 <= j < |updateBy| && updateBy[j] < |cols| && cols[updateBy[j]] == Mapped(a)
                  && LookupOf(cols, row, updateBy).where[a] == Cell(row, updateBy[j])
    decreases |updateBy|
  {
    if updateBy != [] {
      var u := updateBy[..|updateBy| - 1];
      LookupWhere(cols, row, u);
      var n := |updateBy| - 1;
      forall a | a in LookupOf(cols, row, updateBy).where
        ensures exists j :: 0 <= j < |updateBy| && updateBy[j] < |cols| && cols[updateBy[j]] == Mapped(a)
                  && LookupOf(cols, row, updateBy).where[a] == Cell(row, updateBy[j])
      {
        var i := updateBy[n];
        if i < |cols| && cols[i].Mapped? && cols[i].name == a {
          assert updateBy[n] == i;
        } else {
          var j :| 0 <= j < |u| && u[j] < |cols| && cols[u[j]] == Mapped(a)
                   && LookupOf(cols, row, u).where[a] == Cell(row, u[j]);
          assert updateBy[j] == u[j];
        }
      }
    }
  }

  /** The record the row is written to, and whether it is new; NoTarget makes importRow return null. */
  datatype Target = NoTarget | Target(rec: Record, isNew: bool)

  function TargetOf(action: string, lookup: Lookup, isAdmin: bool, store: Store): Target {
    if IsUpdateAction(action) then
      if lookup.count == 0 then NoTarget
      else match store.find(lookup.where)
        case Some(found) => if !isAdmin && !store.canEdit(found) then NoTarget else Target(found, false)
        case None =>
          if action == "createAndUpdate" then
            Target(if "id" in lookup.where then store.newEntity.(id := lookup.where["id"]) else store.newEntity, true)
          else NoTarget
    else Target(store.newEntity, true)
  }

  /** `$entity->set($params['defaultValues'])` when the default values are not empty. */
  function WithDefaults(rec: Record, params: Params): Record {
    if params.defaultValues == map[] then rec else rec.(attrs := rec.attrs + params.defaultValues)
  }

  // ---------------------------------------------------------------------------
  // Applying the columns
  // ---------------------------------------------------------------------------

  /** `$valueMap`: the cell of every attribute column present in the row, a later column winning. */
  function ValueMapOf(cols: seq<Column>, row: map<nat, string>): map<string, string> {
    if cols == [] then map[]
    else
      var m := ValueMapOf(cols[..|cols| - 1], row);
      var i := |cols| - 1;
      if IsAttribute(cols[i]) && i in row then m[cols[i].name := row[i]] else m
  }

  /** `$valueMap->$name`, null read as "". */
  function MappedCell(valueMap: map<string, string>, name: string): string {
    if name in valueMap then valueMap[name] else ""
  }

  function Get(attrs: map<string, Value>, name: string): Option<Value> {
    if name in attrs then Some(attrs[name]) else None
  }

  /**
   * PHP truthiness of an attribute value (an unset attribute is null). A
   * Number, date or decoded JSON value is taken as truthy, since what it
   * evaluates to is not modelled.
   */
  predicate Truthy(v: Option<Value>) {
    match v
    case None => false
    case Some(NullValue) => false
    case Some(Boolean(b)) => b
    case Some(Integer(i)) => i != 0
    case Some(Text(s)) => !PhpEmpty(s)
    case Some(Items(items)) => items != []
    case Some(_) => true
  }

  /** `ucfirst` on an ASCII letter. */
  function UcFirst(s: string): (r: string)
    ensures |r| == |s|
  {
    if s == [] then [] else [if 'a' <= s[0] <= 'z' then (s[0] as int - 32) as char else s[0]] + s[1..]
  }

  /** `prepareAttributeValue` for an attribute name: values of names that are not attributes pass unchanged. */
  function PrepareFor(schema: Schema, name: string, value: string): (r: string)
    ensures |r| <= |value|
  {
    if name in schema.attributes then PrepareAttributeValue(schema.attributes[name], value) else value
  }

  datatype Context = Context(schema: Schema, params: Params, valueMap: map<string, string>)

  /** Sets a name part only when the attribute is not set to a truthy value and the part exists. */
  function SetIfUnset(rec: Record, name: string, part: Option<string>, schema: Schema): Record {
    if !Truthy(Get(rec.attrs, name)) && part.Some? then
      rec.(attrs := rec.attrs[name := Text(PrepareFor(schema, name, part.value))])
    else rec
  }

  /** A personName column fills first, last and middle name, each only where unset. */
  function ApplyPersonName(rec: Record, attr: string, value: string, ctx: Context): Record {
    var parts := ParsePersonName(value, ctx.params.personNameFormat);
    var r1 := SetIfUnset(rec, "first" + UcFirst(attr), parts.firstName, ctx.schema);
    var r2 := SetIfUnset(r1, "last" + UcFirst(attr), Some(parts.lastName), ctx.schema);
    SetIfUnset(r2, "middle" + UcFirst(attr), parts.middleName, ctx.schema)
  }

  /** A column naming an attribute of the entity. */
  function ApplyAttribute(rec: Record, attr: string, value: string, ctx: Context): Record
    requires attr in ctx.schema.attributes
  {
    var def := ctx.schema.attributes[attr];
    var fieldType := if attr in ctx.schema.fieldTypes then Some(ctx.schema.fieldTypes[attr]) else None;
    if value != "" && attr == "emailAddress" && fieldType == Some("email") then
      rec.(emails := rec.emails + [EmailEntry(value, true)])
    else if value != "" && attr == "phoneNumber" && fieldType == Some("phone") then
      rec.(phones := rec.phones + [PhoneEntry(value, None, true)])
    else if value != "" && fieldType == Some("personName") then
      ApplyPersonName(rec, attr, value, ctx)
    else if value == "" && def.kind != Bool then
      rec
    else
      rec.(attrs := rec.attrs[attr := ParseValue(def, value, ctx.params.parse)])
  }

  /** The typed phone column for a phone type: 'phoneNumber' + ucfirst(type) with spaces as '_'. */
  function PhoneFieldName(kind: string): string {
    "phoneNumber" + ReplaceAll(UcFirst(kind), " ", "_")
  }

  /** The phone type a typed phone column stands for. */
  function PhoneTypeOf(attr: string): string {
    ReplaceAll(ReplaceAll(attr, "phoneNumber", ""), "_", " ")
  }

  function PhoneFieldNames(kinds: seq<string>): (r: seq<string>)
    ensures |r| == |kinds| && forall k :: 0 <= k < |kinds| ==> r[k] == PhoneFieldName(kinds[k])
  {
    if kinds == [] then [] else [PhoneFieldName(kinds[0])] + PhoneFieldNames(kinds[1..])
  }

  /** `$phoneFieldList`: empty unless phoneNumber is an attribute of field type 'phone'. */
  function PhoneFields(schema: Schema): seq<string> {
    if "phoneNumber" in schema.attributes && schema.phoneNumberIsPhone then PhoneFieldNames(schema.phoneTypeList) else []
  }

  /** emailAddress2, emailAddress3 and emailAddress4 (in any digit spelling of 2 to 4), when the entity has email addresses. */
  predicate IsAltEmail(attr: string, schema: Schema) {
    |attr| > 12 && attr[..12] == "emailAddress" &&
    "emailAddress" in schema.attributes && "emailAddressData" in schema.attributes &&
    IsDigits(attr[12..]) && 2 <= DigitsValue(attr[12..]) <= 4
  }

  /** A column naming no attribute: a typed phone number or an alternative email address. */
  function ApplyExtra(rec: Record, attr: string, value: string, ctx: Context): Record {
    var r1 :=
      if attr in PhoneFields(ctx.schema) && !PhpEmpty(value) then
        var primary := rec.phones == [] && PhpEmpty(MappedCell(ctx.valueMap, "phoneNumber"));
        rec.(phones := rec.phones + [PhoneEntry(value, Some(PhoneTypeOf(attr)), primary)])
      else rec;
    if IsAltEmail(attr, ctx.schema) && !PhpEmpty(value) then
      var primary := r1.emails == [] && PhpEmpty(MappedCell(ctx.valueMap, "emailAddress"));
      r1.(emails := r1.emails + [EmailEntry(value, primary)])
    else r1
  }

  /** The effect of column i. */
  function ApplyColumn(rec: Record, col: Column, i: nat, row: map<nat, string>, ctx: Context): Record {
    if !IsAttribute(col) || i !in row then rec
    else if col.name == "id" then
      if ctx.params.action == Some("create") then rec.(id := Some(row[i])) else rec
    else if col.name in ctx.schema.attributes then ApplyAttribute(rec, col.name, row[i], ctx)
    else ApplyExtra(rec, col.name, row[i], ctx)
  }

  /** The columns loop after its first k iterations. */
  function ApplyFirst(rec: Record, cols: seq<Column>, k: nat, row: map<nat, string>, ctx: Context): Record
    requires k <= |cols|
  {
    if k == 0 then rec else ApplyColumn(ApplyFirst(rec, cols, k - 1, row, ctx), cols[k - 1], k - 1, row, ctx)
  }

  // ---------------------------------------------------------------------------
  // Currency, saving and the whole row
  // ---------------------------------------------------------------------------

  /** The currency for backfilling: the parameter when not PHP-empty, otherwise the configured default. */
  function CurrencyValue(params: Params, store: Store): Value {
    if params.currency.Some? && !PhpEmpty(params.currency.value) then Text(params.currency.value)
    else if store.defaultCurrency.Some? then Text(store.defaultCurrency.value)
    else NullValue
  }

  function BackfillOne(rec: Record, field: string, currency: Value): Record {
    if field in rec.attrs && !Truthy(Get(rec.attrs, field + "Currency")) then
      rec.(attrs := rec.attrs[field + "Currency" := currency])
    else rec
  }

  /** The currency loop after its first k fields. */
  function BackfillFirst(rec: Record, fields: seq<string>, k: nat, currency: Value): Record
    requires k <= |fields|
  {
    if k == 0 then rec else BackfillOne(BackfillFirst(rec, fields, k - 1, currency), fields[k - 1], currency)
  }

  /** The id after saving: the record's own when truthy, otherwise the one the save generates. */
  function SavedId(rec: Record, store: Store): string {
    if rec.id.Some? && !PhpEmpty(rec.id.value) then rec.id.value else store.generatedId
  }

  /** The result object: a failed save leaves it empty (and truthy). */
  function Outcome(rec: Record, isNew: bool, params: Params, store: Store): RowResult {
    var duplicate := isNew && !params.skipDuplicateChecking && store.isDuplicate(rec);
    if store.saves(rec) then Done(Some(SavedId(rec, store)), isNew, !isNew, duplicate)
    else Done(None, false, false, false)
  }

  /** The record importRow saves for a row, starting from its target. */
  function Prepared(rec0: Record, cols: seq<Column>, row: map<nat, string>, params: Params, schema: Schema, store: Store): Record {
    var rec1 := WithDefaults(rec0, params);
    var ctx := Context(schema, params, ValueMapOf(cols, row));
    var rec2 := ApplyFirst(rec1, cols, |cols|, row, ctx);
    BackfillFirst(rec2, schema.currencyFields, |schema.currencyFields|, CurrencyValue(params, store))
  }

  /** What `importRow` returns for a row. */
  function ImportRowSpec(cols: seq<Column>, row: map<nat, string>, params: Params, isAdmin: bool,
                         schema: Schema, store: Store): RowResult
  {
    if MappedCount(cols) == 0 then Skipped
    else match TargetOf(ActionOf(params), LookupOf(cols, row, params.updateBy), isAdmin, store)
      case NoTarget => Skipped
      case Target(rec0, isNew) => Outcome(Prepared(rec0, cols, row, params, schema, store), isNew, params, store)
  }

  /** `importRow`. */
  method ImportRow(cols: seq<Column>, row: map<nat, string>, params: Params, isAdmin: bool,
                   schema: Schema, store: Store) returns (r: RowResult)
    ensures r == ImportRowSpec(cols, row, params, isAdmin, schema, store)
  {
    var action := "create";
    if params.action.Some? && !PhpEmpty(params.action.value) {
      action := params.action.value;
    }
    if MappedCount(cols) == 0 {
      return Skipped;
    }
    var target := Target(store.newEntity, true);
    if action == "createAndUpdate" || action == "update" {
      var count, where := UpdateByLoop(cols, row, params.updateBy);
      target := TargetOf(action, Lookup(count, where), isAdmin, store);
      if target.NoTarget? {
        return Skipped;
      }
    }
    assert target == TargetOf(ActionOf(params), LookupOf(cols, row, params.updateBy), isAdmin, store);
    var rec := PrepareRecord(target.rec, cols, row, params, schema, store);
    r := Save(rec, target.isNew, params, store);
  }

  /** Default values, the columns and the currency backfill, applied to the target record. */
  method PrepareRecord(rec0: Record, cols: seq<Column>, row: map<nat, string>, params: Params, schema: Schema, store: Store)
    returns (rec: Record)
    ensures rec == Prepared(rec0, cols, row, params, schema, store)
  {
    rec := rec0;
    if params.defaultValues != map[] {
      rec := rec.(attrs := rec.attrs + params.defaultValues);
    }
    var valueMap := ValueMapLoop(cols, row);
    rec := ColumnsLoop(rec, cols, row, Context(schema, params, valueMap));
    rec := CurrencyLoop(rec, schema.currencyFields, CurrencyValue(params, store));
  }

  /** The duplicate check and the save, inside the try block. */
  method Save(rec: Record, isNew: bool, params: Params, store: Store) returns (r: RowResult)
    ensures r == Outcome(rec, isNew, params, store)
  {
    var duplicate := false;
    if isNew && !params.skipDuplicateChecking {
      duplicate := store.isDuplicate(rec);
    }
    if store.saves(rec) {
      r := Done(Some(SavedId(rec, store)), isNew, !isNew, duplicate);
    } else {
      r := Done(None, false, false, false);
    }
  }

  /** The `foreach ($params['updateBy'] as $i)` loop. */
  method UpdateByLoop(cols: seq<Column>, row: map<nat, string>, updateBy: seq<nat>)
    returns (count: nat, where: map<string, Option<string>>)
    ensures Lookup(count, where) == LookupOf(cols, row, updateBy)
  {
    count, where := 0, map[];
    var j := 0;
    while j < |updateBy|
      invariant 0 <= j <= |updateBy|
      invariant Lookup(count, where) == LookupOf(cols, row, updateBy[..j])
    {
      assert updateBy[..j + 1][..j] == updateBy[..j];
      var i := updateBy[j];
      if i < |cols| && cols[i].Mapped? {
        count := count + 1;
        where := where[cols[i].name := Cell(row, i)];
      }
      j := j + 1;
    }
    assert updateBy[..j] == updateBy;
  }

  /** The loop that fills `$valueMap`. */
  method ValueMapLoop(cols: seq<Column>, row: map<nat, string>) returns (valueMap: map<string, string>)
    ensures valueMap == ValueMapOf(cols, row)
  {
    valueMap := map[];
    var i := 0;
    while i < |cols|
      invariant 0 <= i <= |cols|
      invariant valueMap == ValueMapOf(cols[..i], row)
    {
      assert cols[..i + 1][..i] == cols[..i];
      if IsAttribute(cols[i]) && i in row {
        valueMap := valueMap[cols[i].name := row[i]];
      }
      i := i + 1;
    }
    assert cols[..i] == cols;
  }

  /** The loop that applies the columns to the entity. */
  method ColumnsLoop(rec0: Record, cols: seq<Column>, row: map<nat, string>, ctx: Context) returns (rec: Record)
    ensures rec == ApplyFirst(rec0, cols, |cols|, row, ctx)
  {
    rec := rec0;
    var i := 0;
    while i < |cols|
      invariant 0 <= i <= |cols|
      invariant rec == ApplyFirst(rec0, cols, i, row, ctx)
    {
      rec := ApplyColumn(rec, cols[i], i, row, ctx);
      i := i + 1;
    }
  }

  /** The loop over the currency fields. */
  method CurrencyLoop(rec0: Record, fields: seq<string>, currency: Value) returns (rec: Record)
    ensures rec == BackfillFirst(rec0, fields, |fields|, currency)
  {
    rec := rec0;
    var k := 0;
    while k < |fields|
      invariant 0 <= k <= |fields|
      invariant rec == BackfillFirst(rec0, fields, k, currency)
    {
      var field := fields[k];
      if field in rec.attrs && !Truthy(Get(rec.attrs, field + "Currency")) {
        rec := rec.(attrs := rec.attrs[field + "Currency" := currency]);
      }
      k := k + 1;
    }
  }
}
