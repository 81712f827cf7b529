/** What `importRow` guarantees about when it gives up, what it reports, and what it writes. */
module ImportRowLaws {
  import opened Wrappers
  import opened PhpStrings
  import opened Coerce
  import opened PersonNames
  import opened ImportRows

  // ---------------------------------------------------------------------------
  // When importRow returns null
  // ---------------------------------------------------------------------------

  /**
   * importRow returns null exactly when the attribute list is empty, or the
   * action updates and either no updateBy index names a column still in the
   * list, or the record found is one the user may not edit, or nothing is
   * found and the action is update only.
   */
  lemma SkippedExactly(cols: seq<Column>, row: map<nat, string>, params: Params, isAdmin: bool,
                       schema: Schema, store: Store)
    ensures var lookup := LookupOf(cols, row, params.updateBy);
      ImportRowSpec(cols, row, params, isAdmin, schema, store) == Skipped <==>
        (forall i :: 0 <= i < |cols| ==> cols[i] == Removed) ||
        (IsUpdateAction(ActionOf(params)) &&
          ((forall j :: 0 <= j < |params.updateBy| ==>
              !(params.updateBy[j] < |cols| && cols[params.updateBy[j]].Mapped?)) ||
           (store.find(lookup.where).Some? && !isAdmin && !store.canEdit(store.find(lookup.where).value)) ||
           (store.find(lookup.where).None? && ActionOf(params) == "update")))
  {
    LookupCount(cols, row, params.updateBy);
  }

  // ---------------------------------------------------------------------------
  // The outcome flags
  // ---------------------------------------------------------------------------

  /**
   * A row is never both imported and updated; a duplicate is always an
   * imported row; the id is reported exactly when the record was saved.
   */
  lemma OutcomeFlags(cols: seq<Column>, row: map<nat, string>, params: Params, isAdmin: bool,
                     schema: Schema, store: Store)
    ensures var r := ImportRowSpec(cols, row, params, isAdmin, schema, store);
      r.Done? ==> !(r.isImported && r.isUpdated) && (r.isDuplicate ==> r.isImported) &&
                  (r.id.Some? <==> r.isImported || r.isUpdated)
  {
    if MappedCount(cols) > 0 {
      match TargetOf(ActionOf(params), LookupOf(cols, row, params.updateBy), isAdmin, store)
      case NoTarget =>
      case Target(rec0, isNew) => SavedFlags(Prepared(rec0, cols, row, params, schema, store), isNew, params, store);
    }
  }

  /** The result object of a save: the flags of a new or an existing record, or none after a failed save. */
  lemma SavedFlags(rec: Record, isNew: bool, params: Params, store: Store)
    ensures var r := Outcome(rec, isNew, params, store);
      r.Done? && !(r.isImported && r.isUpdated) && (r.isDuplicate ==> r.isImported) &&
      (r.id.Some? <==> r.isImported || r.isUpdated)
  {
  }

  /** The update action never creates a record, so it never reports an imported or duplicate row. */
  lemma UpdateNeverCreates(cols: seq<Column>, row: map<nat, string>, params: Params, isAdmin: bool,
                           schema: Schema, store: Store)
    requires ActionOf(params) == "update"
    ensures var r := ImportRowSpec(cols, row, params, isAdmin, schema, store);
      r.Done? ==> !r.isImported && !r.isDuplicate
  {
  }

  /** The create action (or any action other than the two update actions) never updates a record. */
  lemma CreateNeverUpdates(cols: seq<Column>, row: map<nat, string>, params: Params, isAdmin: bool,
                           schema: Schema, store: Store)
    requires !IsUpdateAction(ActionOf(params))
    ensures var r := ImportRowSpec(cols, row, params, isAdmin, schema, store);
      r.Done? ==> !r.isUpdated
  {
  }

  /** A row is reported as a duplicate only when duplicate checking is on and the check matched the saved record. */
  lemma DuplicateOnlyWhenChecked(cols: seq<Column>, row: map<nat, string>, params: Params, isAdmin: bool,
                                 schema: Schema, store: Store)
    requires MappedCount(cols) > 0
    requires TargetOf(ActionOf(params), LookupOf(cols, row, params.updateBy), isAdmin, store).Target?
    ensures var t := TargetOf(ActionOf(params), LookupOf(cols, row, params.updateBy), isAdmin, store);
      var r := ImportRowSpec(cols, row, params, isAdmin, schema, store);
      r.isDuplicate <==> t.isNew && !params.skipDuplicateChecking
                         && store.isDuplicate(Prepared(t.rec, cols, row, params, schema, store))
                         && store.saves(Prepared(t.rec, cols, row, params, schema, store))
  {
  }

  // ---------------------------------------------------------------------------
  // The id column
  // ---------------------------------------------------------------------------

  /** Unless the action parameter is literally 'create', no column changes the record's id. */
  lemma {:induction false} ColumnsKeepId(rec: Record, cols: seq<Column>, k: nat, row: map<nat, string>, ctx: Context)
    requires k <= |cols| && ctx.params.action != Some("create")
    ensures ApplyFirst(rec, cols, k, row, ctx).id == rec.id
  {
    if k > 0 {
      ColumnsKeepId(rec, cols, k - 1, row, ctx);
    }
  }

  lemma {:induction false} BackfillKeepsId(rec: Record, fields: seq<string>, k: nat, currency: Value)
    requires k <= |fields|
    ensures BackfillFirst(rec, fields, k, currency).id == rec.id
  {
    if k > 0 {
      BackfillKeepsId(rec, fields, k - 1, currency);
    }
  }

  /**
   * Unless the action parameter is literally 'create', the saved record keeps
   * the id of the record the row was written to; in particular an id column
   * is ignored when the action is missing and only defaults to 'create'.
   */
  lemma IdOnlyForLiteralCreate(rec0: Record, cols: seq<Column>, row: map<nat, string>, params: Params,
                               schema: Schema, store: Store)
    requires params.action != Some("create")
    ensures Prepared(rec0, cols, row, params, schema, store).id == rec0.id
  {
    var ctx := Context(schema, params, ValueMapOf(cols, row));
    var rec1 := WithDefaults(rec0, params);
    ColumnsKeepId(rec1, cols, |cols|, row, ctx);
    BackfillKeepsId(ApplyFirst(rec1, cols, |cols|, row, ctx), schema.currencyFields, |schema.currencyFields|,
                    CurrencyValue(params, store));
  }

  /** With the action 'create', the last id column that has a cell sets the id. */
  lemma {:induction false} IdColumnSetsId(rec: Record, cols: seq<Column>, k: nat, j: nat, row: map<nat, string>, ctx: Context)
    requires ctx.params.action == Some("create")
    requires j < k <= |cols| && cols[j] == Mapped("id") && j in row
    requires forall m :: j < m < k ==> !(cols[m] == Mapped("id") && m in row)
    ensures ApplyFirst(rec, cols, k, row, ctx).id == Some(row[j])
  {
    if k - 1 == j {
      assert IsAttribute(cols[j]);
    } else {
      IdColumnSetsId(rec, cols, k - 1, j, row, ctx);
      var c := cols[k - 1];
      assert !(c == Mapped("id") && k - 1 in row);
    }
  }

  // ---------------------------------------------------------------------------
  // Person names, empty cells, contact lists
  // ---------------------------------------------------------------------------

  /** Attributes holding a truthy value. */
  predicate KeepsTruthy(before: map<string, Value>, after: map<string, Value>) {
    forall a :: a in before && Truthy(Some(before[a])) ==> a in after && after[a] == before[a]
  }

  lemma SetIfUnsetKeepsTruthy(rec: Record, name: string, part: Option<string>, schema: Schema)
    ensures KeepsTruthy(rec.attrs, SetIfUnset(rec, name, part, schema).attrs)
  {
  }

  /** A person-name column never overwrites a name part that already holds a truthy value. */
  lemma PersonNameFillsOnlyUnset(rec: Record, attr: string, value: string, ctx: Context)
    ensures KeepsTruthy(rec.attrs, ApplyPersonName(rec, attr, value, ctx).attrs)
  {
    var parts := ParsePersonName(value, ctx.params.personNameFormat);
    var r1 := SetIfUnset(rec, "first" + UcFirst(attr), parts.firstName, ctx.schema);
    var r2 := SetIfUnset(r1, "last" + UcFirst(attr), Some(parts.lastName), ctx.schema);
    SetIfUnsetKeepsTruthy(rec, "first" + UcFirst(attr), parts.firstName, ctx.schema);
    SetIfUnsetKeepsTruthy(r1, "last" + UcFirst(attr), Some(parts.lastName), ctx.schema);
    SetIfUnsetKeepsTruthy(r2, "middle" + UcFirst(attr), parts.middleName, ctx.schema);
  }

  /** An unset last-name part receives the parsed last name, cut to the attribute's length. */
  lemma PersonNameFillsLastName(rec: Record, attr: string, value: string, ctx: Context)
    requires !Truthy(Get(rec.attrs, "last" + UcFirst(attr)))
    ensures var parts := ParsePersonName(value, ctx.params.personNameFormat);
      var name := "last" + UcFirst(attr);
      var r := ApplyPersonName(rec, attr, value, ctx);
      name in r.attrs && r.attrs[name] == Text(PrepareFor(ctx.schema, name, parts.lastName))
  {
    var parts := ParsePersonName(value, ctx.params.personNameFormat);
    var name := "last" + UcFirst(attr);
    var first := "first" + UcFirst(attr);
    var middle := "middle" + UcFirst(attr);
    assert first[0] != name[0] && middle[0] != name[0];
    var r1 := SetIfUnset(rec, first, parts.firstName, ctx.schema);
    assert Get(r1.attrs, name) == Get(rec.attrs, name);
  }

  /**
   * An empty cell changes nothing, except in a bool attribute (where it
   * means false) and in the id column.
   */
  lemma EmptyCellChangesNothing(rec: Record, col: Column, i: nat, row: map<nat, string>, ctx: Context)
    requires i in row && row[i] == ""
    requires col.Mapped? && col.name != "id"
    requires col.name in ctx.schema.attributes ==> ctx.schema.attributes[col.name].kind != Bool
    ensures ApplyColumn(rec, col, i, row, ctx) == rec
  {
  }

  /** An empty cell in a bool attribute sets it to false. */
  lemma EmptyBoolCellIsFalse(rec: Record, col: Column, i: nat, row: map<nat, string>, ctx: Context)
    requires i in row && row[i] == ""
    requires IsAttribute(col) && col.name != "id"
    requires col.name in ctx.schema.attributes && ctx.schema.attributes[col.name].kind == Bool
    ensures var r := ApplyColumn(rec, col, i, row, ctx);
      col.name in r.attrs && r.attrs[col.name] == Boolean(false)
  {
  }

  /** b's email and phone lists extend a's. */
  predicate Grows(a: Record, b: Record) {
    |a.emails| <= |b.emails| && b.emails[..|a.emails|] == a.emails &&
    |a.phones| <= |b.phones| && b.phones[..|a.phones|] == a.phones
  }

  /** The columns only ever append to the email and phone lists. */
  lemma {:induction false} ContactListsGrow(rec: Record, cols: seq<Column>, k: nat, row: map<nat, string>, ctx: Context)
    requires k <= |cols|
    ensures Grows(rec, ApplyFirst(rec, cols, k, row, ctx))
  {
    if k > 0 {
      ContactListsGrow(rec, cols, k - 1, row, ctx);
      NextColumnGrows(rec, cols, k, row, ctx);
      GrowsTransitive(rec, ApplyFirst(rec, cols, k - 1, row, ctx), ApplyFirst(rec, cols, k, row, ctx));
    }
  }

  lemma GrowsTransitive(a: Record, b: Record, c: Record)
    requires Grows(a, b) && Grows(b, c)
    ensures Grows(a, c)
  {
    PrefixOfPrefix(a.emails, b.emails, c.emails);
    PrefixOfPrefix(a.phones, b.phones, c.phones);
  }

  /** One column only appends to the email and phone lists. */
  lemma NextColumnGrows(rec: Record, cols: seq<Column>, k: nat, row: map<nat, string>, ctx: Context)
    requires 0 < k <= |cols|
    ensures Grows(ApplyFirst(rec, cols, k - 1, row, ctx), ApplyFirst(rec, cols, k, row, ctx))
  {
    var prev := ApplyFirst(rec, cols, k - 1, row, ctx);
    var col := cols[k - 1];
    if !IsAttribute(col) || k - 1 !in row || col.name == "id" {
    } else if col.name in ctx.schema.attributes {
      AttributeGrowsLists(prev, col.name, row[k - 1], ctx);
    } else {
      ExtraGrowsLists(prev, col.name, row[k - 1], ctx);
    }
  }

  lemma AttributeGrowsLists(rec: Record, attr: string, value: string, ctx: Context)
    requires attr in ctx.schema.attributes
    ensures Grows(rec, ApplyAttribute(rec, attr, value, ctx))
  {
    var r := ApplyAttribute(rec, attr, value, ctx);
    var fieldType := if attr in ctx.schema.fieldTypes then Some(ctx.schema.fieldTypes[attr]) else None;
    if value != "" && attr == "emailAddress" && fieldType == Some("email") {
      assert r.phones == rec.phones && r.emails == rec.emails + [EmailEntry(value, true)];
      AppendedGrows(rec.emails, EmailEntry(value, true));
    } else if value != "" && attr == "phoneNumber" && fieldType == Some("phone") {
      assert r.emails == rec.emails && r.phones == rec.phones + [PhoneEntry(value, None, true)];
      AppendedGrows(rec.phones, PhoneEntry(value, None, true));
    } else if value != "" && fieldType == Some("personName") {
      assert r == ApplyPersonName(rec, attr, value, ctx);
      PersonNameKeepsLists(rec, attr, value, ctx);
    } else {
      assert r.emails == rec.emails && r.phones == rec.phones;
    }
  }

  lemma AppendedGrows<T>(xs: seq<T>, x: T)
    ensures |xs| <= |xs + [x]| && (xs + [x])[..|xs|] == xs
  {
  }

  lemma PersonNameKeepsLists(rec: Record, attr: string, value: string, ctx: Context)
    ensures ApplyPersonName(rec, attr, value, ctx).emails == rec.emails
    ensures ApplyPersonName(rec, attr, value, ctx).phones == rec.phones
  {
  }

  lemma ExtraGrowsLists(rec: Record, attr: string, value: string, ctx: Context)
    ensures Grows(rec, ApplyExtra(rec, attr, value, ctx))
  {
    var r := ApplyExtra(rec, attr, value, ctx);
    forall e: EmailEntry ensures (rec.emails + [e])[..|rec.emails|] == rec.emails {
      assert (rec.emails + [e])[..|rec.emails|] == rec.emails;
    }
    forall p: PhoneEntry ensures (rec.phones + [p])[..|rec.phones|] == rec.phones {
      assert (rec.phones + [p])[..|rec.phones|] == rec.phones;
    }
  }

  lemma PrefixOfPrefix<T>(a: seq<T>, b: seq<T>, c: seq<T>)
    requires |a| <= |b| && b[..|a|] == a
    requires |b| <= |c| && c[..|b|] == b
    ensures |a| <= |c| && c[..|a|] == a
  {
    assert c[..|a|] == c[..|b|][..|a|];
  }

  // ---------------------------------------------------------------------------
  // Currency backfill
  // ---------------------------------------------------------------------------

  /** The backfill never overwrites a truthy value and never removes an attribute. */
  lemma {:induction false} BackfillKeepsTruthy(rec: Record, fields: seq<string>, k: nat, currency: Value)
    requires k <= |fields|
    ensures var r := BackfillFirst(rec, fields, k, currency);
      KeepsTruthy(rec.attrs, r.attrs) && rec.attrs.Keys <= r.attrs.Keys
  {
    if k > 0 {
      BackfillKeepsTruthy(rec, fields, k - 1, currency);
    }
  }

  /**
   * After the backfill every currency field that is set has its
   * `<field>Currency` attribute set, either to a truthy value it already had
   * or to the backfill currency.
   */
  lemma {:induction false} BackfillFills(rec: Record, fields: seq<string>, k: nat, currency: Value)
    requires k <= |fields|
    ensures var r := BackfillFirst(rec, fields, k, currency);
      forall j :: 0 <= j < k && fields[j] in rec.attrs ==>
        fields[j] + "Currency" in r.attrs &&
        (Truthy(Some(r.attrs[fields[j] + "Currency"])) || r.attrs[fields[j] + "Currency"] == currency)
  {
    if k > 0 {
      BackfillFills(rec, fields, k - 1, currency);
      BackfillKeepsTruthy(rec, fields, k - 1, currency);
    }
  }
}
