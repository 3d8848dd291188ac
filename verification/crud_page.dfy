/**
 * The generic administration page (CrudPage): a table of records with a
 * create/edit form dialog and a two-step delete confirmation. The page
 * state lives in a class whose handlers update it; the delegate calls it
 * makes (create, update, delete) are returned as values, and whether the
 * delegate's promise resolved or rejected is a parameter.
 */
module CrudPage {
  import opened JsValues
  import Text
  import DataTable
  import MockData

  datatype FieldType = TextField | NumberField | DateField | DateTimeField | SelectField | SwitchField | TextAreaField

  datatype FieldConfig = FieldConfig(name: string, caption: string, kind: FieldType, required: bool)

  /** A column as the page's caller declares it; `hasRender` says a custom renderer was given. */
  datatype ColumnConfig = ColumnConfig(key: string, caption: string, hasRender: bool)

  /** A column as handed to the table. */
  datatype Column = Column(key: string, header: string, usesDefaultAccessor: bool, sortable: bool)

  /** A call the page makes on its delegate. */
  datatype Call = CreateCall(data: Record) | UpdateCall(id: Value, data: Record) | DeleteCall(id: Value)

  /** A toast notification. */
  datatype Toast = SuccessToast(text: string) | ErrorToast(text: string)

  // ---------------------------------------------------------------------------
  // The initial form
  // ---------------------------------------------------------------------------

  /** The value a field starts with on create: `true` for a switch, `''` otherwise. */
  function InitialValue(f: FieldConfig): Value
  {
    if f.kind == SwitchField then Bool(true) else Str("")
  }

  /** `item[name] ?? ''`. */
  function EditValue(item: Record, name: string): (v: Value)
    ensures !Nullish(v)
    ensures !Nullish(Get(item, name)) ==> v == Get(item, name)
  {
    var stored := Get(item, name);
    if Nullish(stored) then Str("") else stored
  }

  /** The value the form gives one field: from the item being edited, or the create default. */
  function FieldValue(f: FieldConfig, item: Option<Record>): Value
  {
    match item
    case None => InitialValue(f)
    case Some(it) => EditValue(it, f.name)
  }

  function Names(fields: seq<FieldConfig>): set<string>
  {
    set f | f in fields :: f.name
  }

  /** The `forEach` over the fields: one entry per field name, later fields winning. */
  function FormFor(fields: seq<FieldConfig>, item: Option<Record>): (form: Record)
    ensures form.Keys == Names(fields)
    decreases |fields|
  {
    if fields == [] then map[]
    else
      var last := fields[|fields| - 1];
      var before := fields[..|fields| - 1];
      assert Names(fields) == Names(before) + {last.name} by {
        assert fields == before + [last];
      }
      FormFor(before, item)[last.name := FieldValue(last, item)]
  }

  /** A field no later field shares a name with. */
  predicate LastWithName(fields: seq<FieldConfig>, i: int)
    requires 0 <= i < |fields|
  {
    forall j :: i < j < |fields| ==> fields[j].name != fields[i].name
  }

  /** The entry for a field is that field's value unless a later field reuses the name. */
  lemma {:induction false} FormForEntry(fields: seq<FieldConfig>, item: Option<Record>, i: int)
    requires 0 <= i < |fields| && LastWithName(fields, i)
    ensures FormFor(fields, item)[fields[i].name] == FieldValue(fields[i], item)
    decreases |fields|
  {
    var last := fields[|fields| - 1];
    var before := fields[..|fields| - 1];
    assert FormFor(fields, item) == FormFor(before, item)[last.name := FieldValue(last, item)];
    if i < |fields| - 1 {
      assert last.name != fields[i].name;
      assert before[i] == fields[i];
      assert LastWithName(before, i) by {
        forall j | i < j < |before|
          ensures before[j].name != before[i].name
        {
          assert before[j] == fields[j];
        }
      }
      FormForEntry(before, item, i);
    }
  }

  /** On create with distinct field names: `true` for every switch, `''` for every other field. */
  lemma CreateFormValues(fields: seq<FieldConfig>, i: int)
    requires 0 <= i < |fields|
    requires forall a, b :: 0 <= a < b < |fields| ==> fields[a].name != fields[b].name
    ensures fields[i].kind == SwitchField ==> FormFor(fields, None)[fields[i].name] == Bool(true)
    ensures fields[i].kind != SwitchField ==> FormFor(fields, None)[fields[i].name] == Str("")
  {
    FormForEntry(fields, None, i);
  }

  /** On edit every field holds the item's value, with null and undefined replaced by `''`. */
  lemma EditFormValues(fields: seq<FieldConfig>, item: Record, name: string)
    requires name in Names(fields)
    ensures FormFor(fields, Some(item))[name] == EditValue(item, name)
  {
    var i :| 0 <= i < |fields| && fields[i].name == name;
    while !LastWithName(fields, i)
      invariant 0 <= i < |fields| && fields[i].name == name
      decreases |fields| - i
    {
      var j :| i < j < |fields| && fields[j].name == fields[i].name;
      i := j;
    }
    FormForEntry(fields, Some(item), i);
  }

  // ---------------------------------------------------------------------------
  // Columns, search keys and value coercions
  // ---------------------------------------------------------------------------

  /** The default accessor: null and undefined show as `''`, anything else as `String(value)`. */
  function DefaultAccessor(item: Record, key: string): (text: string)
    ensures Nullish(Get(item, key)) ==> text == ""
    ensures Get(item, key).Str? ==> text == Get(item, key).s
    ensures Get(item, key).Num? ==> text == NumberToString(Get(item, key).n)
    ensures Get(item, key).Bool? ==> text == (if Get(item, key).b then "true" else "false")
    ensures !Nullish(Get(item, key)) ==> text == ToJsString(Get(item, key))
  {
    var v := Get(item, key);
    if !Nullish(v) then ToJsString(v) else ""
  }

  /** `columns.map(...)`: one sortable column per configured column, in order. */
  function TableColumns(columns: seq<ColumnConfig>): (cols: seq<Column>)
    ensures |cols| == |columns|
    ensures forall i :: 0 <= i < |cols| ==>
              cols[i].sortable && cols[i].key == columns[i].key && cols[i].header == columns[i].caption &&
              cols[i].usesDefaultAccessor == !columns[i].hasRender
  {
    seq(|columns|, i requires 0 <= i < |columns| =>
      Column(columns[i].key, columns[i].caption, !columns[i].hasRender, true))
  }

  /** The caller's search keys if there are any, otherwise every column key. */
  function EffectiveSearchKeys(searchKeys: seq<string>, columns: seq<ColumnConfig>): (keys: seq<string>)
    ensures |searchKeys| > 0 ==> keys == searchKeys
    ensures |searchKeys| == 0 ==> |keys| == |columns| && forall i :: 0 <= i < |keys| ==> keys[i] == columns[i].key
  {
    if |searchKeys| > 0 then searchKeys else seq(|columns|, i requires 0 <= i < |columns| => columns[i].key)
  }

  /** `value === true || value === 'true'`. */
  predicate SwitchChecked(v: Value)
  {
    v == Bool(true) || v == Str("true")
  }

  /** A new form shows every switch on; a stored `false` or `'false'` shows it off. */
  lemma SwitchCheckedCases(f: FieldConfig)
    requires f.kind == SwitchField
    ensures SwitchChecked(InitialValue(f))
    ensures !SwitchChecked(Bool(false)) && !SwitchChecked(Str("false")) && !SwitchChecked(Str("True"))
  {
  }

  /** `value ? String(value).slice(0, 16) : ''`: a date-time shown to the minute. */
  function DateTimeDisplay(v: Value): (text: string)
    ensures |text| <= 16
    ensures !Truthy(v) ==> text == ""
    ensures Truthy(v) ==> Text.StartsWith(ToJsString(v), text)
    ensures Truthy(v) && |ToJsString(v)| >= 16 ==> |text| == 16
    ensures Truthy(v) && |ToJsString(v)| < 16 ==> text == ToJsString(v)
  {
    if Truthy(v) then DataTable.JsSlice(ToJsString(v), 0, 16) else ""
  }

  /** `value as string || ''`: what a text, date, select, number or textarea input shows. */
  function InputValue(v: Value): (shown: Value)
    ensures Truthy(v) ==> shown == v
    ensures !Truthy(v) ==> shown == Str("")
  {
    if Truthy(v) then v else Str("")
  }

  /** `parseFloat(input) || 0`, with the parse abstracted: an unparseable or zero input stores 0. */
  function NumberInput(parsed: Option<int>): (v: Value)
    ensures v.Num?
    ensures parsed.Some? ==> v.n == parsed.value
    ensures parsed.None? ==> v.n == 0
  {
    match parsed
    case Some(n) => Num(n)
    case None => Num(0)
  }

  /**
   * The number box never shows 0: a stored 0, like an empty or unparseable
   * entry, is displayed as an empty box, while any other number is shown.
   */
  lemma NumberBoxHidesZero(parsed: Option<int>)
    ensures InputValue(NumberInput(parsed)) == Str("") <==> parsed.None? || parsed.value == 0
    ensures parsed.Some? && parsed.value != 0 ==> InputValue(NumberInput(parsed)) == Num(parsed.value)
  {
  }

  /** A text input shows its stored string, and an empty box for anything falsy. */
  lemma TextBoxShowsStoredText(v: Value)
    ensures v.Str? ==> InputValue(v) == v
    ensures !Truthy(v) ==> InputValue(v) == Str("")
    ensures InputValue(InputValue(v)) == InputValue(v)
  {
  }

  /** `title.slice(0, -1)`: the page title without its last character. */
  function Singular(title: string): (s: string)
    ensures |title| > 0 ==> s == title[..|title| - 1]
    ensures |title| == 0 ==> s == ""
  {
    DataTable.JsSlice(title, 0, -1)
  }

  /** The form dialog's title. */
  function DialogTitle(editing: bool, title: string): string
  {
    (if editing then "Edit " else "Create ") + Singular(title)
  }

  lemma SingularExample()
    ensures Singular("Regions") == "Region"
    ensures DialogTitle(true, "Countries") == "Edit Countrie"
  {
  }

  // ---------------------------------------------------------------------------
  // The page state
  // ---------------------------------------------------------------------------

  class CrudPage {
    const title: string
    const fields: seq<FieldConfig>
    const idField: string

    var isFormOpen: bool
    var isDeleteOpen: bool
    var editingItem: Option<Record>
    var deletingId: Value
    var formData: Record
    var isSaving: bool

    /** Both dialogs closed, nothing being edited or deleted, an empty form. */
    constructor(title: string, fields: seq<FieldConfig>, idField: string)
      ensures this.title == title && this.fields == fields && this.idField == idField
      ensures !isFormOpen && !isDeleteOpen && editingItem == None && deletingId == Null
      ensures formData == map[] && !isSaving
    {
      this.title := title;
      this.fields := fields;
      this.idField := idField;
      isFormOpen := false;
      isDeleteOpen := false;
      editingItem := None;
      deletingId := Null;
      formData := map[];
      isSaving := false;
    }

    /** Builds the form for `item` (or for a new record) one field at a time. */
    method BuildForm(item: Option<Record>) returns (form: Record)
      ensures form == FormFor(fields, item)
    {
      form := map[];
      var i := 0;
      while i < |fields|
        invariant 0 <= i <= |fields|
        invariant form == FormFor(fields[..i], item)
      {
        assert fields[..i + 1][..i] == fields[..i];
        form := form[fields[i].name := FieldValue(fields[i], item)];
        i := i + 1;
      }
      assert fields[..|fields|] == fields;
    }

    /** "Add New": clears the item being edited, fills the defaults, opens the form. */
    method HandleOpenCreate()
      modifies this
      ensures editingItem == None && isFormOpen
      ensures formData == FormFor(fields, None)
      ensures isDeleteOpen == old(isDeleteOpen) && deletingId == old(deletingId) && isSaving == old(isSaving)
    {
      editingItem := None;
      formData := BuildForm(None);
      isFormOpen := true;
    }

    /** The pencil button: records the item, copies its fields into the form, opens the form. */
    method HandleOpenEdit(item: Record)
      modifies this
      ensures editingItem == Some(item) && isFormOpen
      ensures formData == FormFor(fields, Some(item))
      ensures isDeleteOpen == old(isDeleteOpen) && deletingId == old(deletingId) && isSaving == old(isSaving)
    {
      editingItem := Some(item);
      formData := BuildForm(Some(item));
      isFormOpen := true;
    }

    /** The bin button: remembers the id and opens the confirmation. */
    method HandleOpenDelete(id: Value)
      modifies this
      ensures deletingId == id && isDeleteOpen
      ensures isFormOpen == old(isFormOpen) && editingItem == old(editingItem)
      ensures formData == old(formData) && isSaving == old(isSaving)
    {
      deletingId := id;
      isDeleteOpen := true;
    }

    /** An input's change handler: `{ ...formData, [name]: value }`. */
    method SetField(name: string, value: Value)
      modifies this
      ensures formData == old(formData)[name := value]
      ensures isFormOpen == old(isFormOpen) && isDeleteOpen == old(isDeleteOpen)
      ensures editingItem == old(editingItem) && deletingId == old(deletingId) && isSaving == old(isSaving)
    {
      formData := formData[name := value];
    }

    /** The form's Cancel button. */
    method CloseForm()
      modifies this
      ensures !isFormOpen
      ensures isDeleteOpen == old(isDeleteOpen) && editingItem == old(editingItem)
      ensures deletingId == old(deletingId) && formData == old(formData) && isSaving == old(isSaving)
    {
      isFormOpen := false;
    }

    /** The confirmation's Cancel button: closes it, leaving the remembered id in place. */
    method CloseDeleteDialog()
      modifies this
      ensures !isDeleteOpen
      ensures isFormOpen == old(isFormOpen) && editingItem == old(editingItem)
      ensures deletingId == old(deletingId) && formData == old(formData) && isSaving == old(isSaving)
    {
      isDeleteOpen := false;
    }

    /**
     * Submitting the form makes exactly one delegate call: update with the
     * edited item's id when editing, create otherwise. The form closes only
     * when the call succeeded; saving is over either way.
     */
    method HandleSubmit(succeeded: bool) returns (call: Call, toast: Toast)
      modifies this
      ensures call == (if old(editingItem).Some? then UpdateCall(Get(old(editingItem).value, idField), old(formData))
                       else CreateCall(old(formData)))
      ensures isFormOpen == (if succeeded then false else old(isFormOpen))
      ensures !isSaving
      ensures toast == (if !succeeded then ErrorToast("Failed to save " + Text.Lower(Singular(title)))
                        else if old(editingItem).Some? then SuccessToast(Singular(title) + " updated successfully")
                        else SuccessToast(Singular(title) + " created successfully"))
      ensures isDeleteOpen == old(isDeleteOpen) && editingItem == old(editingItem)
      ensures deletingId == old(deletingId) && formData == old(formData)
    {
      isSaving := true;
      if editingItem.Some? {
        call := UpdateCall(Get(editingItem.value, idField), formData);
      } else {
        call := CreateCall(formData);
      }
      if succeeded {
        toast := SuccessToast(Singular(title) + (if editingItem.Some? then " updated successfully" else " created successfully"));
        isFormOpen := false;
      } else {
        toast := ErrorToast("Failed to save " + Text.Lower(Singular(title)));
      }
      isSaving := false;
    }

    /**
     * Confirming the delete: nothing at all happens without a (truthy) id.
     * Otherwise one delete call is made, the dialog closes only on success,
     * and the remembered id is always cleared.
     */
    method HandleDelete(succeeded: bool) returns (call: Option<Call>, toast: Option<Toast>)
      modifies this
      ensures !Truthy(old(deletingId)) ==>
                call == None && toast == None && isDeleteOpen == old(isDeleteOpen) &&
                deletingId == old(deletingId) && isSaving == old(isSaving)
      ensures Truthy(old(deletingId)) ==>
                call == Some(DeleteCall(old(deletingId))) &&
                isDeleteOpen == (if succeeded then false else old(isDeleteOpen)) &&
                deletingId == Null && !isSaving &&
                toast == Some(if succeeded then SuccessToast(Singular(title) + " deleted successfully")
                              else ErrorToast("Failed to delete " + Text.Lower(Singular(title))))
      ensures isFormOpen == old(isFormOpen) && editingItem == old(editingItem) && formData == old(formData)
    {
      if !Truthy(deletingId) {
        return None, None;
      }
      isSaving := true;
      call := Some(DeleteCall(deletingId));
      if succeeded {
        toast := Some(SuccessToast(Singular(title) + " deleted successfully"));
        isDeleteOpen := false;
      } else {
        toast := Some(ErrorToast("Failed to delete " + Text.Lower(Singular(title))));
      }
      isSaving := false;
      deletingId := Null;
    }
  }

  /** Opening a record for edit copies every defined field value unchanged into the form. */
  lemma EditKeepsDefinedValues(fields: seq<FieldConfig>, item: Record, name: string)
    requires name in Names(fields) && !Nullish(Get(item, name))
    ensures FormFor(fields, Some(item))[name] == item[name]
  {
    EditFormValues(fields, item, name);
  }

  // ---------------------------------------------------------------------------
  // Saving an edit form unchanged
  // ---------------------------------------------------------------------------

  /** An update with no display-name fields writes nothing beyond the data and the timestamp. */
  lemma PlainUpdate(e: MockData.Entity, stored: Record, data: Record, p: MockData.Parents, now: string)
    requires MockData.NameKeys(e) == {}
    ensures MockData.UpdatedRecord(e, stored, data, p, now) == (stored + data)["updatedAt" := Str(now)]
  {
    assert MockData.UpdateNames(e, stored, data, p) == map[];
  }

  /**
   * Opening a stored record for edit and saving the form unchanged gives the
   * record back with only a new `updatedAt`, provided every form field is
   * defined in it and the entity has no display names to recompute.
   */
  lemma SaveUnchangedEdit(e: MockData.Entity, fields: seq<FieldConfig>, stored: Record, p: MockData.Parents, now: string)
    requires MockData.NameKeys(e) == {}
    requires forall f :: f in fields ==> !Nullish(Get(stored, f.name))
    ensures MockData.UpdatedRecord(e, stored, FormFor(fields, Some(stored)), p, now) == stored["updatedAt" := Str(now)]
  {
    var form := FormFor(fields, Some(stored));
    forall k | k in form
      ensures k in stored && form[k] == stored[k]
    {
      var i :| 0 <= i < |fields| && fields[i].name == k;
      assert fields[i] in fields;
      EditKeepsDefinedValues(fields, stored, k);
    }
    assert stored + form == stored;
    PlainUpdate(e, stored, form, p, now);
  }

  /** A field stored as null or undefined comes back from an unchanged edit as `''`. */
  lemma SaveUnchangedEditFillsNull(e: MockData.Entity, fields: seq<FieldConfig>, stored: Record, p: MockData.Parents,
                                   now: string, name: string)
    requires name in Names(fields) && Nullish(Get(stored, name))
    requires name != "updatedAt" && name !in MockData.NameKeys(e)
    ensures MockData.UpdatedRecord(e, stored, FormFor(fields, Some(stored)), p, now)[name] == Str("")
    ensures Get(MockData.UpdatedRecord(e, stored, FormFor(fields, Some(stored)), p, now), name) != Get(stored, name)
  {
    EditFormValues(fields, stored, name);
  }
}
