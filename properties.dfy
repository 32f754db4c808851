/**
 * The property table's client state (frontend/src/Properties.js): the list of
 * property records, one edit slot (the id of the row being edited and its
 * buffer), one expanded-row slot, the refresh flag and the add-property form.
 *
 * Every handler is a step function on `View`; the class `PropertiesView` holds
 * the same state in fields and its methods perform those steps in place.  The
 * network is not modelled: a handler returns the request it would send, and
 * the response it would receive is a parameter.
 */
module Properties {
  import opened Options
  import opened JsValues

  const AssetNum := "asset_num"

  /** The keys of the add-property form, in the order the form declares them. */
  const FormFields: seq<string> := [
    "asset_num", "legal_description", "location", "account_number",
    "current_appraisal", "square_footage", "acres", "total_acreage_percent",
    "owned_by", "exemption", "county", "name_on_account", "mailing_address",
    "management_notes", "status"]

  /** The fields sent as numbers rather than text. */
  const NumericFields: seq<string> :=
    ["acres", "square_footage", "current_appraisal", "total_acreage_percent"]

  /** The add-property form as it starts and as it is reset: no asset number, every text blank. */
  function BlankForm(): Record {
    map k | k in FormFields :: if k == AssetNum then Null else Str("")
  }

  predicate FormShaped(form: Record) {
    form.Keys == set k | k in FormFields
  }

  // ---------------------------------------------------------------------------
  // The add-property payload

  /** A blank text is sent as null. */
  function BlankToNull(v: Value): Value {
    if v == Str("") then Null else v
  }

  /** A numeric field is sent through parseFloat unless it is null. */
  function NumericValue(v: Value): Value {
    if v == Null then Null else ParseFloat(v)
  }

  /** The parsed asset number of a record, None when parseInt gives NaN. */
  function AssetNumOf(p: Record): Option<int> {
    ParseInt(Get(p, AssetNum))
  }

  /** The parsed asset numbers of the records, in list order. */
  function AssetNums(props: seq<Record>): (nums: seq<Option<int>>)
    ensures |nums| == |props|
    ensures forall i | 0 <= i < |props| :: nums[i] == AssetNumOf(props[i])
  {
    seq(|props|, i requires 0 <= i < |props| => AssetNumOf(props[i]))
  }

  /**
   * The `reduce` that finds the largest asset number: it starts from 0, goes
   * through the parsed numbers in order and skips the NaNs.
   */
  function MaxParsed(nums: seq<Option<int>>): (m: nat)
    ensures forall i | 0 <= i < |nums| && nums[i].Some? :: nums[i].value <= m
    ensures m == 0 || exists i | 0 <= i < |nums| :: nums[i] == Some(m)
  {
    if nums == [] then 0
    else
      var max := MaxParsed(nums[..|nums| - 1]);
      match nums[|nums| - 1]
      case None => max
      case Some(num) => if max >= num then max else num
  }

  /** The asset number the client gives a new property. */
  function NextAssetNum(props: seq<Record>): (n: int)
    ensures n >= 1
    ensures forall i | 0 <= i < |props| && AssetNumOf(props[i]).Some? :: AssetNumOf(props[i]).value < n
    ensures n == 1 || exists i | 0 <= i < |props| :: AssetNumOf(props[i]) == Some(n - 1)
  {
    var nums := AssetNums(props);
    var max := MaxParsed(nums);
    assert max != 0 ==> exists i | 0 <= i < |props| :: AssetNumOf(props[i]) == Some(max) by {
      if max != 0 {
        var i :| 0 <= i < |nums| && nums[i] == Some(max);
        assert AssetNumOf(props[i]) == Some(max);
      }
    }
    max + 1
  }

  /** The body of the POST that adds a property, as a function of the form and the list. */
  function AddPayload(form: Record, props: seq<Record>): Record {
    FormPayload(form, AssetNum, NextAssetNum(props), NumericFields)
  }

  /** The body of the POST when key `idKey` gets `next` and the fields in `numeric` are numbers. */
  function FormPayload(form: Record, idKey: string, next: int, numeric: seq<string>): Record {
    map k | k in form.Keys + {idKey} + (set f | f in numeric) ::
      if k == idKey then Int(next)
      else if k in numeric then NumericValue(BlankToNull(Get(form, k)))
      else BlankToNull(form[k])
  }

  /** The first loop of the add handler: every "" becomes null, every other value stays. */
  method NormalizeBlanks(form: Record) returns (payload: Record)
    ensures payload.Keys == form.Keys
    ensures forall k | k in form :: payload[k] == (if form[k] == Str("") then Null else form[k])
  {
    payload := form;
    var todo := form.Keys;
    while todo != {}
      invariant todo <= form.Keys && payload.Keys == form.Keys
      invariant forall k | k in todo :: payload[k] == form[k]
      invariant forall k | k in form && k !in todo :: payload[k] == BlankToNull(form[k])
      decreases todo
    {
      var k :| k in todo;
      if payload[k] == Str("") {
        payload := payload[k := Null];
      }
      todo := todo - {k};
    }
  }

  /** `fields`, in order, each sent through parseFloat unless it reads as null. */
  function ConvertFields(p: Record, fields: seq<string>): Record {
    if fields == [] then p
    else
      var prev := ConvertFields(p, fields[..|fields| - 1]);
      var f := fields[|fields| - 1];
      if Get(prev, f) != Null then prev[f := ParseFloat(Get(prev, f))] else prev
  }

  predicate Distinct(fields: seq<string>) {
    forall i, j | 0 <= i < j < |fields| :: fields[i] != fields[j]
  }

  /**
   * Converting distinct fields adds exactly the non-null ones, each as the
   * parseFloat of its original value, and leaves every other key as it was.
   */
  lemma {:induction false} ConvertFieldsConverts(p: Record, fields: seq<string>)
    requires Distinct(fields)
    ensures ConvertFields(p, fields).Keys == p.Keys + set k | k in fields && Get(p, k) != Null
    ensures forall k | k in ConvertFields(p, fields) ::
      ConvertFields(p, fields)[k] == if k in fields && Get(p, k) != Null then ParseFloat(Get(p, k)) else p[k]
  {
    if fields != [] {
      var init, f := fields[..|fields| - 1], fields[|fields| - 1];
      ConvertFieldsConverts(p, init);
      assert f !in init by {
        forall i | 0 <= i < |init| ensures init[i] != f {
          assert init[i] == fields[i];
        }
      }
      assert forall k :: k in fields <==> k in init || k == f;
      var prev := ConvertFields(p, init);
      assert Get(prev, f) == Get(p, f);
    }
  }

  /**
   * The second loop of the add handler: the four numeric fields go through
   * parseFloat unless they are null; nothing else changes.
   */
  method ConvertNumeric(payload: Record) returns (out: Record)
    ensures out.Keys == payload.Keys + set k | k in NumericFields && Get(payload, k) != Null
    ensures forall k | k in out ::
      out[k] == if k in NumericFields && Get(payload, k) != Null then ParseFloat(Get(payload, k)) else payload[k]
  {
    out := payload;
    for n := 0 to |NumericFields|
      invariant out == ConvertFields(payload, NumericFields[..n])
    {
      var field := NumericFields[n];
      assert NumericFields[..n + 1][..n] == NumericFields[..n];
      if Get(out, field) != Null {
        out := out[field := ParseFloat(Get(out, field))];
      }
    }
    assert NumericFields[..|NumericFields|] == NumericFields;
    ConvertFieldsConverts(payload, NumericFields);
  }

  /** The payload of the add handler: copy the form, blank to null, next asset number, numbers. */
  method BuildAddPayload(form: Record, props: seq<Record>) returns (payload: Record)
    ensures payload == AddPayload(form, props)
  {
    var blanked := NormalizeBlanks(form);
    var numbered := blanked[AssetNum := Int(NextAssetNum(props))];
    payload := ConvertNumeric(numbered);
    PayloadOfSteps(form, AssetNum, NextAssetNum(props), NumericFields, blanked, numbered, payload);
  }

  /** The three steps of the add handler, as their methods promise them, build FormPayload. */
  lemma PayloadOfSteps(form: Record, idKey: string, next: int, numeric: seq<string>,
                       blanked: Record, numbered: Record, payload: Record)
    requires blanked.Keys == form.Keys
    requires forall k | k in form :: blanked[k] == (if form[k] == Str("") then Null else form[k])
    requires numbered == blanked[idKey := Int(next)]
    requires payload.Keys == numbered.Keys + set k | k in numeric && Get(numbered, k) != Null
    requires forall k | k in payload ::
      payload[k] == if k in numeric && Get(numbered, k) != Null then ParseFloat(Get(numbered, k)) else numbered[k]
    ensures payload == FormPayload(form, idKey, next, numeric)
  {
    var spec := FormPayload(form, idKey, next, numeric);
    assert payload.Keys == spec.Keys;
    forall k | k in spec
      ensures payload[k] == spec[k]
    {
      if k == idKey {
        assert payload[k] == Int(next);
      } else if k in numeric {
        assert Get(numbered, k) == BlankToNull(Get(form, k));
      } else {
        assert payload[k] == blanked[k];
      }
    }
  }

  /** No field of the payload is an empty string: every blank is sent as null. */
  lemma AddPayloadHasNoBlanks(form: Record, props: seq<Record>)
    ensures forall k | k in AddPayload(form, props) :: AddPayload(form, props)[k] != Str("")
  {
  }

  /** The payload of a well-formed form has exactly the form's keys. */
  lemma AddPayloadKeys(form: Record, props: seq<Record>)
    requires FormShaped(form)
    ensures FormShaped(AddPayload(form, props))
  {
  }

  /**
   * The asset number sent with a new property parses, is at least 1, and is
   * larger than every asset number of the list that parses.
   */
  lemma {:induction false} AddPayloadAssetNumIsFresh(form: Record, props: seq<Record>)
    ensures AssetNumOf(AddPayload(form, props)).Some?
    ensures AssetNumOf(AddPayload(form, props)).value >= 1
    ensures forall i | 0 <= i < |props| && AssetNumOf(props[i]).Some? ::
      AssetNumOf(props[i]).value < AssetNumOf(AddPayload(form, props)).value
  {
    var n := NextAssetNum(props);
    assert AddPayload(form, props)[AssetNum] == Int(n);
    assert AssetNumOf(AddPayload(form, props)) == Some(n);
  }

  /** Each parsed asset number is what `parseInt` makes of the text of the record's `asset_num`. */
  lemma AssetNumsReadText(props: seq<Record>)
    ensures forall i | 0 <= i < |props| ::
      AssetNums(props)[i] == ParseIntText(ToText(Get(props[i], AssetNum)))
  {
    forall i | 0 <= i < |props|
      ensures AssetNums(props)[i] == ParseIntText(ToText(Get(props[i], AssetNum)))
    {
      ParseIntReadsText(Get(props[i], AssetNum));
    }
  }

  /** With asset numbers 1, 3 and 4 in the list the next one is 5. */
  lemma NextAssetNumExample()
    ensures NextAssetNum([map[AssetNum := Int(1)], map[AssetNum := Int(3)], map[AssetNum := Int(4)]]) == 5
  {
    var props := [map[AssetNum := Int(1)], map[AssetNum := Int(3)], map[AssetNum := Int(4)]];
    var nums := AssetNums(props);
    assert nums == [Some(1), Some(3), Some(4)];
    assert nums[..2] == [Some(1), Some(3)] && nums[..2][..1] == [Some(1)];
    assert MaxParsed([Some(1)]) == 1;
    assert MaxParsed([Some(1), Some(3)]) == 3;
  }

  // ---------------------------------------------------------------------------
  // The table view: the records, the edit slot, the expanded-row slot

  /**
   * What an add request gets back: nothing usable, or a JSON body whose `error`
   * member is `error` (undefined when the body has none).
   */
  datatype AddResponse = Unanswered | Answered(error: Value)

  /** The write a handler sends to the server. */
  datatype Request =
    | NoRequest
    | Post(body: Record)
    | Put(target: Value, body: Record)
    | Delete(assetNum: Option<int>)  // the parsed asset number in the URL; None is NaN

  datatype View = View(
    properties: seq<Record>,
    refresh: bool,
    editRowId: Value,
    editFormData: Record,
    dropdownRowId: Value,
    newProperty: Record)

  /** The state when the view first appears. */
  function Initial(): View {
    View([], false, Null, map[], Null, BlankForm())
  }

  predicate Valid(v: View) {
    FormShaped(v.newProperty)
  }

  /** A row is drawn with inputs when its asset number is the edit slot. */
  predicate InEditMode(v: View, p: Record) {
    Get(p, AssetNum) == v.editRowId
  }

  /** A row shows its detail panel when its asset number is the expanded slot. */
  predicate IsExpanded(v: View, p: Record) {
    Get(p, AssetNum) == v.dropdownRowId
  }

  /** The optimistic update after a save: each row being edited is overwritten by the buffer. */
  function MergeEdits(props: seq<Record>, id: Value, buffer: Record): (r: seq<Record>)
    ensures |r| == |props|
    ensures forall i | 0 <= i < |props| ::
      r[i] == if Get(props[i], AssetNum) == id then props[i] + buffer else props[i]
  {
    if props == [] then []
    else
      var p := props[|props| - 1];
      MergeEdits(props[..|props| - 1], id, buffer)
        + [if Get(p, AssetNum) == id then p + buffer else p]
  }

  function EditClick(v: View, p: Record): View {
    v.(editRowId := Get(p, AssetNum), editFormData := p)
  }

  function EditChange(v: View, name: string, value: Value): View {
    v.(editFormData := v.editFormData[name := value])
  }

  function SaveClick(v: View, ok: bool): View {
    if ok then
      v.(properties := MergeEdits(v.properties, v.editRowId, v.editFormData),
         refresh := !v.refresh,
         editRowId := Null)
    else v
  }

  function CancelClick(v: View): View {
    v.(editRowId := Null)
  }

  /** The expanded-row slot: clicking the expanded row collapses it, any other row takes the slot. */
  function Toggle(slot: Value, id: Value): Value {
    if id == slot then Null else id
  }

  function DropClick(v: View, id: Value): View {
    v.(dropdownRowId := Toggle(v.dropdownRowId, id))
  }

  function DeleteProperty(v: View, confirm: bool, ok: bool): View {
    if confirm && ok then v.(refresh := !v.refresh) else v
  }

  function DeleteRequest(assetNum: Value, confirm: bool): Request {
    if confirm then Delete(ParseInt(assetNum)) else NoRequest
  }

  function AddProperty(v: View, response: AddResponse): View {
    match response
    case Unanswered => v
    case Answered(error) =>
      v.(newProperty := BlankForm(), refresh := if Truthy(error) then v.refresh else !v.refresh)
  }

  function NewPropertyChange(v: View, field: string, value: Value): View {
    v.(newProperty := v.newProperty[field := value])
  }

  /** Editing a row makes its buffer an exact copy of it and puts it, and every row sharing its id, in edit mode. */
  lemma EditClickCopiesRow(v: View, p: Record)
    ensures EditClick(v, p).editFormData == p
    ensures forall q :: InEditMode(EditClick(v, p), q) <==> Get(q, AssetNum) == Get(p, AssetNum)
    ensures EditClick(v, p).properties == v.properties
  {
  }

  /** A field change touches that one field of the buffer. */
  lemma EditChangeTouchesOneField(v: View, name: string, value: Value)
    ensures Get(EditChange(v, name, value).editFormData, name) == value
    ensures forall k | k != name :: Get(EditChange(v, name, value).editFormData, k) == Get(v.editFormData, k)
    ensures EditChange(v, name, value).properties == v.properties
    ensures EditChange(v, name, value).editRowId == v.editRowId
  {
  }

  /**
   * After a successful save, every row that was being edited shows every value
   * of the buffer and keeps its own values for keys the buffer lacks; every
   * other row is as it was, the list keeps its length and order, and the edit
   * slot is empty.
   */
  lemma SaveShowsBuffer(v: View)
    ensures var w := SaveClick(v, true);
      && |w.properties| == |v.properties|
      && w.editRowId == Null
      && w.refresh == !v.refresh
      && (forall i, k | 0 <= i < |v.properties| && InEditMode(v, v.properties[i]) ::
            Get(w.properties[i], k) == if k in v.editFormData then v.editFormData[k] else Get(v.properties[i], k))
      && (forall i | 0 <= i < |v.properties| && !InEditMode(v, v.properties[i]) ::
            w.properties[i] == v.properties[i])
  {
  }

  /** A failed save changes nothing: the row stays in edit mode with what was typed. */
  lemma SaveFailureKeepsEditing(v: View)
    ensures SaveClick(v, false) == v
  {
  }

  /** Merging the same buffer twice is the same as merging it once. */
  lemma {:induction false} MergeEditsIdempotent(props: seq<Record>, id: Value, buffer: Record)
    ensures MergeEdits(MergeEdits(props, id, buffer), id, buffer) == MergeEdits(props, id, buffer)
  {
    var once := MergeEdits(props, id, buffer);
    var twice := MergeEdits(once, id, buffer);
    forall i | 0 <= i < |props|
      ensures twice[i] == once[i]
    {
      var p := props[i];
      if Get(p, AssetNum) == id {
        assert once[i] == p + buffer;
        assert (p + buffer) + buffer == p + buffer;
      }
    }
  }

  /** Edit a row, change a field, cancel: the list is what it was and no row is being edited by id. */
  lemma EditThenCancel(v: View, p: Record, name: string, value: Value)
    ensures var w := CancelClick(EditChange(EditClick(v, p), name, value));
      w.properties == v.properties && w.editRowId == Null
  {
  }

  /** Edit a row, change a field, save successfully: every row with that id shows the new value. */
  lemma EditThenSave(v: View, p: Record, name: string, value: Value)
    ensures var w := SaveClick(EditChange(EditClick(v, p), name, value), true);
      && w.editRowId == Null
      && |w.properties| == |v.properties|
      && forall i | 0 <= i < |v.properties| && Get(v.properties[i], AssetNum) == Get(p, AssetNum) ::
           Get(w.properties[i], name) == value
  {
  }

  /** Edit a row, change a field, fail to save: the row is still in edit mode and the value is kept. */
  lemma EditThenFailedSave(v: View, p: Record, name: string, value: Value)
    ensures var w := SaveClick(EditChange(EditClick(v, p), name, value), false);
      && w.properties == v.properties
      && w.editRowId == Get(p, AssetNum)
      && Get(w.editFormData, name) == value
  {
  }

  /**
   * When no row carries an `asset_num` key, clicking Edit on any row puts every
   * row in edit mode, and a successful save writes the buffer into every row.
   */
  lemma MissingIdsEditEveryRow(v: View, p: Record)
    requires p in v.properties
    requires forall i | 0 <= i < |v.properties| :: AssetNum !in v.properties[i]
    ensures forall q | q in v.properties :: InEditMode(EditClick(v, p), q)
    ensures forall i | 0 <= i < |v.properties| ::
      SaveClick(EditClick(v, p), true).properties[i] == v.properties[i] + p
  {
  }

  /**
   * Clicking the same row twice: the slot ends on that row if it started there,
   * and collapsed otherwise.
   */
  lemma DropClickTwice(v: View, a: Value)
    ensures DropClick(DropClick(v, a), a).dropdownRowId == if v.dropdownRowId == a then a else Null
    ensures DropClick(DropClick(v, a), a).properties == v.properties
  {
  }

  /** Clicking row A then another row B leaves exactly the rows with id B expanded. */
  lemma DropClickOther(v: View, a: Value, b: Value)
    requires a != b
    ensures forall p :: IsExpanded(DropClick(DropClick(v, a), b), p) <==> Get(p, AssetNum) == b
  {
  }

  /** Delete: a refusal sends nothing and changes nothing; a success only flips refresh. */
  lemma DeleteOutcomes(v: View, assetNum: Value, confirm: bool, ok: bool)
    ensures !confirm ==> DeleteRequest(assetNum, confirm) == NoRequest && DeleteProperty(v, confirm, ok) == v
    ensures confirm && ok ==> DeleteProperty(v, confirm, ok) == v.(refresh := !v.refresh)
    ensures !ok ==> DeleteProperty(v, confirm, ok) == v
  {
  }

  /**
   * Add: any answer resets the form, with or without an error; refresh flips
   * exactly when the answer's `error` is falsy; no answer changes nothing.
   */
  lemma AddOutcomes(v: View, response: AddResponse)
    ensures response.Answered? ==> AddProperty(v, response).newProperty == BlankForm()
    ensures response.Answered? ==>
      (AddProperty(v, response).refresh != v.refresh <==> !Truthy(response.error))
    ensures response.Unanswered? ==> AddProperty(v, response) == v
    ensures AddProperty(v, response).properties == v.properties
    ensures AddProperty(v, response).editRowId == v.editRowId
  {
  }

  /**
   * The answer's `error` is tested for truthiness: a body without `error`, or
   * with an empty message, still flips refresh; a message does not.
   */
  lemma AddErrorIsTestedForTruth(v: View)
    ensures AddProperty(v, Answered(Undefined)).refresh == !v.refresh
    ensures AddProperty(v, Answered(Str(""))).refresh == !v.refresh
    ensures AddProperty(v, Answered(Str("Asset exists"))).refresh == v.refresh
  {
    assert !Truthy(Str(""));
    assert Truthy(Str("Asset exists"));
  }

  /** Every handler keeps the add form's key set. */
  lemma StepsKeepFormShape(v: View, p: Record, name: string, value: Value, ok: bool, confirm: bool, response: AddResponse)
    requires Valid(v)
    ensures Valid(EditClick(v, p)) && Valid(EditChange(v, name, value)) && Valid(SaveClick(v, ok))
    ensures Valid(CancelClick(v)) && Valid(DropClick(v, value)) && Valid(DeleteProperty(v, confirm, ok))
    ensures Valid(AddProperty(v, response))
    ensures name in FormFields ==> Valid(NewPropertyChange(v, name, value))
  {
  }

  /** The component's state, updated in place by its handlers. */
  class PropertiesView {
    var properties: seq<Record>
    var refresh: bool
    var editRowId: Value
    var editFormData: Record
    var dropdownRowId: Value
    var newProperty: Record

    function State(): View
      reads this
    {
      View(properties, refresh, editRowId, editFormData, dropdownRowId, newProperty)
    }

    constructor ()
      ensures State() == Initial() && Valid(State())
    {
      properties := [];
      refresh := false;
      editRowId := Null;
      editFormData := map[];
      dropdownRowId := Null;
      newProperty := BlankForm();
    }

    /** Ask for confirmation; if given, send the delete and flip refresh when it succeeds. */
    method HandleDeleteProperty(assetNum: Value, confirm: bool, ok: bool) returns (request: Request)
      requires Valid(State())
      modifies this
      ensures Valid(State())
      ensures request == DeleteRequest(assetNum, confirm)
      ensures State() == DeleteProperty(old(State()), confirm, ok)
    {
      if !confirm {
        return NoRequest;
      }
      request := Delete(ParseInt(assetNum));
      if ok {
        refresh := !refresh;
      }
    }

    /** Send the new property; on any answer reset the form, and flip refresh unless its `error` is truthy. */
    method HandleAddProperty(response: AddResponse) returns (request: Request)
      requires Valid(State())
      modifies this
      ensures Valid(State())
      ensures request == Post(AddPayload(old(newProperty), old(properties)))
      ensures State() == AddProperty(old(State()), response)
    {
      var payload := BuildAddPayload(newProperty, properties);
      request := Post(payload);
      match response {
        case Unanswered =>
        case Answered(error) =>
          if !Truthy(error) {
            refresh := !refresh;
          }
          newProperty := BlankForm();
      }
    }

    method HandleEditClick(p: Record)
      requires Valid(State())
      modifies this
      ensures Valid(State())
      ensures State() == EditClick(old(State()), p)
    {
      editRowId := Get(p, AssetNum);
      editFormData := p;
    }

    method HandleEditChange(name: string, value: Value)
      requires Valid(State())
      modifies this
      ensures Valid(State())
      ensures State() == EditChange(old(State()), name, value)
    {
      editFormData := editFormData[name := value];
    }

    /** Send the buffer; on success merge it into the list, flip refresh and leave edit mode. */
    method HandleSaveClick(ok: bool) returns (request: Request)
      requires Valid(State())
      modifies this
      ensures Valid(State())
      ensures request == Put(old(editRowId), old(editFormData))
      ensures State() == SaveClick(old(State()), ok)
    {
      request := Put(editRowId, editFormData);
      if ok {
        properties := MergeEdits(properties, editRowId, editFormData);
        refresh := !refresh;
        editRowId := Null;
      }
    }

    method HandleCancelClick()
      requires Valid(State())
      modifies this
      ensures Valid(State())
      ensures State() == CancelClick(old(State()))
    {
      editRowId := Null;
    }

    method HandleDropClick(assetNum: Value)
      requires Valid(State())
      modifies this
      ensures Valid(State())
      ensures State() == DropClick(old(State()), assetNum)
    {
      if assetNum == dropdownRowId {
        dropdownRowId := Null;
      } else {
        dropdownRowId := assetNum;
      }
    }

    /** Typing into one input of the add form. */
    method HandleNewPropertyChange(field: string, value: Value)
      requires Valid(State()) && field in FormFields
      modifies this
      ensures Valid(State())
      ensures State() == NewPropertyChange(old(State()), field, value)
    {
      newProperty := newProperty[field := value];
    }
  }
}
