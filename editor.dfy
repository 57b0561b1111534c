/** The editor dialog's model handling (Client/Components/Editor/Editor.razor.cs): the
    registry of inputs, the model dictionary and its reads, the range of a field, and the
    guards of Save. Rendering, JavaScript interop and the type conversions are left out; the
    outcome of each input's validation and of the save callback are parameters. */
module Editors {
  import opened Common

  datatype Validator = Range(minimum: int, maximum: int) | OtherValidator(kind: string)

  datatype ElementField = ElementField(name: string, uiOnly: bool, validators: Option<seq<Validator>>)

  /** A registered input; `field` is None for a null Field. `id` stands for its object
      identity: one object has one id, so two inputs with the same id also have the same
      field and caption, and structural equality is reference equality. */
  datatype Input = Input(id: nat, field: Option<ElementField>, caption: string)

  /** A value in the model dictionary. */
  datatype Value = NullValue | Boxed(repr: string)

  type Model = map<string, Value>

  /** The state of the TaskCompletionSource the caller of Open awaits. */
  datatype TaskState = NoTask | Pending | Completed(result: Option<Model>) | Cancelled

  datatype SaveOutcome =
    | ReadOnlyRefused
    | Invalid(failed: seq<Input>)   // every input that failed, in registration order
    | Rejected                      // the save callback returned false
    | Saved

  // ---------------------------------------------------------------- input registry

  /** `x.Field?.Name ?? ""` */
  function FieldName(x: Input): string {
    if x.field.None? then "" else x.field.value.name
  }

  /** The registry after RegisterInput. */
  function Registered(inputs: seq<Input>, input: Input): seq<Input> {
    if input in inputs then inputs else inputs + [input]
  }

  /** Registering keeps the registry free of duplicates, keeps what was registered, adds the
      input, and registering it twice is the same as once. */
  lemma RegisterKeepsNoDuplicates(inputs: seq<Input>, input: Input)
    requires NoDuplicates(inputs)
    ensures NoDuplicates(Registered(inputs, input))
    ensures input in Registered(inputs, input)
    ensures Registered(inputs, input)[..|inputs|] == inputs
    ensures Registered(Registered(inputs, input), input) == Registered(inputs, input)
  {
  }

  /** The registry after RemoveRegisteredInputs(except): the inputs whose field name is
      listed, in order; a null list keeps nothing. */
  function Kept(inputs: seq<Input>, except: Option<seq<string>>): seq<Input> {
    if inputs == [] then []
    else
      var last := inputs[|inputs| - 1];
      Kept(inputs[..|inputs| - 1], except) + (if FieldName(last) in except.GetOr([]) then [last] else [])
  }

  lemma {:induction false} KeptAreExcepted(inputs: seq<Input>, except: Option<seq<string>>, x: Input)
    ensures x in Kept(inputs, except) <==> x in inputs && except.Some? && FieldName(x) in except.value
  {
    if inputs != [] {
      var init := inputs[..|inputs| - 1];
      KeptAreExcepted(init, except, x);
      assert inputs == init + [inputs[|inputs| - 1]];
    }
  }

  lemma {:induction false} KeptKeepsNoDuplicates(inputs: seq<Input>, except: Option<seq<string>>)
    requires NoDuplicates(inputs)
    ensures NoDuplicates(Kept(inputs, except))
  {
    if inputs != [] {
      var init := inputs[..|inputs| - 1];
      var last := inputs[|inputs| - 1];
      assert NoDuplicates(init);
      KeptKeepsNoDuplicates(init, except);
      KeptAreExcepted(init, except, last);
      assert last !in init by {
        forall j | 0 <= j < |init| ensures init[j] != last {
          assert inputs[j] == init[j];
        }
      }
    }
  }

  /** Removing twice with the same list removes nothing more. */
  lemma {:induction false} KeptIsIdempotent(inputs: seq<Input>, except: Option<seq<string>>)
    ensures Kept(Kept(inputs, except), except) == Kept(inputs, except)
  {
    if inputs != [] {
      var init := inputs[..|inputs| - 1];
      var last := inputs[|inputs| - 1];
      KeptIsIdempotent(init, except);
      var k := Kept(init, except);
      if FieldName(last) in except.GetOr([]) {
        var k2 := k + [last];
        assert k2[..|k2| - 1] == k && k2[|k2| - 1] == last;
        assert Kept(k2, except) == Kept(k, except) + [last];
      } else {
        assert Kept(inputs, except) == k + [];
        assert k + [] == k;
      }
    }
  }

  // ---------------------------------------------------------------- model dictionary

  /** The model after UpdateValue(field, value). */
  function UpdatedModel(model: Option<Model>, field: ElementField, value: Value): Option<Model> {
    if field.uiOnly || model.None? then model else Some(model.value[field.name := value])
  }

  /** UpdateValue leaves a null model and UI-only fields alone; otherwise it sets the field's
      key, inserting it if absent, and no other key changes. */
  lemma UpdateValueEffect(model: Option<Model>, field: ElementField, value: Value)
    ensures field.uiOnly || model.None? ==> UpdatedModel(model, field, value) == model
    ensures !field.uiOnly && model.Some? ==>
      var m := UpdatedModel(model, field, value);
      && m.Some?
      && m.value.Keys == model.value.Keys + {field.name}
      && m.value[field.name] == value
      && forall k :: k in model.value && k != field.name ==> m.value[k] == model.value[k]
  {
  }

  /** GetValue<T>: `default` when the model is null, the key is missing or the value is null;
      otherwise the value converted to T. `convert` is the cast or Converter.ConvertObject;
      None means the conversion threw, and then the result is default(T) (`zero`), not the
      caller's default. */
  function GetValue<T>(model: Option<Model>, key: string, default: T, zero: T, convert: Value -> Option<T>): (r: T)
    ensures model.None? || key !in model.value || model.value[key] == NullValue ==> r == default
  {
    if model.None? || key !in model.value then default
    else
      var v := model.value[key];
      if v == NullValue then default
      else if convert(v).Some? then convert(v).value
      else zero
  }

  /** Update then read: the value written comes back, converted. */
  lemma UpdateThenGet<T>(model: Option<Model>, field: ElementField, value: Value, default: T, zero: T,
                         convert: Value -> Option<T>)
    requires !field.uiOnly && model.Some?
    ensures value == NullValue ==> GetValue(UpdatedModel(model, field, value), field.name, default, zero, convert) == default
    ensures value != NullValue && convert(value).Some? ==>
      GetValue(UpdatedModel(model, field, value), field.name, default, zero, convert) == convert(value).value
  {
  }

  /** An update leaves the reads of every other key as they were. */
  lemma UpdateKeepsOtherReads<T>(model: Option<Model>, field: ElementField, value: Value, key: string,
                                 default: T, zero: T, convert: Value -> Option<T>)
    requires key != field.name
    ensures GetValue(UpdatedModel(model, field, value), key, default, zero, convert)
         == GetValue(model, key, default, zero, convert)
  {
  }

  /** A stored value that fails to convert reads as default(T) whatever default is passed. */
  lemma FailedConversionIgnoresDefault<T>(model: Model, key: string, d1: T, d2: T, zero: T,
                                          convert: Value -> Option<T>)
    requires key in model && model[key] != NullValue && convert(model[key]).None?
    ensures GetValue(Some(model), key, d1, zero, convert) == zero
    ensures GetValue(Some(model), key, d1, zero, convert) == GetValue(Some(model), key, d2, zero, convert)
  {
  }

  // ---------------------------------------------------------------- fields

  /** FindField: the first field with the name; None when there are no fields or none has
      it. */
  function FindField(fields: Option<seq<ElementField>>, name: string): (r: Option<ElementField>)
    ensures r.Some? ==> fields.Some? && r.value in fields.value && r.value.name == name
    ensures r.None? <==> fields.None? || forall f :: f in fields.value ==> f.name != name
    decreases if fields.None? then 0 else |fields.value|
  {
    if fields.None? || fields.value == [] then None
    else if fields.value[0].name == name then Some(fields.value[0])
    else FindField(Some(fields.value[1..]), name)
  }

  lemma {:induction false} FindFieldIsFirst(fields: seq<ElementField>, name: string, i: nat)
    requires i < |fields| && fields[i].name == name
    requires forall j :: 0 <= j < i ==> fields[j].name != name
    ensures FindField(Some(fields), name) == Some(fields[i])
  {
    if i > 0 {
      FindFieldIsFirst(fields[1..], name, i - 1);
    }
  }

  /** The first Range validator of a list. */
  function FirstRange(validators: seq<Validator>): (r: Option<Validator>)
    ensures r.Some? ==> r.value.Range? && r.value in validators
    ensures r.None? <==> forall v :: v in validators ==> !v.Range?
  {
    if validators == [] then None
    else if validators[0].Range? then Some(validators[0])
    else FirstRange(validators[1..])
  }

  /** GetRange: (Minimum, Maximum) of the first Range validator, else (0, 0); a null field or
      a null validator list give (0, 0). */
  function GetRange(field: Option<ElementField>): (r: (int, int))
    ensures field.None? || field.value.validators.None? ==> r == (0, 0)
  {
    if field.None? || field.value.validators.None? then (0, 0)
    else
      match FirstRange(field.value.validators.value)
      case None => (0, 0)
      case Some(v) => (v.minimum, v.maximum)
  }

  lemma {:induction false} GetRangeIsFirstRange(field: ElementField, i: nat)
    requires field.validators.Some? && i < |field.validators.value|
    requires field.validators.value[i].Range?
    requires forall j :: 0 <= j < i ==> !field.validators.value[j].Range?
    ensures GetRange(Some(field)) == (field.validators.value[i].minimum, field.validators.value[i].maximum)
  {
    FirstRangeIsFirst(field.validators.value, i);
  }

  lemma {:induction false} FirstRangeIsFirst(validators: seq<Validator>, i: nat)
    requires i < |validators| && validators[i].Range?
    requires forall j :: 0 <= j < i ==> !validators[j].Range?
    ensures FirstRange(validators) == Some(validators[i])
  {
    if i > 0 {
      FirstRangeIsFirst(validators[1..], i - 1);
    }
  }

  /** No Range validator at all gives (0, 0). */
  lemma NoRangeGivesZero(field: ElementField)
    requires field.validators.Some? && forall v :: v in field.validators.value ==> !v.Range?
    ensures GetRange(Some(field)) == (0, 0)
  {
  }

  // ---------------------------------------------------------------- Save

  /** The inputs whose validation fails, in order; `validate` is each input's Validate(). */
  function FailedInputs(inputs: seq<Input>, validate: Input -> bool): seq<Input> {
    if inputs == [] then []
    else
      var last := inputs[|inputs| - 1];
      FailedInputs(inputs[..|inputs| - 1], validate) + (if validate(last) then [] else [last])
  }

  lemma {:induction false} FailedInputsAreInvalid(inputs: seq<Input>, validate: Input -> bool)
    ensures forall x :: x in FailedInputs(inputs, validate) <==> x in inputs && !validate(x)
    ensures FailedInputs(inputs, validate) == [] <==> forall x :: x in inputs ==> validate(x)
  {
    if inputs != [] {
      var init := inputs[..|inputs| - 1];
      FailedInputsAreInvalid(init, validate);
      assert inputs == init + [inputs[|inputs| - 1]];
    }
  }

  class Editor {
    var registeredInputs: seq<Input>
    var model: Option<Model>
    var visible: bool
    var readOnly: bool
    var fields: Option<seq<ElementField>>
    var tabs: Option<map<string, seq<ElementField>>>
    var openTask: TaskState
    /** OnClosed invocations. */
    var closedEvents: nat

    ghost predicate Valid()
      reads this
    {
      NoDuplicates(registeredInputs)
    }

    constructor ()
      ensures Valid()
      ensures registeredInputs == [] && model == None && !visible && !readOnly
      ensures fields == None && tabs == None && openTask == NoTask && closedEvents == 0
    {
      registeredInputs := [];
      model := None;
      visible := false;
      readOnly := false;
      fields := None;
      tabs := None;
      openTask := NoTask;
      closedEvents := 0;
    }

    method RegisterInput(input: Input)
      requires Valid()
      modifies this`registeredInputs
      ensures Valid()
      ensures registeredInputs == Registered(old(registeredInputs), input)
    {
      RegisterKeepsNoDuplicates(registeredInputs, input);
      if input !in registeredInputs {
        registeredInputs := registeredInputs + [input];
      }
    }

    /** `except` is None for a null array. */
    method RemoveRegisteredInputs(except: Option<seq<string>>)
      requires Valid()
      modifies this`registeredInputs
      ensures Valid()
      ensures registeredInputs == Kept(old(registeredInputs), except)
    {
      KeptKeepsNoDuplicates(registeredInputs, except);
      registeredInputs := Kept(registeredInputs, except);
    }

    method UpdateValue(field: ElementField, value: Value)
      modifies this`model
      ensures model == UpdatedModel(old(model), field, value)
    {
      if field.uiOnly {
        return;
      }
      if model.None? {
        return;
      }
      model := Some(model.value[field.name := value]);
    }

    /** Save: refused when read-only; otherwise every input is validated, and the editor
        closes only if all are valid and the callback (None when there is none) does not
        return false. Closing completes a pending task with the model, hides the editor,
        clears fields and tabs and raises OnClosed once. */
    method Save(validate: Input -> bool, callback: Option<bool>) returns (outcome: SaveOutcome)
      modifies this`openTask, this`visible, this`fields, this`tabs, this`closedEvents
      ensures readOnly ==> outcome == ReadOnlyRefused
      ensures !readOnly && FailedInputs(registeredInputs, validate) != [] ==>
        outcome == Invalid(FailedInputs(registeredInputs, validate))
      ensures !readOnly && FailedInputs(registeredInputs, validate) == [] && callback == Some(false) ==>
        outcome == Rejected
      ensures !outcome.Saved? ==>
        && openTask == old(openTask) && visible == old(visible) && fields == old(fields)
        && tabs == old(tabs) && closedEvents == old(closedEvents)
      ensures outcome.Saved? <==>
        !readOnly && FailedInputs(registeredInputs, validate) == [] && callback != Some(false)
      ensures outcome.Saved? ==>
        && openTask == (if old(openTask) == Pending then Completed(model) else old(openTask))
        && !visible
        && fields == (if old(fields).None? then None else Some([]))
        && tabs == (if old(tabs).None? then None else Some(map[]))
        && closedEvents == old(closedEvents) + 1
    {
      if readOnly {
        return ReadOnlyRefused;
      }
      var failed: seq<Input> := [];
      var k := 0;
      while k < |registeredInputs|
        invariant 0 <= k <= |registeredInputs|
        invariant failed == FailedInputs(registeredInputs[..k], validate)
      {
        assert registeredInputs[..k + 1][..k] == registeredInputs[..k];
        if !validate(registeredInputs[k]) {
          failed := failed + [registeredInputs[k]];
        }
        k := k + 1;
      }
      assert registeredInputs[..k] == registeredInputs;
      if failed != [] {
        return Invalid(failed);
      }
      if callback == Some(false) {
        return Rejected;
      }
      if openTask == Pending {
        openTask := Completed(model);
      }
      visible := false;
      if fields.Some? {
        fields := Some([]);
      }
      if tabs.Some? {
        tabs := Some(map[]);
      }
      closedEvents := closedEvents + 1;
      return Saved;
    }
  }
}
