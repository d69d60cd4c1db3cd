/**
 * A label that turns into a text input when clicked. Clicking copies the
 * current value into the draft and remembers it as the value before editing;
 * typing changes only the draft; leaving the input ends editing and reports
 * the transformed draft to the parent, but only when it differs from the
 * value before editing.
 */
module EditableLabel {
  import opened Model
  import StringMethods

  /** The default transformer: the draft as typed. */
  function Identity(before: JsString): (after: JsString)
  {
    before
  }

  /**
   * The component's state between renders. `emitted` records, oldest first,
   * every value the `onValueChanged` callback has been called with. The props
   * `value` and `transformer` are read by the handlers at the time they run,
   * so they are parameters of the handlers.
   */
  class Label {
    var isEditing: bool
    var currentState: JsString
    var valueBeforeEdit: JsString
    var emitted: seq<JsString>

    /** A fresh label shows its value; draft and remembered value start empty. */
    constructor ()
      ensures !isEditing && currentState == [] && valueBeforeEdit == [] && emitted == []
    {
      isEditing := false;
      currentState := [];
      valueBeforeEdit := [];
      emitted := [];
    }

    /** Click on the displayed value (only shown while not editing). */
    method OnStartEdit(value: JsString)
      requires !isEditing
      modifies this
      ensures isEditing
      ensures currentState == value && valueBeforeEdit == value
      ensures emitted == old(emitted)
    {
      valueBeforeEdit := value;
      currentState := value;
      isEditing := true;
    }

    /** The input's text changed (the input exists only while editing). */
    method OnChangeInput(text: JsString)
      requires isEditing
      modifies this
      ensures currentState == text
      ensures isEditing && valueBeforeEdit == old(valueBeforeEdit) && emitted == old(emitted)
    {
      currentState := text;
    }

    /**
     * The input lost focus: editing ends, and the callback is called once with
     * the transformed draft if that differs from the value before editing.
     */
    method OnBlurInput(transformer: JsString -> JsString)
      requires isEditing
      modifies this
      ensures !isEditing
      ensures currentState == old(currentState) && valueBeforeEdit == old(valueBeforeEdit)
      ensures transformer(old(currentState)) != old(valueBeforeEdit) ==>
                emitted == old(emitted) + [transformer(old(currentState))]
      ensures transformer(old(currentState)) == old(valueBeforeEdit) ==> emitted == old(emitted)
    {
      isEditing := false;
      var transformedValue := transformer(currentState);
      if transformedValue == valueBeforeEdit {
        return;
      }
      emitted := emitted + [transformedValue];
    }
  }

  /**
   * Click, then leave the input without typing: the callback fires only when
   * the transformer changes the value. With the identity transformer it never fires.
   */
  method StartThenBlur(value: JsString, transformer: JsString -> JsString) returns (fired: seq<JsString>)
    ensures transformer(value) == value ==> fired == []
    ensures transformer(value) != value ==> fired == [transformer(value)]
  {
    var component := new Label();
    component.OnStartEdit(value);
    component.OnBlurInput(transformer);
    fired := component.emitted;
  }

  /** With the default transformer, clicking and leaving the input never reports a change. */
  method IdentityNeverFires(value: JsString) returns (fired: seq<JsString>)
    ensures fired == []
  {
    fired := StartThenBlur(value, Identity);
  }

  /**
   * Click, type `text`, leave the input: the callback fires exactly once, with
   * the transformed text, when that differs from the value before editing.
   */
  method EditOnce(value: JsString, text: JsString, transformer: JsString -> JsString) returns (fired: seq<JsString>)
    ensures |fired| <= 1
    ensures fired == [transformer(text)] <==> transformer(text) != value
    ensures fired == [] <==> transformer(text) == value
  {
    var component := new Label();
    component.OnStartEdit(value);
    component.OnChangeInput(text);
    component.OnBlurInput(transformer);
    fired := component.emitted;
  }

  /**
   * The comparison is with the untransformed value: with `trim` as transformer,
   * leaving a padded value unchanged still reports the trimmed value.
   */
  method UnchangedDraftCanFire() returns (fired: seq<JsString>)
    ensures fired == ["milk"]
  {
    assert StringMethods.Trim(" milk") == "milk" by {
      assert StringMethods.TrimStart(" milk") == "milk";
    }
    fired := StartThenBlur(" milk", StringMethods.Trim);
  }
}
