/**
 * The state of the colour page and its event handlers: adding a colour,
 * opening, editing, saving and cancelling an edit, deleting, and the
 * Enter/Escape keys of the two text inputs.
 *
 * The remote colour service is not modelled: each handler takes the outcome
 * of the remote calls it may make as parameters, and the page records every
 * request it issues in `sent`, so that the model says when a call is made.
 * Each handler runs to completion before the next event.
 */
module ColorPageModel {
  import opened Wrappers
  import opened JsText

  /** A colour as the service lists it. */
  datatype Color = Color(id: int, colorName: string)

  /** The requests the page sends to the colour service. */
  datatype Request =
    | ListColors(search: string, pageNumber: int, pageSize: int)
    | AddColor(colorName: string)
    | UpdateColor(id: int, colorName: string)
    | DeleteColor(id: int)

  /** Outcome of an add, update or delete call: it resolves, or it throws. */
  datatype Reply = Succeeded | Failed

  /** Outcome of the list call: it throws, or resolves with a payload whose `data` may be missing. */
  datatype ListReply = ListFailed | Listed(data: Option<seq<Color>>)

  /** Which input a key was pressed in. */
  datatype KeyAction = AddAction | UpdateAction

  const LoadFailedMessage: string := "Failed to load colors"
  const AddEmptyMessage: string := "Please enter a color name or code"
  const AddFailedMessage: string := "Failed to add color"
  const UpdateEmptyMessage: string := "Color name cannot be empty"
  const UpdateFailedMessage: string := "Failed to update color"
  const DeleteFailedMessage: string := "Failed to delete color"

  /** The list request every reload sends: no search text, page 1, 20 per page. */
  const Reload: Request := ListColors("", 1, 20)

  /** The page's state, and the requests sent so far. */
  datatype PageState = PageState(
    colors: seq<Color>,
    newColor: string,
    editColorId: Option<int>,
    editColorName: string,
    loading: bool,
    error: Option<string>,
    sent: seq<Request>)

  const InitialState: PageState := PageState([], "", None, "", false, None, [])

  /** The edit draft is empty whenever no colour is being edited. */
  predicate EditFormConsistent(st: PageState) {
    st.editColorId.None? ==> st.editColorName == ""
  }

  /** Every add or update request carries a non-empty, already trimmed name. */
  predicate NamesTrimmed(sent: seq<Request>) {
    forall i :: 0 <= i < |sent| ==>
      (sent[i].AddColor? || sent[i].UpdateColor?) ==> sent[i].colorName != "" && Trim(sent[i].colorName) == sent[i].colorName
  }

  // ------------------------------------------------------------ transitions

  /** `fetchColors`: reload the list; on failure keep the old list and show the error. */
  function Fetch(st: PageState, reply: ListReply): PageState {
    match reply
    case Listed(data) => st.(colors := data.GetOr([]), error := None, loading := false, sent := st.sent + [Reload])
    case ListFailed => st.(error := Some(LoadFailedMessage), loading := false, sent := st.sent + [Reload])
  }

  /** `handleAddColor`. */
  function AddColorStep(st: PageState, add: Reply, list: ListReply): PageState {
    var name := Trim(st.newColor);
    if name == "" then
      st.(error := Some(AddEmptyMessage))
    else
      var asked := st.(sent := st.sent + [AddColor(name)]);
      if add == Failed then asked.(error := Some(AddFailedMessage))
      else Fetch(asked.(newColor := "", error := None), list)
  }

  /** `handleEditColor`: open the edit form on a colour. */
  function EditColorStep(st: PageState, id: int, name: string): PageState {
    st.(editColorId := Some(id), editColorName := name)
  }

  /** `handleUpdateColor`. */
  function UpdateColorStep(st: PageState, update: Reply, list: ListReply): PageState {
    var name := Trim(st.editColorName);
    if name == "" || st.editColorId.None? then
      st.(error := Some(UpdateEmptyMessage))
    else
      var asked := st.(sent := st.sent + [UpdateColor(st.editColorId.value, name)]);
      if update == Failed then asked.(error := Some(UpdateFailedMessage))
      else Fetch(asked.(editColorId := None, editColorName := "", error := None), list)
  }

  /** `handleDeleteColor`; `confirmed` is the user's answer to the confirmation dialog. */
  function DeleteColorStep(st: PageState, id: int, confirmed: bool, delete: Reply, list: ListReply): PageState {
    if !confirmed then st
    else
      var asked := st.(sent := st.sent + [DeleteColor(id)]);
      if delete == Failed then asked.(error := Some(DeleteFailedMessage))
      else Fetch(asked, list)
  }

  /** The Cancel button of the edit form, and the Escape key. */
  function CancelEditStep(st: PageState): PageState {
    st.(editColorId := None, editColorName := "")
  }

  /** `handleKeyPress`: Enter submits the input it was pressed in, Escape closes the edit form. */
  function KeyPressStep(st: PageState, key: string, action: KeyAction, write: Reply, list: ListReply): PageState {
    var submitted :=
      if key == "Enter" then
        (if action == AddAction then AddColorStep(st, write, list) else UpdateColorStep(st, write, list))
      else st;
    if key == "Escape" then CancelEditStep(submitted) else submitted
  }

  // ------------------------------------------------------------- properties

  /** A blank new colour is refused with a message and no request; anything else is sent trimmed. */
  lemma AddGuard(st: PageState, add: Reply, list: ListReply)
    ensures Every(IsJsWhitespace, st.newColor) ==> AddColorStep(st, add, list) == st.(error := Some(AddEmptyMessage))
    ensures !Every(IsJsWhitespace, st.newColor) ==>
      |AddColorStep(st, add, list).sent| > |st.sent| && AddColorStep(st, add, list).sent[|st.sent|] == AddColor(Trim(st.newColor))
  {
    TrimShape(st.newColor);
  }

  /** A failed add keeps the list, the typed text and the edit form, and shows the failure. */
  lemma AddFailureKeepsState(st: PageState, list: ListReply)
    requires !Every(IsJsWhitespace, st.newColor)
    ensures AddColorStep(st, Failed, list) ==
      st.(sent := st.sent + [AddColor(Trim(st.newColor))], error := Some(AddFailedMessage))
  {
    TrimShape(st.newColor);
  }

  /** A successful add clears the input and then reloads the list from the service. */
  lemma AddSuccessReloads(st: PageState, list: ListReply)
    requires !Every(IsJsWhitespace, st.newColor)
    ensures AddColorStep(st, Succeeded, list).newColor == ""
    ensures AddColorStep(st, Succeeded, list).sent == st.sent + [AddColor(Trim(st.newColor)), Reload]
    ensures AddColorStep(st, Succeeded, list).colors == if list.Listed? then list.data.GetOr([]) else st.colors
  {
    TrimShape(st.newColor);
  }

  /** Saving is refused, with no request, when the draft is blank or no colour is being edited. */
  lemma UpdateGuard(st: PageState, update: Reply, list: ListReply)
    requires Every(IsJsWhitespace, st.editColorName) || st.editColorId.None?
    ensures UpdateColorStep(st, update, list) == st.(error := Some(UpdateEmptyMessage))
  {
    TrimShape(st.editColorName);
  }

  /** A successful save sends the edited id with the trimmed draft, closes the edit form and reloads. */
  lemma UpdateSuccessClearsEdit(st: PageState, list: ListReply)
    requires !Every(IsJsWhitespace, st.editColorName) && st.editColorId.Some?
    ensures UpdateColorStep(st, Succeeded, list).editColorId == None
    ensures UpdateColorStep(st, Succeeded, list).editColorName == ""
    ensures UpdateColorStep(st, Succeeded, list).sent ==
      st.sent + [UpdateColor(st.editColorId.value, Trim(st.editColorName)), Reload]
    ensures UpdateColorStep(st, Succeeded, list).colors == if list.Listed? then list.data.GetOr([]) else st.colors
  {
    TrimShape(st.editColorName);
  }

  /** A failed save leaves the edit form open on the same draft and shows the failure. */
  lemma UpdateFailureKeepsEdit(st: PageState, list: ListReply)
    requires !Every(IsJsWhitespace, st.editColorName) && st.editColorId.Some?
    ensures UpdateColorStep(st, Failed, list) ==
      st.(sent := st.sent + [UpdateColor(st.editColorId.value, Trim(st.editColorName))], error := Some(UpdateFailedMessage))
  {
    TrimShape(st.editColorName);
  }

  /** `handleKeyPress` called with the key `Escape` closes the edit form without sending anything. */
  lemma EscapeClearsEdit(st: PageState, action: KeyAction, write: Reply, list: ListReply)
    ensures KeyPressStep(st, "Escape", action, write, list) == st.(editColorId := None, editColorName := "")
  {
  }

  /** Every handler keeps the edit draft empty while no colour is being edited. */
  lemma StepsKeepEditFormConsistent(st: PageState, id: int, name: string, key: string, action: KeyAction,
                                    confirmed: bool, write: Reply, list: ListReply)
    requires EditFormConsistent(st)
    ensures EditFormConsistent(AddColorStep(st, write, list))
    ensures EditFormConsistent(EditColorStep(st, id, name))
    ensures EditFormConsistent(UpdateColorStep(st, write, list))
    ensures EditFormConsistent(DeleteColorStep(st, id, confirmed, write, list))
    ensures EditFormConsistent(CancelEditStep(st))
    ensures EditFormConsistent(KeyPressStep(st, key, action, write, list))
  {
  }

  /** Appending one request keeps `NamesTrimmed` when that request does. */
  lemma NamesTrimmedAppend(sent: seq<Request>, r: Request)
    requires NamesTrimmed(sent) && NamesTrimmed([r])
    ensures NamesTrimmed(sent + [r])
  {
    forall i | 0 <= i < |sent| + 1
      ensures ((sent + [r])[i].AddColor? || (sent + [r])[i].UpdateColor?) ==>
        (sent + [r])[i].colorName != "" && Trim((sent + [r])[i].colorName) == (sent + [r])[i].colorName
    {
      if i == |sent| {
        assert (sent + [r])[i] == [r][0];
      } else {
        assert (sent + [r])[i] == sent[i];
      }
    }
  }

  /** A name that survived the blank check is non-empty and already trimmed. */
  lemma TrimmedNameRequest(raw: string, id: int)
    requires Trim(raw) != ""
    ensures NamesTrimmed([AddColor(Trim(raw))]) && NamesTrimmed([UpdateColor(id, Trim(raw))])
  {
    TrimIdempotent(raw);
  }

  /** The add and update handlers only ever send non-empty, trimmed names, and only append to what was sent. */
  lemma WritesSendTrimmedNames(st: PageState, write: Reply, list: ListReply)
    requires NamesTrimmed(st.sent)
    ensures NamesTrimmed(AddColorStep(st, write, list).sent) && st.sent <= AddColorStep(st, write, list).sent
    ensures NamesTrimmed(UpdateColorStep(st, write, list).sent) && st.sent <= UpdateColorStep(st, write, list).sent
  {
    var a := Trim(st.newColor);
    if a != "" {
      TrimmedNameRequest(st.newColor, 0);
      NamesTrimmedAppend(st.sent, AddColor(a));
      NamesTrimmedAppend(st.sent + [AddColor(a)], Reload);
    }
    var u := Trim(st.editColorName);
    if u != "" && st.editColorId.Some? {
      TrimmedNameRequest(st.editColorName, st.editColorId.value);
      NamesTrimmedAppend(st.sent, UpdateColor(st.editColorId.value, u));
      NamesTrimmedAppend(st.sent + [UpdateColor(st.editColorId.value, u)], Reload);
    }
  }

  /** A failed write never changes the list shown; a successful one replaces it with a fresh listing. */
  lemma FailedWritesKeepList(st: PageState, id: int, list: ListReply)
    ensures AddColorStep(st, Failed, list).colors == st.colors
    ensures UpdateColorStep(st, Failed, list).colors == st.colors
    ensures DeleteColorStep(st, id, true, Failed, list).colors == st.colors
    ensures DeleteColorStep(st, id, true, Succeeded, list).sent == st.sent + [DeleteColor(id), Reload]
    ensures DeleteColorStep(st, id, true, Succeeded, list).colors == if list.Listed? then list.data.GetOr([]) else st.colors
    ensures DeleteColorStep(st, id, false, Succeeded, list) == st
  {
  }

  // ------------------------------------------------------------------ page

  /** The page component: its state fields, updated in place by the handlers. */
  class ColorPage {
    var colors: seq<Color>
    var newColor: string
    var editColorId: Option<int>
    var editColorName: string
    var loading: bool
    var error: Option<string>
    var sent: seq<Request>

    function State(): PageState
      reads this
    {
      PageState(colors, newColor, editColorId, editColorName, loading, error, sent)
    }

    /** The invariant every handler preserves; no contract depends on it beyond its preservation. */
    ghost predicate Valid()
      reads this
    {
      EditFormConsistent(State())
    }

    /** The initial state of the component, before the mount effect loads the list. */
    constructor ()
      ensures Valid() && State() == InitialState
    {
      colors := [];
      newColor := "";
      editColorId := None;
      editColorName := "";
      loading := false;
      error := None;
      sent := [];
    }

    method FetchColors(reply: ListReply)
      requires Valid()
      modifies this
      ensures Valid() && State() == Fetch(old(State()), reply)
    {
      loading := true;
      error := None;
      sent := sent + [Reload];
      match reply {
        case Listed(data) =>
          colors := data.GetOr([]);
        case ListFailed =>
          error := Some(LoadFailedMessage);
      }
      loading := false;
    }

    method HandleAddColor(add: Reply, list: ListReply)
      requires Valid()
      modifies this
      ensures Valid() && State() == AddColorStep(old(State()), add, list)
    {
      var name := Trim(newColor);
      if name == "" {
        error := Some(AddEmptyMessage);
        return;
      }
      sent := sent + [AddColor(name)];
      if add == Failed {
        error := Some(AddFailedMessage);
        return;
      }
      newColor := "";
      error := None;
      FetchColors(list);
    }

    method HandleEditColor(id: int, name: string)
      requires Valid()
      modifies this
      ensures Valid() && State() == EditColorStep(old(State()), id, name)
    {
      editColorId := Some(id);
      editColorName := name;
    }

    method HandleUpdateColor(update: Reply, list: ListReply)
      requires Valid()
      modifies this
      ensures Valid() && State() == UpdateColorStep(old(State()), update, list)
    {
      var name := Trim(editColorName);
      if name == "" || editColorId.None? {
        error := Some(UpdateEmptyMessage);
        return;
      }
      sent := sent + [UpdateColor(editColorId.value, name)];
      if update == Failed {
        error := Some(UpdateFailedMessage);
        return;
      }
      editColorId := None;
      editColorName := "";
      error := None;
      FetchColors(list);
    }

    method HandleDeleteColor(id: int, confirmed: bool, delete: Reply, list: ListReply)
      requires Valid()
      modifies this
      ensures Valid() && State() == DeleteColorStep(old(State()), id, confirmed, delete, list)
    {
      if !confirmed {
        return;
      }
      sent := sent + [DeleteColor(id)];
      if delete == Failed {
        error := Some(DeleteFailedMessage);
        return;
      }
      FetchColors(list);
    }

    method CancelEdit()
      requires Valid()
      modifies this
      ensures Valid() && State() == CancelEditStep(old(State()))
    {
      editColorId := None;
      editColorName := "";
    }

    method HandleKeyPress(key: string, action: KeyAction, write: Reply, list: ListReply)
      requires Valid()
      modifies this
      ensures Valid() && State() == KeyPressStep(old(State()), key, action, write, list)
    {
      if key == "Enter" {
        if action == AddAction {
          HandleAddColor(write, list);
        }
        if action == UpdateAction {
          HandleUpdateColor(write, list);
        }
      }
      if key == "Escape" {
        CancelEdit();
      }
    }

    /** Typing in the add input. */
    method SetNewColor(text: string)
      requires Valid()
      modifies this
      ensures Valid() && State() == old(State()).(newColor := text)
    {
      newColor := text;
    }

    /** Typing in the edit input, which is only shown while a colour is being edited. */
    method SetEditColorName(text: string)
      requires Valid() && editColorId.Some?
      modifies this
      ensures Valid() && State() == old(State()).(editColorName := text)
    {
      editColorName := text;
    }

    /** The close button of the error banner. */
    method DismissError()
      requires Valid()
      modifies this
      ensures Valid() && State() == old(State()).(error := None)
    {
      error := None;
    }
  }
}
