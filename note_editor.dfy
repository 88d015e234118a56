/**
 * The form that creates or updates a note: the note being edited, the
 * saving flag and the error, the field change handlers, the submit flow
 * and the button label.
 */
module NoteEditor {
  import opened NoteTypes
  import NoteService

  const SubmitPrefix := "Error in handleSubmit: "

  // ---------------------------------------------------------------------
  // The note record and its edits
  // ---------------------------------------------------------------------

  /** The note a new form starts from: a fresh id, empty fields, stamped now. */
  function BlankNote(freshId: string, now: int): (n: Note)
    ensures n.id == freshId && n.title == "" && n.content == "" && n.lastUpdated == now
  {
    Note(freshId, "", "", now)
  }

  /** The note the form holds at first and after its initial note changes. */
  function StartingNote(initialNote: Option<Note>, freshId: string, now: int): (n: Note)
    ensures initialNote.Some? ==> n == initialNote.value
    ensures initialNote.None? ==> n.id == freshId && n.title == "" && n.content == "" && n.lastUpdated == now
  {
    match initialNote
    case Some(given) => given
    case None => BlankNote(freshId, now)
  }

  /** The title field's change handler, applied to the previous note. */
  function WithTitle(previous: Note, title: string, now: int): (n: Note)
    ensures n.id == previous.id && n.content == previous.content
    ensures n.title == title && n.lastUpdated == now
  {
    Note(previous.id, title, previous.content, now)
  }

  /** The content field's change handler, applied to the previous note. */
  function WithContent(previous: Note, content: string, now: int): (n: Note)
    ensures n.id == previous.id && n.title == previous.title
    ensures n.content == content && n.lastUpdated == now
  {
    Note(previous.id, previous.title, content, now)
  }

  /** Editing the two fields in either order gives the same note, stamped by the later edit. */
  lemma EditsCommute(n: Note, title: string, content: string, first: int, second: int)
    ensures WithContent(WithTitle(n, title, first), content, second)
         == WithTitle(WithContent(n, content, first), title, second)
  {
  }

  /** A second edit of the same field overrides the first. */
  lemma LaterEditWins(n: Note, t1: string, t2: string, c1: string, c2: string, a: int, b: int)
    ensures WithTitle(WithTitle(n, t1, a), t2, b) == WithTitle(n, t2, b)
    ensures WithContent(WithContent(n, c1, a), c2, b) == WithContent(n, c2, b)
  {
  }

  /** "Saving..." while saving, else "Update Note" when editing a given note, else "Save Note". */
  function ButtonLabel(saving: bool, editing: bool): (text: string)
    ensures saving ==> text == "Saving..."
    ensures !saving && editing ==> text == "Update Note"
    ensures !saving && !editing ==> text == "Save Note"
  {
    if saving then "Saving..." else if editing then "Update Note" else "Save Note"
  }

  /** The label tells whether a save is running and, when none is, whether a note is being updated. */
  lemma ButtonLabelDistinguishes(s1: bool, e1: bool, s2: bool, e2: bool)
    requires ButtonLabel(s1, e1) == ButtonLabel(s2, e2)
    ensures s1 == s2
    ensures !s1 ==> e1 == e2
  {
  }

  /**
   * `(error as Error).message` for a caught value: the message of an
   * `Error`, "undefined" for a value that has no such property, and None
   * for `null` or `undefined`, where reading a property throws a TypeError.
   */
  function MessageOf(e: ErrorValue): (m: Option<string>)
    ensures m.None? <==> e.Nullish?
    ensures e.ErrorObject? ==> m == Some(e.message)
    ensures e.Thrown? ==> m == Some("undefined")
  {
    match e
    case ErrorObject(_, message) => Some(message)
    case Nullish(_) => None
    case Thrown(_) => Some("undefined")
  }

  /** The save was written and, when there is an `onSave`, it returned. */
  predicate SubmitSucceeded(stored: Outcome, hasOnSave: bool, onSaveReturned: Outcome) {
    stored.Done? && (!hasOnSave || onSaveReturned.Done?)
  }

  /**
   * `onSave` threw `null` or `undefined`: the `catch` block itself throws,
   * so neither its `setError` nor the `setCurrentlySaving(false)` after it runs.
   */
  predicate CatchThrows(stored: Outcome, hasOnSave: bool, onSaveReturned: Outcome) {
    stored.Done? && hasOnSave && onSaveReturned.Threw? && onSaveReturned.error.Nullish?
  }

  /** What the form shows. */
  datatype EditorView = EditorView(
    failureShown: bool,
    title: string,
    content: string,
    fieldsDisabled: bool,
    buttonLabel: string,
    buttonDisabled: bool)

  // ---------------------------------------------------------------------
  // The component's state
  // ---------------------------------------------------------------------

  class EditorState {
    var initialNote: Option<Note>
    const hasOnSave: bool
    var note: Note
    var currentlySaving: bool
    var error: Option<string>

    /** The state initialiser, with the fresh id and the current time passed in. */
    constructor (initialNote: Option<Note>, hasOnSave: bool, freshId: string, now: int)
      ensures this.initialNote == initialNote && this.hasOnSave == hasOnSave
      ensures note == StartingNote(initialNote, freshId, now)
      ensures !currentlySaving && error == None
    {
      this.initialNote := initialNote;
      this.hasOnSave := hasOnSave;
      note := StartingNote(initialNote, freshId, now);
      currentlySaving := false;
      error := None;
    }

    /**
     * The effect that runs on mount and whenever the initial note changes:
     * the form takes the new initial note, or a fresh blank one.
     */
    method SyncInitialNote(newInitial: Option<Note>, freshId: string, now: int)
      modifies this
      ensures initialNote == newInitial
      ensures note == StartingNote(newInitial, freshId, now)
      ensures !currentlySaving && error == old(error)
    {
      initialNote := newInitial;
      currentlySaving := true;
      note := StartingNote(newInitial, freshId, now);
      currentlySaving := false;
    }

    method ChangeTitle(value: string, now: int)
      modifies this
      ensures note == WithTitle(old(note), value, now)
      ensures initialNote == old(initialNote) && currentlySaving == old(currentlySaving) && error == old(error)
    {
      note := WithTitle(note, value, now);
    }

    method ChangeContent(value: string, now: int)
      modifies this
      ensures note == WithContent(old(note), value, now)
      ensures initialNote == old(initialNote) && currentlySaving == old(currentlySaving) && error == old(error)
    {
      note := WithContent(note, value, now);
    }

    /**
     * handleSubmit, with the way the database settled the save, the way the
     * `onSave` callback returned (when there is one), the fresh id and the
     * current time passed in. Returns the write issued and the note handed
     * to `onSave`, if it was called. The `try` covers both calls: a failure
     * of either one records its message and skips the reset, except that a
     * thrown `null` or `undefined` makes the `catch` throw and leaves the form
     * saving.
     */
    method HandleSubmit(stored: Outcome, onSaveReturned: Outcome, freshId: string, now: int)
      returns (request: NoteService.StoreRequest, saved: Option<Note>)
      modifies this
      ensures request == NoteService.SetDoc(NoteService.NotesCollection, old(note).id, old(note))
      ensures initialNote == old(initialNote)
      ensures currentlySaving <==> CatchThrows(stored, hasOnSave, onSaveReturned)
      // onSave is called, with the submitted note, exactly when it is given and the write succeeded
      ensures saved == (if stored.Done? && hasOnSave then Some(old(note)) else None)
      // both calls returned: a new note's form is reset, an edited note stays
      ensures SubmitSucceeded(stored, hasOnSave, onSaveReturned) ==>
                note == (if initialNote.None? then BlankNote(freshId, now) else old(note))
      ensures SubmitSucceeded(stored, hasOnSave, onSaveReturned) ==> error == old(error)
      // a failed write: the service's wrapped message follows the handler's prefix
      ensures stored.Threw? ==> note == old(note)
      ensures stored.Threw? ==>
                error == Some(SubmitPrefix + NoteService.SaveNotePrefix + Describe(stored.error))
      // onSave threw: the note is kept, and the message of what it threw follows the handler's prefix
      ensures stored.Done? && hasOnSave && onSaveReturned.Threw? ==> note == old(note)
      ensures stored.Done? && hasOnSave && onSaveReturned.Threw? && !onSaveReturned.error.Nullish? ==>
                error == Some(SubmitPrefix + MessageOf(onSaveReturned.error).value)
      // onSave threw null or undefined: the catch throws, the error is kept, the form stays saving
      ensures CatchThrows(stored, hasOnSave, onSaveReturned) ==> error == old(error)
      ensures CatchThrows(stored, hasOnSave, onSaveReturned) ==>
                View().fieldsDisabled && View().buttonLabel == "Saving..."
      ensures !SubmitSucceeded(stored, hasOnSave, onSaveReturned) && !CatchThrows(stored, hasOnSave, onSaveReturned) ==>
                View().failureShown
      ensures !CatchThrows(stored, hasOnSave, onSaveReturned) ==>
                !View().fieldsDisabled && View().buttonLabel != "Saving..."
    {
      currentlySaving := true;
      var submitted := note;
      var call := NoteService.SaveNote(submitted, stored);
      request := call.0;
      var settled := call.1;
      saved := None;
      var caught: Option<ErrorValue> := None;
      if settled.Threw? {
        caught := Some(settled.error);
      } else {
        if hasOnSave {
          saved := Some(submitted);
          if onSaveReturned.Threw? {
            caught := Some(onSaveReturned.error);
          }
        }
        if caught.None? && initialNote.None? {
          note := BlankNote(freshId, now);
        }
      }
      if caught.Some? {
        var message := MessageOf(caught.value);
        if message.None? {
          // the catch throws before it records anything; handleSubmit rejects
          return;
        }
        if settled.Threw? {
          assert SubmitPrefix + message.value
              == SubmitPrefix + NoteService.SaveNotePrefix + Describe(stored.error);
        }
        error := Some(SubmitPrefix + message.value);
      }
      currentlySaving := false;
    }

    /**
     * The rendered form: the fields disabled while saving, the button never
     * disabled, and the failure message while the error is a non-empty string.
     */
    function View(): (v: EditorView)
      reads this
      ensures v.fieldsDisabled == currentlySaving && !v.buttonDisabled
      ensures v.buttonLabel == ButtonLabel(currentlySaving, initialNote.Some?)
      ensures v.failureShown <==> Truthy(error)
      ensures v.title == note.title && v.content == note.content
    {
      EditorView(
        Truthy(error),
        note.title,
        note.content,
        currentlySaving,
        ButtonLabel(currentlySaving, initialNote.Some?),
        false)
    }
  }
}
