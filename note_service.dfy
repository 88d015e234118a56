/**
 * The data-access layer over the `notes` collection: saving and deleting
 * a note, turning a query snapshot into the notes object, and routing the
 * events of a live subscription to its callbacks. The database itself is
 * outside the model: a call into it is described by the request it issues
 * and takes the way it settled as an input.
 */
module NoteService {
  import opened NoteTypes

  const NotesCollection := "notes"
  const SaveNotePrefix := "Error in saveNote: "
  const DeleteNotePrefix := "Error in deleteNote: "

  /** A write issued to the database. */
  datatype StoreRequest =
    | SetDoc(collection: string, docId: string, data: Note)
    | DeleteDoc(collection: string, docId: string)

  /** One document of a query snapshot: its own id and its data. */
  datatype Doc = Doc(id: string, data: Note)

  /** What a live subscription delivers: a new snapshot, or a failure. */
  datatype StoreEvent = SnapshotEvent(docs: seq<Doc>) | ErrorEvent(error: ErrorValue)

  /** A call the subscription makes into the caller's code. */
  datatype Callback = NotesChanged(notes: Notes) | ErrorReported(error: ErrorValue)

  // ---------------------------------------------------------------------
  // saveNote and deleteNote
  // ---------------------------------------------------------------------

  /**
   * The `Error` that the service throws in place of the database's failure:
   * its message begins with the prefix, and the rest of the message is
   * exactly the original failure's text, so nothing of the cause is lost.
   */
  function Wrapped(prefix: string, cause: ErrorValue): (e: ErrorValue)
    ensures e.ErrorObject? && e.name == "Error"
    ensures StartsWith(e.message, prefix)
    ensures e.message[|prefix|..] == Describe(cause)
  {
    var m := prefix + Describe(cause);
    assert m[..|prefix|] == prefix;
    assert m[|prefix|..] == Describe(cause);
    ErrorObject("Error", m)
  }

  /**
   * saveNote: writes the note under its own id in the notes collection; a
   * failure of the write is rethrown as an `Error` whose message is the
   * prefix followed by the text of the original failure.
   */
  function SaveNote(note: Note, stored: Outcome): (r: (StoreRequest, Outcome))
    ensures r.0 == SetDoc(NotesCollection, note.id, note)
    ensures r.1.Done? <==> stored.Done?
    ensures stored.Threw? ==> r.1.error == Wrapped(SaveNotePrefix, stored.error)
  {
    var request := SetDoc(NotesCollection, note.id, note);
    match stored
    case Done => (request, Done)
    case Threw(e) => (request, Threw(Wrapped(SaveNotePrefix, e)))
  }

  /** deleteNote: the same shape as saveNote, for a removal by id. */
  function DeleteNote(noteId: string, stored: Outcome): (r: (StoreRequest, Outcome))
    ensures r.0 == DeleteDoc(NotesCollection, noteId)
    ensures r.1.Done? <==> stored.Done?
    ensures stored.Threw? ==> r.1.error == Wrapped(DeleteNotePrefix, stored.error)
  {
    var request := DeleteDoc(NotesCollection, noteId);
    match stored
    case Done => (request, Done)
    case Threw(e) => (request, Threw(Wrapped(DeleteNotePrefix, e)))
  }

  /** A failed save surfaces with the saveNote prefix, never unwrapped. */
  lemma SaveFailureMessage(note: Note, stored: Outcome)
    requires stored.Threw?
    ensures SaveNote(note, stored).1.Threw?
    ensures SaveNote(note, stored).1.error.ErrorObject?
    ensures StartsWith(SaveNote(note, stored).1.error.message, SaveNotePrefix)
    ensures SaveNote(note, stored).1.error.message[|SaveNotePrefix|..] == Describe(stored.error)
  {
  }

  /** A failed delete surfaces with the deleteNote prefix, never unwrapped. */
  lemma DeleteFailureMessage(noteId: string, stored: Outcome)
    requires stored.Threw?
    ensures DeleteNote(noteId, stored).1.Threw?
    ensures DeleteNote(noteId, stored).1.error.ErrorObject?
    ensures StartsWith(DeleteNote(noteId, stored).1.error.message, DeleteNotePrefix)
    ensures DeleteNote(noteId, stored).1.error.message[|DeleteNotePrefix|..] == Describe(stored.error)
  {
  }

  // ---------------------------------------------------------------------
  // transformSnapshot
  // ---------------------------------------------------------------------

  /**
   * The notes object a snapshot denotes: the documents are taken in order
   * and each one writes its data under its document id, so the last
   * document with a given id decides the value stored under it.
   */
  function SnapshotNotes(docs: seq<Doc>): Notes {
    if docs == [] then map[]
    else SnapshotNotes(docs[..|docs| - 1])[docs[|docs| - 1].id := docs[|docs| - 1].data]
  }

  function DocIds(docs: seq<Doc>): set<string> {
    set i | 0 <= i < |docs| :: docs[i].id
  }

  /** Document `i` is the last one of the snapshot with its id. */
  predicate IsLastWithId(docs: seq<Doc>, i: int) {
    0 <= i < |docs| && forall j :: i < j < |docs| ==> docs[j].id != docs[i].id
  }

  /** The keys are exactly the document ids of the snapshot. */
  lemma {:induction false} SnapshotKeys(docs: seq<Doc>)
    ensures SnapshotNotes(docs).Keys == DocIds(docs)
  {
    if docs != [] {
      var init := docs[..|docs| - 1];
      SnapshotKeys(init);
      assert DocIds(docs) == DocIds(init) + {docs[|docs| - 1].id} by {
        forall k | k in DocIds(docs) ensures k in DocIds(init) + {docs[|docs| - 1].id} {
          var i :| 0 <= i < |docs| && docs[i].id == k;
          if i < |docs| - 1 { assert init[i] == docs[i]; }
        }
        forall k | k in DocIds(init) ensures k in DocIds(docs) {
          var i :| 0 <= i < |init| && init[i].id == k;
          assert docs[i] == init[i];
        }
      }
    }
  }

  /** The value under an id is the data of the last document with that id. */
  lemma {:induction false} SnapshotLastWins(docs: seq<Doc>, i: int)
    requires IsLastWithId(docs, i)
    ensures docs[i].id in SnapshotNotes(docs)
    ensures SnapshotNotes(docs)[docs[i].id] == docs[i].data
  {
    var n := |docs| - 1;
    if i < n {
      var init := docs[..n];
      assert init[i] == docs[i];
      assert IsLastWithId(init, i) by {
        forall j | i < j < |init| ensures init[j].id != init[i].id {
          assert init[j] == docs[j];
        }
      }
      SnapshotLastWins(init, i);
      assert docs[n].id != docs[i].id;
    }
  }

  /** An empty map comes from an empty snapshot, and from nothing else. */
  lemma SnapshotEmptyIff(docs: seq<Doc>)
    ensures SnapshotNotes(docs) == map[] <==> docs == []
  {
    SnapshotKeys(docs);
    if docs != [] {
      assert docs[0].id in DocIds(docs);
    }
  }

  /**
   * Folding two parts of a snapshot one after the other is the union of
   * their maps, the later part winning on a shared id.
   */
  lemma {:induction false} SnapshotAppend(a: seq<Doc>, b: seq<Doc>)
    ensures SnapshotNotes(a + b) == SnapshotNotes(a) + SnapshotNotes(b)
    decreases |b|
  {
    if b == [] {
      assert a + b == a;
    } else {
      var n := |b| - 1;
      assert (a + b)[..|a + b| - 1] == a + b[..n];
      assert (a + b)[|a + b| - 1] == b[n];
      SnapshotAppend(a, b[..n]);
    }
  }

  /**
   * The key of an entry is a document's id: a string that is no document's
   * id is never a key, whatever `id` the documents' data carry.
   */
  lemma KeyIsDocumentId(docs: seq<Doc>, x: string)
    requires forall i :: 0 <= i < |docs| ==> docs[i].id != x
    ensures x !in SnapshotNotes(docs)
  {
    SnapshotKeys(docs);
  }

  /** transformSnapshot: one pass over the documents, filling the notes object. */
  method TransformSnapshot(snapshot: seq<Doc>) returns (notes: Notes)
    ensures notes == SnapshotNotes(snapshot)
    ensures notes.Keys == DocIds(snapshot)
    ensures forall i :: IsLastWithId(snapshot, i) ==> notes[snapshot[i].id] == snapshot[i].data
  {
    notes := map[];
    for i := 0 to |snapshot|
      invariant notes == SnapshotNotes(snapshot[..i])
    {
      var doc := snapshot[i];
      notes := notes[doc.id := doc.data];
      assert snapshot[..i + 1][..i] == snapshot[..i];
    }
    assert snapshot[..|snapshot|] == snapshot;
    SnapshotKeys(snapshot);
    forall i | IsLastWithId(snapshot, i) ensures notes[snapshot[i].id] == snapshot[i].data {
      SnapshotLastWins(snapshot, i);
    }
  }

  // ---------------------------------------------------------------------
  // subscribeToNotes
  // ---------------------------------------------------------------------

  /**
   * The callback one subscription event leads to: a snapshot always calls
   * the notes callback with the transformed snapshot; a failure calls the
   * error callback when one was supplied and is dropped otherwise.
   */
  function Dispatch(ev: StoreEvent, hasOnError: bool): (r: Option<Callback>)
    ensures ev.SnapshotEvent? ==> r == Some(NotesChanged(SnapshotNotes(ev.docs)))
    ensures ev.ErrorEvent? ==> (r.Some? <==> hasOnError)
    ensures ev.ErrorEvent? && r.Some? ==> r.value == ErrorReported(ev.error)
  {
    match ev
    case SnapshotEvent(docs) => Some(NotesChanged(SnapshotNotes(docs)))
    case ErrorEvent(e) => if hasOnError then Some(ErrorReported(e)) else None
  }

  /** The calls a subscription makes, in order, for a sequence of events. */
  function DispatchAll(events: seq<StoreEvent>, hasOnError: bool): (r: seq<Callback>)
    ensures |r| <= |events|
    ensures hasOnError ==> |r| == |events|
    ensures !hasOnError ==> forall i :: 0 <= i < |r| ==> r[i].NotesChanged?
  {
    if events == [] then []
    else
      var rest := DispatchAll(events[1..], hasOnError);
      match Dispatch(events[0], hasOnError)
      case Some(c) => [c] + rest
      case None => rest
  }

  /** The snapshot events of a sequence of events, in order. */
  function Snapshots(events: seq<StoreEvent>): (r: seq<StoreEvent>)
    ensures forall i :: 0 <= i < |r| ==> r[i].SnapshotEvent?
  {
    if events == [] then []
    else if events[0].SnapshotEvent? then [events[0]] + Snapshots(events[1..])
    else Snapshots(events[1..])
  }

  /**
   * Without an error callback, a subscription behaves as if the failures
   * had never been delivered.
   */
  lemma {:induction false} FailuresDroppedWithoutOnError(events: seq<StoreEvent>)
    ensures DispatchAll(events, false) == DispatchAll(Snapshots(events), true)
  {
    if events != [] {
      FailuresDroppedWithoutOnError(events[1..]);
      if events[0].SnapshotEvent? {
        assert ([events[0]] + Snapshots(events[1..]))[1..] == Snapshots(events[1..]);
      }
    }
  }

  /**
   * With an error callback, every event leads to exactly its own call: the
   * i-th call is the dispatch of the i-th event.
   */
  lemma {:induction false} DispatchAllInOrder(events: seq<StoreEvent>, i: int)
    requires 0 <= i < |events|
    ensures Dispatch(events[i], true) == Some(DispatchAll(events, true)[i])
  {
    if i > 0 {
      DispatchAllInOrder(events[1..], i - 1);
    }
  }
}
