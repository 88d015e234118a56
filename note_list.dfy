/**
 * The list of notes: its subscription state (the notes object, the loading
 * flag and the error), the callbacks of the live subscription that update
 * it, and the choice of what to show, with the notes most recent first.
 */
module NoteList {
  import opened NoteTypes
  import NoteService

  const FallbackError := "Error when calling subscribeToNotes from NoteList"

  // ---------------------------------------------------------------------
  // Sorting by lastUpdated, most recent first
  // ---------------------------------------------------------------------

  /** Non-increasing `lastUpdated`, the order of the comparator `b.lastUpdated - a.lastUpdated`. */
  predicate SortedByRecency(s: seq<Note>) {
    forall i, j :: 0 <= i < j < |s| ==> s[i].lastUpdated >= s[j].lastUpdated
  }

  function InsertByRecency(n: Note, s: seq<Note>): (r: seq<Note>)
    requires SortedByRecency(s)
    ensures SortedByRecency(r)
    ensures multiset(r) == multiset(s) + multiset{n}
    ensures r[0] == n || (s != [] && r[0] == s[0])
  {
    if s == [] || n.lastUpdated >= s[0].lastUpdated then [n] + s
    else
      var rest := InsertByRecency(n, s[1..]);
      assert s == [s[0]] + s[1..];
      [s[0]] + rest
  }

  /** The notes reordered, most recently updated first. */
  function SortByRecency(s: seq<Note>): (r: seq<Note>)
    ensures SortedByRecency(r)
    ensures multiset(r) == multiset(s)
  {
    if s == [] then []
    else
      assert s == [s[0]] + s[1..];
      InsertByRecency(s[0], SortByRecency(s[1..]))
  }

  /** Sorting neither adds nor drops a note. */
  lemma SortKeepsNotes(s: seq<Note>)
    ensures |SortByRecency(s)| == |s|
    ensures forall x :: x in SortByRecency(s) <==> x in s
  {
    var r := SortByRecency(s);
    assert |multiset(r)| == |multiset(s)|;
    forall x ensures x in r <==> x in s {
      assert x in r <==> x in multiset(r);
      assert x in s <==> x in multiset(s);
    }
  }

  /** A sorted reordering of a collection puts a most recent note first. */
  lemma MostRecentFirst(s: seq<Note>, n: Note)
    requires n in s
    ensures SortByRecency(s) != [] && SortByRecency(s)[0].lastUpdated >= n.lastUpdated
  {
    var r := SortByRecency(s);
    assert n in multiset(s);
    assert n in r;
    var i :| 0 <= i < |r| && r[i] == n;
    if i > 0 {
      assert r[0].lastUpdated >= r[i].lastUpdated;
    }
  }

  // ---------------------------------------------------------------------
  // The values of the notes object and the choice of view
  // ---------------------------------------------------------------------

  /** Some key of a non-empty notes object. */
  ghost function SomeKey(m: Notes): (k: string)
    requires m != map[]
    ensures k in m
  {
    var k :| k in m; k
  }

  /**
   * The values of the notes object, one per key, in some order (the order
   * `Object.values` gives is not part of the model).
   */
  ghost function ValuesOf(m: Notes): seq<Note>
    decreases |m|
  {
    if m == map[] then []
    else
      var k := SomeKey(m);
      assert (m - {k}).Keys == m.Keys - {k};
      [m[k]] + ValuesOf(m - {k})
  }

  /** The keys of the notes object whose value is `n`. */
  ghost function KeysHolding(m: Notes, n: Note): set<string> {
    set k | k in m && m[k] == n
  }

  /** Taking one key out of the object takes it out of the keys holding its value only. */
  lemma KeysHoldingWithout(m: Notes, k: string, n: Note)
    requires k in m
    ensures |KeysHolding(m, n)| == |KeysHolding(m - {k}, n)| + (if m[k] == n then 1 else 0)
  {
    var rest := m - {k};
    if m[k] == n {
      assert KeysHolding(m, n) == KeysHolding(rest, n) + {k};
      assert k !in KeysHolding(rest, n);
    } else {
      assert KeysHolding(m, n) == KeysHolding(rest, n);
    }
  }

  /**
   * The values hold one entry per key, and every value of every key; each
   * note occurs exactly as often as there are keys that hold it.
   */
  lemma {:induction false} ValuesOfSpec(m: Notes)
    ensures |ValuesOf(m)| == |m|
    ensures forall k :: k in m ==> m[k] in ValuesOf(m)
    ensures forall i :: 0 <= i < |ValuesOf(m)| ==> ValuesOf(m)[i] in m.Values
    ensures forall n :: multiset(ValuesOf(m))[n] == |KeysHolding(m, n)|
    decreases |m|
  {
    if m == map[] {
      forall n ensures multiset(ValuesOf(m))[n] == |KeysHolding(m, n)| {
        assert KeysHolding(m, n) == {};
      }
    } else {
      var k := SomeKey(m);
      var rest := m - {k};
      assert rest.Keys == m.Keys - {k};
      ValuesOfSpec(rest);
      var r := ValuesOf(m);
      assert r == [m[k]] + ValuesOf(rest);
      forall k' | k' in m ensures m[k'] in r {
        if k' != k {
          assert rest[k'] == m[k'];
          assert m[k'] in ValuesOf(rest);
        }
      }
      forall i | 0 <= i < |r| ensures r[i] in m.Values {
        if i > 0 {
          assert r[i] == ValuesOf(rest)[i - 1];
          assert r[i] in rest.Values;
        }
      }
      forall n ensures multiset(r)[n] == |KeysHolding(m, n)| {
        assert multiset(r) == multiset{m[k]} + multiset(ValuesOf(rest));
        KeysHoldingWithout(m, k, n);
      }
    }
  }

  /** The part of the list below the heading. */
  datatype Body = Loading | NoNotes | NoteItems(notes: seq<Note>)

  /** The list as rendered: the error line, if any, and the body. */
  datatype ListView = ListView(errorLine: Option<string>, body: Body)

  /**
   * The body for a loading flag and a notes object: loading takes
   * precedence, then an empty notes object shows the "No notes yet"
   * message, and otherwise the notes are listed.
   */
  ghost function SelectBody(isLoading: bool, notes: Notes): (b: Body)
    ensures b.Loading? <==> isLoading
    ensures b.NoNotes? <==> !isLoading && |notes| == 0
  {
    if isLoading then Loading
    else if |notes| == 0 then NoNotes
    else NoteItems(SortByRecency(ValuesOf(notes)))
  }

  /**
   * Whenever the notes are listed, every note is shown once per key that
   * holds it, nothing else is shown, and the most recent come first.
   */
  lemma SelectBodySpec(isLoading: bool, notes: Notes)
    ensures SelectBody(isLoading, notes).NoteItems? ==> ShowsEveryNote(SelectBody(isLoading, notes).notes, notes)
  {
    if !isLoading && |notes| > 0 {
      var values := ValuesOf(notes);
      ValuesOfSpec(notes);
      SortKeepsNotes(values);
      var shown := SortByRecency(values);
      forall k | k in notes ensures notes[k] in shown {
        assert notes[k] in values;
      }
      forall i | 0 <= i < |shown| ensures shown[i] in notes.Values {
        assert shown[i] in values;
        var j :| 0 <= j < |values| && values[j] == shown[i];
      }
    }
  }

  /**
   * `shown` is a rendering of the notes object: ordered most recent first,
   * each note as often as there are keys holding it, one entry per key,
   * every value present and nothing else.
   */
  ghost predicate ShowsEveryNote(shown: seq<Note>, notes: Notes) {
    && SortedByRecency(shown)
    && (forall n :: multiset(shown)[n] == |KeysHolding(notes, n)|)
    && |shown| == |notes|
    && (forall k :: k in notes ==> notes[k] in shown)
    && (forall i :: 0 <= i < |shown| ==> shown[i] in notes.Values)
  }

  /**
   * The message shown for a subscription failure: the message of an
   * `Error`, or the fixed fallback text for any other thrown value.
   */
  function ErrorText(e: ErrorValue): (t: string)
    ensures e.ErrorObject? ==> t == e.message
    ensures !e.ErrorObject? ==> t == FallbackError
  {
    match e
    case ErrorObject(_, message) => message
    case _ => FallbackError
  }

  // ---------------------------------------------------------------------
  // The component's state
  // ---------------------------------------------------------------------

  class ListState {
    var notesList: Notes
    var isLoading: bool
    var error: Option<string>

    /** The state before the subscription has delivered anything. */
    constructor ()
      ensures notesList == map[] && isLoading && error == None
    {
      notesList := map[];
      isLoading := true;
      error := None;
    }

    /** The mount effect, up to the subscription call: loading again. */
    method Mount()
      modifies this
      ensures isLoading
      ensures notesList == old(notesList) && error == old(error)
    {
      isLoading := true;
    }

    /** The notes callback: the delivered notes replace the list; an earlier error stays. */
    method OnNotesChange(notes: Notes)
      modifies this
      ensures notesList == notes && !isLoading
      ensures error == old(error)
    {
      notesList := notes;
      isLoading := false;
    }

    /** The error callback: records the message and stops loading; the list stays. */
    method OnError(e: ErrorValue)
      modifies this
      ensures error == Some(ErrorText(e)) && !isLoading
      ensures notesList == old(notesList)
    {
      error := Some(ErrorText(e));
      isLoading := false;
    }

    /**
     * One event of the list's subscription, which always supplies an error
     * callback: a snapshot shows its transformed notes, a failure its message.
     */
    method Receive(ev: NoteService.StoreEvent)
      modifies this
      ensures !isLoading
      ensures ev.SnapshotEvent? ==> notesList == NoteService.SnapshotNotes(ev.docs) && error == old(error)
      ensures ev.ErrorEvent? ==> notesList == old(notesList) && error == Some(ErrorText(ev.error))
    {
      var call := NoteService.Dispatch(ev, true);
      if call.Some? {
        match call.value
        case NotesChanged(notes) => OnNotesChange(notes);
        case ErrorReported(e) => OnError(e);
      }
    }

    /** The rendered list: an error line whenever the error is a non-empty string. */
    ghost function View(): (v: ListView)
      reads this
      ensures v.errorLine.Some? <==> Truthy(error)
      ensures v.errorLine.Some? ==> v.errorLine == error
      ensures v.body == SelectBody(isLoading, notesList)
    {
      ListView(if Truthy(error) then error else None, SelectBody(isLoading, notesList))
    }
  }
}
