/**
 * The view of one note: the relative "last updated" text, the delete flow
 * (confirmation, the delete call, the deleting flag and the error), and the
 * edit callback.
 */
module NoteItem {
  import opened NoteTypes
  import opened Decimal
  import NoteService

  // ---------------------------------------------------------------------
  // getTimeAgo
  // ---------------------------------------------------------------------

  datatype TimeUnit = Year | Month | Day | Hour | Minute

  /** The length of each unit in seconds: a year is 365 days, a month 30. */
  function UnitSeconds(u: TimeUnit): nat {
    match u
    case Year => 31536000
    case Month => 2592000
    case Day => 86400
    case Hour => 3600
    case Minute => 60
  }

  function UnitName(u: TimeUnit): string {
    match u
    case Year => "year"
    case Month => "month"
    case Day => "day"
    case Hour => "hour"
    case Minute => "minute"
  }

  /** What the relative time says: under a minute, or a count of some unit. */
  datatype Elapsed = JustNow | Ago(count: nat, unit: TimeUnit)

  /**
   * Whole seconds between `timestamp` and `now`, both in milliseconds,
   * rounded down, so a timestamp in the future gives a negative count.
   */
  function ElapsedSeconds(now: int, timestamp: int): (s: int)
    ensures s * 1000 <= now - timestamp < s * 1000 + 1000
  {
    (now - timestamp) / 1000
  }

  /**
   * The reading of `seconds` the formatter is meant to give: the largest
   * unit whose whole count is at least one, with that count; or "just now"
   * when no unit reaches one.
   */
  ghost predicate Fits(seconds: int, e: Elapsed) {
    match e
    case JustNow => forall u :: seconds / UnitSeconds(u) < 1
    case Ago(c, u) =>
      && c == seconds / UnitSeconds(u)
      && c >= 1
      && forall v :: UnitSeconds(v) > UnitSeconds(u) ==> seconds / UnitSeconds(v) < 1
  }

  /**
   * The cascade of getTimeAgo: years, then months, days, hours and minutes,
   * the first whose count is at least one winning.
   */
  function Classify(seconds: int): (r: Elapsed)
    ensures Fits(seconds, r)
    ensures r.JustNow? <==> seconds < 60
    ensures r.Ago? && r.unit == Month ==> r.count <= 12
    ensures r.Ago? && r.unit == Day ==> r.count <= 29
    ensures r.Ago? && r.unit == Hour ==> r.count <= 23
    ensures r.Ago? && r.unit == Minute ==> r.count <= 59
  {
    var years := seconds / 31536000;
    if years >= 1 then Ago(years, Year)
    else
      var months := seconds / 2592000;
      if months >= 1 then Ago(months, Month)
      else
        var days := seconds / 86400;
        if days >= 1 then Ago(days, Day)
        else
          var hours := seconds / 3600;
          if hours >= 1 then Ago(hours, Hour)
          else
            var minutes := seconds / 60;
            if minutes >= 1 then Ago(minutes, Minute)
            else JustNow
  }

  /** At most one reading fits a number of seconds, so Classify gives the only one. */
  lemma FitsUnique(seconds: int, e: Elapsed)
    requires Fits(seconds, e)
    ensures e == Classify(seconds)
  {
  }

  /** The English text, the unit word taking an "s" unless the count is one. */
  function Render(e: Elapsed): (s: string)
    ensures s == "just now" <==> e.JustNow?
    ensures e.Ago? ==> StartsWith(s, NatToString(e.count) + " " + UnitName(e.unit))
    ensures e.Ago? ==> EndsWith(s, " ago")
  {
    match e
    case JustNow => "just now"
    case Ago(c, u) =>
      var head := NatToString(c) + " " + UnitName(u);
      var s := head + (if c == 1 then "" else "s") + " ago";
      assert s[..|head|] == head;
      assert s[|s| - 4..] == " ago";
      assert s[0] == NatToString(c)[0] != "just now"[0];
      s
  }

  /** `s` ends with `suffix`. */
  predicate EndsWith(s: string, suffix: string) {
    |suffix| <= |s| && s[|s| - |suffix|..] == suffix
  }

  /** The unit word is plural, the text ending in "s ago", exactly when the count is not one. */
  lemma PluralExactlyWhenNotOne(c: nat, u: TimeUnit)
    ensures EndsWith(Render(Ago(c, u)), "s ago") <==> c != 1
  {
    var head := NatToString(c) + " " + UnitName(u);
    var s := Render(Ago(c, u));
    var name := UnitName(u);
    assert name[|name| - 1] != 's' by {
      match u
      case Year =>
      case Month =>
      case Day =>
      case Hour =>
      case Minute =>
    }
    if c == 1 {
      assert s == head + " ago";
      assert s[|s| - 5] == name[|name| - 1];
    } else {
      assert s == head + "s ago";
      assert s[|s| - 5..] == "s ago";
    }
  }

  /**
   * getTimeAgo, with the current time passed in. "just now" is shown exactly
   * when less than a minute (60000 ms) has passed, which includes every
   * timestamp in the future; any other text reads back as the count and
   * unit of the largest unit that fits the elapsed whole seconds.
   */
  function TimeAgo(now: int, timestamp: int): (s: string)
    ensures s == "just now" <==> now - timestamp < 60000
    ensures ParseElapsed(s) == Some(Classify(ElapsedSeconds(now, timestamp)))
  {
    var e := Classify(ElapsedSeconds(now, timestamp));
    RenderRoundTrip(e);
    Render(e)
  }

  /** The position of the first space of `s`, or its length when there is none. */
  function IndexOfSpace(s: string): (i: nat)
    ensures i <= |s|
    ensures i < |s| ==> s[i] == ' '
    ensures forall j :: 0 <= j < i ==> s[j] != ' '
  {
    if s == [] || s[0] == ' ' then 0 else 1 + IndexOfSpace(s[1..])
  }

  /** A unit word, with whether it carries the plural "s". */
  function ParseUnitWord(w: string): Option<(TimeUnit, bool)> {
    if w == "year" then Some((Year, false))
    else if w == "years" then Some((Year, true))
    else if w == "month" then Some((Month, false))
    else if w == "months" then Some((Month, true))
    else if w == "day" then Some((Day, false))
    else if w == "days" then Some((Day, true))
    else if w == "hour" then Some((Hour, false))
    else if w == "hours" then Some((Hour, true))
    else if w == "minute" then Some((Minute, false))
    else if w == "minutes" then Some((Minute, true))
    else None
  }

  /** Reads a relative-time text back; the partner of Render. */
  function ParseElapsed(s: string): Option<Elapsed> {
    if s == "just now" then Some(JustNow)
    else
      var i := IndexOfSpace(s);
      var digits := s[..i];
      if i == |s| || !AllDigits(digits) then None
      else
        var c := DecimalValue(digits);
        var rest := s[i + 1..];
        if |rest| < 4 || rest[|rest| - 4..] != " ago" then None
        else
          match ParseUnitWord(rest[..|rest| - 4])
          case None => None
          case Some((u, plural)) => if c >= 1 && plural == (c != 1) then Some(Ago(c, u)) else None
  }

  lemma IndexOfSpaceAfter(a: string, b: string)
    requires forall j :: 0 <= j < |a| ==> a[j] != ' '
    ensures IndexOfSpace(a + " " + b) == |a|
  {
    var s := a + " " + b;
    assert s[|a|] == ' ';
    assert forall j :: 0 <= j < |a| ==> s[j] == a[j];
  }

  lemma ParseUnitWordOf(u: TimeUnit, plural: bool)
    ensures ParseUnitWord(UnitName(u) + (if plural then "s" else "")) == Some((u, plural))
  {
    var w := UnitName(u) + (if plural then "s" else "");
    match u
    case Year => assert w == if plural then "years" else "year";
    case Month => assert w == if plural then "months" else "month";
    case Day => assert w == if plural then "days" else "day";
    case Hour => assert w == if plural then "hours" else "hour";
    case Minute => assert w == if plural then "minutes" else "minute";
  }

  /**
   * Every text the formatter shows reads back as what it was made from:
   * counts, units and the singular/plural choice are all recoverable.
   */
  lemma RenderRoundTrip(e: Elapsed)
    requires e.Ago? ==> e.count >= 1
    ensures ParseElapsed(Render(e)) == Some(e)
  {
    if e.Ago? {
      var c, u := e.count, e.unit;
      var d := NatToString(c);
      var word := UnitName(u) + (if c != 1 then "s" else "");
      var tail := word + " ago";
      var s := Render(e);
      assert s == d + " " + tail;
      assert s[0] == d[0] && IsDigit(d[0]);
      assert s != "just now" by { assert "just now"[0] == 'j'; }
      assert forall j :: 0 <= j < |d| ==> d[j] != ' ' by {
        forall j | 0 <= j < |d| ensures d[j] != ' ' { assert IsDigit(d[j]); }
      }
      IndexOfSpaceAfter(d, tail);
      assert s[..|d|] == d;
      assert s[|d| + 1..] == tail;
      DecimalRoundTrip(c);
      assert tail[|tail| - 4..] == " ago";
      assert tail[..|tail| - 4] == word;
      ParseUnitWordOf(u, c != 1);
    }
  }

  /** Distinct readings never show the same text. */
  lemma RenderInjective(e1: Elapsed, e2: Elapsed)
    requires e1.Ago? ==> e1.count >= 1
    requires e2.Ago? ==> e2.count >= 1
    requires Render(e1) == Render(e2)
    ensures e1 == e2
  {
    RenderRoundTrip(e1);
    RenderRoundTrip(e2);
  }

  // ---------------------------------------------------------------------
  // The component's state: handleDelete and handleEdit
  // ---------------------------------------------------------------------

  /** What the item shows; `editButton` is the Edit button's disabled flag when it exists. */
  datatype ItemView = ItemView(
    failureShown: bool,
    title: string,
    content: string,
    editButton: Option<bool>,
    deleteDisabled: bool,
    deleteLabel: string,
    lastUpdated: string)

  class ItemState {
    const note: Note
    const hasOnEdit: bool
    var isDeleting: bool
    var error: Option<string>

    constructor (note: Note, hasOnEdit: bool)
      ensures this.note == note && this.hasOnEdit == hasOnEdit
      ensures !isDeleting && error == None
    {
      this.note := note;
      this.hasOnEdit := hasOnEdit;
      isDeleting := false;
      error := None;
    }

    /**
     * handleDelete, with the answer to the confirmation prompt and the way
     * the database settled the delete passed in; returns the delete request
     * issued, if any. A successful delete returns early, leaving the flag
     * set: the item is about to disappear from the list. (The buttons do
     * not depend on the time, so the view is taken at an arbitrary one.)
     */
    method HandleDelete(confirmed: bool, stored: Outcome) returns (request: Option<NoteService.StoreRequest>)
      modifies this
      ensures request == if confirmed then Some(NoteService.DeleteDoc(NoteService.NotesCollection, note.id)) else None
      ensures !confirmed ==> !isDeleting && error == old(error)
      ensures confirmed && stored.Done? ==> isDeleting && error == old(error)
      ensures confirmed && stored.Threw? ==>
                !isDeleting && error == Some(NoteService.DeleteNotePrefix + Describe(stored.error))
      ensures confirmed && stored.Done? ==> View(0).deleteDisabled && View(0).deleteLabel == "Deleting..."
      ensures confirmed && stored.Threw? ==> View(0).failureShown && !View(0).deleteDisabled
    {
      isDeleting := true;
      request := None;
      if confirmed {
        var (deleteRequest, settled) := NoteService.DeleteNote(note.id, stored);
        request := Some(deleteRequest);
        if settled.Done? {
          return;
        }
        error := Some(settled.error.message);
      }
      isDeleting := false;
    }

    /** handleEdit: the call made to `onEdit`, which happens only when it was supplied. */
    function HandleEdit(): (call: Option<Note>)
      ensures call.Some? <==> hasOnEdit
      ensures call.Some? ==> call.value == note
    {
      if hasOnEdit then Some(note) else None
    }

    /**
     * The rendered item at time `now`: the Edit button only when `onEdit`
     * was supplied, both buttons disabled while deleting, and the failure
     * message while the error is a non-empty string.
     */
    function View(now: int): (v: ItemView)
      reads this
      ensures v.editButton.Some? <==> hasOnEdit
      ensures v.editButton.Some? ==> v.editButton.value == isDeleting
      ensures v.deleteDisabled == isDeleting
      ensures v.failureShown <==> Truthy(error)
    {
      ItemView(
        Truthy(error),
        note.title,
        note.content,
        if hasOnEdit then Some(isDeleting) else None,
        isDeleting,
        if isDeleting then "Deleting..." else "Delete",
        "Last updated: " + TimeAgo(now, note.lastUpdated))
    }
  }
}
