/**
 * The values shared by the notes front end: the Note record, the values
 * a JavaScript `throw` can carry, and the way a template literal turns
 * such a value into text.
 */
module NoteTypes {

  datatype Option<+T> = None | Some(value: T)

  /** A note as stored in the `notes` collection and shown by the views. */
  datatype Note = Note(id: string, title: string, content: string, lastUpdated: int)

  /** The notes object: document id to note. */
  type Notes = map<string, Note>

  /**
   * What a failing call can throw: an `Error` object (its `name` and
   * `message` properties), `null` or `undefined`, or any other value, given
   * here by the text its own string conversion produces.
   */
  datatype ErrorValue =
    | ErrorObject(name: string, message: string)
    | Nullish(isNull: bool)
    | Thrown(text: string)

  /** How an awaited call settled: resolved, or rejected with a thrown value. */
  datatype Outcome = Done | Threw(error: ErrorValue)

  /**
   * The text a template literal `${error}` gives for a thrown value. For an
   * `Error` object this is `Error.prototype.toString`: the name alone when
   * the message is empty, the message alone when the name is empty, and
   * otherwise "name: message". `null` and `undefined` give their own names,
   * and the text of any other value is its own.
   */
  function Describe(e: ErrorValue): (s: string)
    ensures e.ErrorObject? && e.name != "" ==> StartsWith(s, e.name)
    ensures e.ErrorObject? ==> |e.message| <= |s| && s[|s| - |e.message|..] == e.message
    ensures e.ErrorObject? && e.name != "" && e.message != "" ==>
              |s| == |e.name| + 2 + |e.message| && s[|e.name|..|e.name| + 2] == ": "
    ensures e.ErrorObject? ==> (s == "" <==> e.name == "" && e.message == "")
    ensures e.Nullish? ==> s == (if e.isNull then "null" else "undefined")
    ensures e.Thrown? ==> s == e.text
  {
    match e
    case ErrorObject(name, message) =>
      if name == "" then message
      else if message == "" then name
      else name + ": " + message
    case Nullish(isNull) => if isNull then "null" else "undefined"
    case Thrown(text) => text
  }

  /**
   * A `string | null` state value used as a condition: null and the empty
   * string are false, every other string is true.
   */
  predicate Truthy(s: Option<string>) {
    s.Some? && s.value != ""
  }

  /** `s` starts with `prefix`. */
  predicate StartsWith(s: string, prefix: string) {
    |prefix| <= |s| && s[..|prefix|] == prefix
  }
}
