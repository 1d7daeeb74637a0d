/** Values shared by every part of the model: nullable values, JavaScript's
    truthiness of strings, the answers of the hosted backend and the result
    shape of the server actions. */
module Common {

  /** A nullable value (`T | null`). */
  datatype Option<+T> = None | Some(value: T)

  /** A nullable string is truthy when it is present and not "". */
  predicate Truthy(o: Option<string>)
  {
    o.Some? && o.value != ""
  }

  /** `o || fallback` for a nullable string: null and "" both give the fallback. */
  function OrElse(o: Option<string>, fallback: string): (r: string)
    ensures Truthy(o) ==> r == o.value
    ensures !Truthy(o) ==> r == fallback
  {
    if Truthy(o) then o.value else fallback
  }

  /** `s || null` on a form string: the empty string is stored as null.
      Reading it back with `|| ""` gives the string that was typed. */
  function NullIfEmpty(s: string): (r: Option<string>)
    ensures r.None? <==> s == ""
    ensures r.Some? ==> r.value == s
    ensures OrElse(r, "") == s
  {
    if s == "" then None else Some(s)
  }

  /** What the backend answers to one query or write. */
  datatype DbReply = DbOk | DbError(message: string)

  /** The `{ success, error? }` object the server actions return. */
  datatype ActionResult = ActionResult(success: bool, error: Option<string>)

  /** The result a server action builds from the backend's answer to its one
      write: failure carries the backend's message, success carries none. */
  function ResultOf(reply: DbReply): (r: ActionResult)
    ensures r.success <==> reply.DbOk?
    ensures reply.DbError? ==> r.error == Some(reply.message)
    ensures reply.DbOk? ==> r.error == None
  {
    match reply
    case DbOk => ActionResult(true, None)
    case DbError(m) => ActionResult(false, Some(m))
  }

  /** A notification shown to the admin. */
  datatype Toast = SuccessToast(text: string) | ErrorToast(text: string)

  /** The toast a handler shows for a failed action:
      `toast.error(result.error || fallback)`. */
  function FailureToast(result: ActionResult, fallback: string): (t: Toast)
    ensures t.ErrorToast?
    ensures Truthy(result.error) ==> t.text == result.error.value
    ensures !Truthy(result.error) ==> t.text == fallback
  {
    ErrorToast(OrElse(result.error, fallback))
  }
}
