/**
 * What the project and skill server actions share: their response value, the
 * admin gate every action starts with, the files of a form, and the remote
 * outcome of one upload.
 */
module ServerActions {
  import opened Common

  /** `ServerActionResponse`. */
  datatype Response = Response(success: bool, message: string)

  /** What `supabase.auth.getUser()` answered: whether it returned an error, and
      the id of the user it returned, if any. */
  datatype AuthResult = AuthResult(failed: bool, userId: Option<string>)

  /** A `File` of a form: its name and its size in bytes. */
  datatype UploadFile = UploadFile(name: string, size: nat)

  /** One upload as it went: the fresh name (`<Date.now()>-<random>`) the action
      chose for the object, and the storage error, if any. */
  datatype Attempt = Attempt(freshName: string, error: Option<string>)

  const UnauthorizedMessage: string := "Unauthorized action."

  /** The gate: no auth error, a user, and that user's id is the configured
      `ADMIN_USER_ID` (an absent setting admits nobody). */
  function Authorized(auth: AuthResult, adminId: Option<string>): (ok: bool)
    ensures adminId.None? ==> !ok
  {
    !auth.failed && auth.userId.Some? && adminId.Some? && auth.userId.value == adminId.value
  }

  /** What every action returns when the gate refuses. */
  function Unauthorized(): (r: Response)
  {
    Response(false, UnauthorizedMessage)
  }

  /** A form field `v` written as `v || null`: absent and empty values become null. */
  function NullIfEmpty(v: Option<string>): (r: Option<string>)
    ensures r.Some? ==> r.value != ""
  {
    if v.Some? && v.value != "" then v else None
  }

  /** `error?.message || fallback`: the error message, unless there is none or it is empty. */
  function ErrorText(error: Option<string>, fallback: string): (text: string)
    ensures fallback != "" ==> text != ""
  {
    if error.Some? && error.value != "" then error.value else fallback
  }

  /** Whether a file input holds a file that is uploaded: present and not empty. */
  predicate Supplied(file: Option<UploadFile>) {
    file.Some? && file.value.size > 0
  }
}
