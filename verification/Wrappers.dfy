/** What several modules share. */
module Wrappers {

  datatype Option<+T> = None | Some(value: T)

  /** HTTP_CODE, and `StrayWrite` for the store text[m_content_length] with a negative
      length.  As a result of process_read, `GetRequest` stands for the call of do_request. */
  datatype HttpCode =
    | NoRequest | GetRequest | BadRequest | NoResource | ForbiddenRequest
    | FileRequest | InternalError | CloseConnection
    | StrayWrite

  /** How many elements satisfy `f`. */
  function Count<T>(ts: seq<T>, f: T -> bool): (n: nat)
    ensures n <= |ts|
    ensures n == 0 <==> forall i :: 0 <= i < |ts| ==> !f(ts[i])
  {
    if ts == [] then 0 else (if f(ts[0]) then 1 else 0) + Count(ts[1..], f)
  }

  lemma {:induction false} CountUpdate<T>(ts: seq<T>, f: T -> bool, i: nat, t: T)
    requires i < |ts|
    ensures Count(ts[i := t], f) + (if f(ts[i]) then 1 else 0) == Count(ts, f) + (if f(t) then 1 else 0)
  {
    if i == 0 {
      assert ts[i := t][1..] == ts[1..];
    } else {
      assert ts[i := t][1..] == ts[1..][i - 1 := t];
      CountUpdate(ts[1..], f, i - 1, t);
    }
  }
}
