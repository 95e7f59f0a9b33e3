/** The patient login page (src/pages/UserLogin.tsx). */
module UserLogin {
  import opened JsString
  import opened LoginForm

  /** The prefix of the patient's study page. */
  const UserViewPrefix: string := "/user-view/"

  /** `handleSubmit`: a blank id is refused; otherwise the page goes to `/user-view/${userId}`. */
  function HandleSubmit(userId: string): (r: Outcome)
    ensures r.Rejected? ==> r.toast == InvalidIdToast
    ensures r.Navigated? ==> r.path == UserViewPrefix + userId
  {
    Guard(userId, UserViewPrefix + userId)
  }

  /**
    An id with any character other than white space navigates, to exactly
    the prefix followed by the id as typed, untrimmed; an id of white
    space only raises the toast.
   */
  lemma SubmitOutcome(userId: string)
    ensures HandleSubmit(userId).Navigated? <==> exists i :: 0 <= i < |userId| && !IsJsWhiteSpace(userId[i])
    ensures HandleSubmit(userId).Rejected? ==> HandleSubmit(userId).toast == InvalidIdToast
    ensures HandleSubmit(userId).Navigated? ==>
              HandleSubmit(userId).path[..|UserViewPrefix|] == UserViewPrefix &&
              HandleSubmit(userId).path[|UserViewPrefix|..] == userId
  {
    GuardIff(userId, UserViewPrefix + userId);
  }

  /** Two ids that navigate pass the same path to `navigate` only if they are the same string: nothing is trimmed away. */
  lemma PathDeterminesId(a: string, b: string)
    requires HandleSubmit(a).Navigated? && HandleSubmit(b).Navigated?
    ensures HandleSubmit(a) == HandleSubmit(b) <==> a == b
  {
    if HandleSubmit(a) == HandleSubmit(b) {
      assert a == (UserViewPrefix + a)[|UserViewPrefix|..];
      assert b == (UserViewPrefix + b)[|UserViewPrefix|..];
    }
  }
}
