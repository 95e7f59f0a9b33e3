/** The doctor login page (src/pages/DoctorLogin.tsx). */
module DoctorLogin {
  import opened JsString
  import opened LoginForm

  /** The administration page every accepted doctor goes to. */
  const AdminPath: string := "/admin"

  /** `handleSubmit`: a blank id is refused; otherwise the page goes to `/admin`. */
  function HandleSubmit(doctorId: string): (r: Outcome)
    ensures r.Rejected? ==> r.toast == InvalidIdToast
    ensures r.Navigated? ==> r.path == AdminPath
  {
    Guard(doctorId, AdminPath)
  }

  /** An id with any character other than white space goes to `/admin`; one of white space only raises the toast. */
  lemma SubmitOutcome(doctorId: string)
    ensures HandleSubmit(doctorId) == Navigated(AdminPath) <==>
            exists i :: 0 <= i < |doctorId| && !IsJsWhiteSpace(doctorId[i])
    ensures HandleSubmit(doctorId) != Navigated(AdminPath) ==> HandleSubmit(doctorId) == Rejected(InvalidIdToast)
  {
    GuardIff(doctorId, AdminPath);
  }

  /** The destination does not depend on which id was entered, only on it not being blank. */
  lemma DestinationIgnoresId(a: string, b: string)
    requires HandleSubmit(a).Navigated? && HandleSubmit(b).Navigated?
    ensures HandleSubmit(a) == HandleSubmit(b)
  {
  }
}
