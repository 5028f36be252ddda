/**
 * The vehicle login form: field editing, the submit-enable rule, and how
 * the result of the `onLogin` callback becomes an error message. Submitting
 * is split into the start (guard, reset, call) and the settling of the call.
 */
module LoginForm {
  import opened Options
  import opened JsString

  const WrongCredentials: string := "Wrong credentials"

  datatype FormState = FormState(plate: string, password: string, submitting: bool, error: Option<string>)

  const InitialForm: FormState := FormState("", "", false, None)

  /** The plate field stores what was typed, upper-cased. */
  function OnPlateInput(s: FormState, text: string): (r: FormState)
    ensures |r.plate| == |text|
    ensures forall i :: 0 <= i < |text| ==> !IsAsciiLower(r.plate[i])
    ensures forall i :: 0 <= i < |text| && !IsAsciiLower(text[i]) ==> r.plate[i] == text[i]
    ensures r.password == s.password && r.submitting == s.submitting && r.error == s.error
  {
    ToUpperNormalises(text);
    s.(plate := ToUpper(text))
  }

  /** The password field stores what was typed, verbatim. */
  function OnPasswordInput(s: FormState, text: string): (r: FormState)
    ensures r.password == text && r.plate == s.plate && r.submitting == s.submitting && r.error == s.error
  {
    s.(password := text)
  }

  /**
   * `canSubmit`: a plate that is not blank once trimmed, and a non-empty
   * password (not trimmed). So submission is enabled exactly when the plate
   * has a non-white-space character; a password of spaces counts.
   */
  function CanSubmit(s: FormState): (r: bool)
    ensures r <==> (exists i :: 0 <= i < |s.plate| && !IsWhiteSpace(s.plate[i])) && s.password != []
  {
    TrimNonEmptyIff(s.plate);
    |Trim(s.plate)| > 0 && |s.password| > 0
  }

  /**
   * The empty form cannot be submitted; once a plate and a password are
   * typed it can be exactly when the plate has a non-white-space character
   * (upper-casing never turns white space into text or back) and the
   * password is not empty.
   */
  lemma TypingEnablesSubmit(plate: string, password: string)
    ensures !CanSubmit(InitialForm)
    ensures CanSubmit(OnPasswordInput(OnPlateInput(InitialForm, plate), password)) <==>
              (exists i :: 0 <= i < |plate| && !IsWhiteSpace(plate[i])) && password != []
  {
    var upper := OnPlateInput(InitialForm, plate).plate;
    ToUpperNormalises(plate);
    forall i | 0 <= i < |plate|
      ensures IsWhiteSpace(upper[i]) <==> IsWhiteSpace(plate[i])
    {
      assert upper[i] == UpperChar(plate[i]);
    }
  }

  /** What `onLogin` receives. */
  datatype Credentials = Credentials(numberPlate: string, password: string)

  datatype SubmitStart = SubmitStart(state: FormState, call: Option<Credentials>)

  /**
   * `handleSubmit` up to the await: ignored when submission is not enabled
   * or one is running; otherwise marks submitting, clears the error, and
   * calls `onLogin` with the trimmed plate and the password as typed.
   */
  function BeginSubmit(s: FormState): (r: SubmitStart)
    ensures r.call.None? <==> !CanSubmit(s) || s.submitting
    ensures r.call.None? ==> r.state == s
    ensures r.call.Some? ==> && r.state == s.(submitting := true, error := None)
                             && r.call.value == Credentials(Trim(s.plate), s.password)
  {
    if !CanSubmit(s) || s.submitting then SubmitStart(s, None)
    else SubmitStart(s.(submitting := true, error := None), Some(Credentials(Trim(s.plate), s.password)))
  }

  /** The three shapes `onLogin` may resolve to: nothing, a boolean, or an object (null being a value of its own). */
  datatype LoginResult =
    | NoValue
    | NullValue
    | BoolValue(b: bool)
    | ObjectValue(success: Option<bool>, message: Option<string>)

  /** How the awaited call settled; a throw carries the thrown value's `message`, if any. */
  datatype Settled = Resolved(result: LoginResult) | Rejected(message: Option<string>)

  /** A boolean counts as it is; an object fails only when its `success` is exactly false; anything else succeeds. */
  function Succeeded(res: LoginResult): (ok: bool)
    ensures res.BoolValue? ==> ok == res.b
    ensures res.ObjectValue? ==> (ok <==> res.success != Some(false))
    ensures res.NoValue? || res.NullValue? ==> ok
  {
    match res
    case BoolValue(b) => b
    case ObjectValue(success, _) => success != Some(false)
    case _ => true
  }

  /** `message || 'Wrong credentials'` */
  function MessageOrDefault(m: Option<string>): (r: string)
    ensures |r| > 0
    ensures m.Some? && m.value != [] ==> r == m.value
    ensures m.None? || m.value == [] ==> r == WrongCredentials
  {
    if m.Some? && m.value != [] then m.value else WrongCredentials
  }

  /** The error a settled call sets, if any: none on success, otherwise the message or the default. */
  function ErrorFor(outcome: Settled): (r: Option<string>)
    ensures r.None? <==> outcome.Resolved? && Succeeded(outcome.result)
    ensures r.Some? ==> |r.value| > 0
    ensures outcome.Rejected? ==> r == Some(MessageOrDefault(outcome.message))
    ensures outcome.Resolved? && outcome.result.ObjectValue? && r.Some? ==> r == Some(MessageOrDefault(outcome.result.message))
    ensures outcome.Resolved? && outcome.result.BoolValue? && r.Some? ==> r == Some(WrongCredentials)
  {
    match outcome
    case Rejected(m) => Some(MessageOrDefault(m))
    case Resolved(res) =>
      if Succeeded(res) then None
      else
        var m := if res.ObjectValue? then res.message else None;
        Some(MessageOrDefault(m))
  }

  /** The rest of `handleSubmit`: an error is set on failure, and `submitting` ends false on every path. */
  function FinishSubmit(s: FormState, outcome: Settled): (r: FormState)
    ensures !r.submitting
    ensures ErrorFor(outcome).Some? ==> r.error == ErrorFor(outcome)
    ensures ErrorFor(outcome).None? ==> r.error == s.error
    ensures r.plate == s.plate && r.password == s.password
  {
    var e := ErrorFor(outcome);
    s.(submitting := false, error := if e.Some? then e else s.error)
  }

  /** One whole submission: a successful login leaves no error, a failed one leaves exactly its error, and the form is free again. */
  lemma SubmitRoundTrip(s: FormState, outcome: Settled)
    requires !s.submitting && CanSubmit(s)
    ensures var start := BeginSubmit(s);
            var done := FinishSubmit(start.state, outcome);
            && start.call.Some?
            && !done.submitting
            && done.error == ErrorFor(outcome)
  {
  }
}
