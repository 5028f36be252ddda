/**
 * The login page: it checks the login mutation's reply, persists the token
 * and vehicle record, and navigates to the vehicle area; with a token
 * already stored it redirects at once.
 *
 * The side effects of a successful login are returned as an ordered list,
 * so that their order is part of the result. `JSON.stringify` followed by
 * `JSON.parse` is taken to give back the vehicle record unchanged.
 */
module LoginPage {
  import opened Options
  import opened JsNumber
  import opened Session
  import VehiclePage
  import LoginForm

  const VehicleRoute: string := "/vehicle"
  const NoResponse: string := "No response from server."
  const LoginFailed: string := "Login failed."
  const MalformedResponse: string := "Malformed login response."

  datatype RescueVehicle = RescueVehicle(id: string, code: string, plateNumber: string, categoryName: Option<string>)

  /** `loginRescueVehicle`: on success `message` carries the JWT. */
  datatype Payload = Payload(success: bool, message: string, rescueVehicle: Option<RescueVehicle>)

  /** The mutation either fails in transport or resolves with data that may lack the payload. */
  datatype Reply = TransportError(message: string) | Data(payload: Option<Payload>)

  datatype Effect = SetJwt(token: string) | SetInfo(value: JsValue) | Navigate(path: string)

  /** `handleLogin` either completes with its effects, in order, or throws with a message. */
  datatype Outcome = Completed(effects: seq<Effect>) | Failed(message: string)

  /** The vehicle record as it is stored and read back. */
  function VehicleRecord(rv: RescueVehicle): JsValue {
    JObject(map[
      "id" := JStr(rv.id),
      "code" := JStr(rv.code),
      "plateNumber" := JStr(rv.plateNumber),
      "rescueVehicleCategory" := if rv.categoryName.Some? then JObject(map["name" := JStr(rv.categoryName.value)]) else JNull])
  }

  /** The reply passes every check: a payload, success, a non-empty token and a vehicle. */
  predicate Acceptable(reply: Reply) {
    && reply.Data? && reply.payload.Some?
    && reply.payload.value.success
    && reply.payload.value.message != []
    && reply.payload.value.rescueVehicle.Some?
  }

  /** `handleLogin` after the mutation settles. */
  function HandleLogin(reply: Reply): (r: Outcome)
    ensures r.Completed? <==> Acceptable(reply)
    ensures r.Completed? ==>
              && |r.effects| == 3
              && r.effects[2] == Navigate(VehicleRoute)
              && (forall i :: 0 <= i < 2 ==> !r.effects[i].Navigate?)
    ensures reply.TransportError? ==> r == Failed(reply.message)
    ensures reply.Data? && reply.payload.None? ==> r == Failed(NoResponse)
    ensures reply.Data? && reply.payload.Some? && !reply.payload.value.success ==>
              r == Failed(if reply.payload.value.message != [] then reply.payload.value.message else LoginFailed)
    ensures reply.Data? && reply.payload.Some? && reply.payload.value.success && !Acceptable(reply) ==> r == Failed(MalformedResponse)
    ensures reply.Data? && r.Failed? ==> |r.message| > 0
  {
    match reply
    case TransportError(m) => Failed(m)
    case Data(None) => Failed(NoResponse)
    case Data(Some(payload)) =>
      if !payload.success then Failed(if payload.message != [] then payload.message else LoginFailed)
      else
        var jwt := payload.message;
        if jwt == [] || payload.rescueVehicle.None? then Failed(MalformedResponse)
        else Completed([SetJwt(jwt), SetInfo(VehicleRecord(payload.rescueVehicle.value)), Navigate(VehicleRoute)])
  }

  /** The storage after a list of effects; navigation leaves storage alone. */
  function Apply(st: Storage, effects: seq<Effect>): Storage
    decreases |effects|
  {
    if |effects| == 0 then st
    else
      var next := match effects[0]
        case SetJwt(t) => st.(jwt := Some(t))
        case SetInfo(v) => st.(info := Some(Parsed(v)))
        case Navigate(_) => st;
      Apply(next, effects[1..])
  }

  /** Storage written before navigation holds the token from `message` and the vehicle record; a failed login writes nothing. */
  lemma LoginPersistsBeforeNavigating(reply: Reply, st: Storage)
    ensures HandleLogin(reply).Completed? ==>
              var effects := HandleLogin(reply).effects;
              && Apply(st, effects[..2]) == Apply(st, effects)
              && Apply(st, effects).jwt == Some(reply.payload.value.message)
              && Apply(st, effects).info == Some(Parsed(VehicleRecord(reply.payload.value.rescueVehicle.value)))
  {
    if HandleLogin(reply).Completed? {
      var effects := HandleLogin(reply).effects;
      var p := reply.payload.value;
      var s1 := st.(jwt := Some(p.message));
      var s2 := s1.(info := Some(Parsed(VehicleRecord(p.rescueVehicle.value))));
      assert Apply(st, effects) == Apply(s1, effects[1..]);
      assert Apply(s1, effects[1..]) == Apply(s2, effects[1..][1..]);
      assert Apply(s2, effects[1..][1..]) == Apply(s2, effects[1..][1..][1..]);
      assert effects[1..][1..][1..] == [];
      var head := effects[..2];
      assert Apply(st, head) == Apply(s1, head[1..]);
      assert Apply(s1, head[1..]) == Apply(s2, head[1..][1..]);
      assert head[1..][1..] == [];
    }
  }

  /** The mount effect: a stored non-empty token sends the visitor on to the vehicle area. */
  function RedirectOnMount(st: Storage): (r: Option<string>)
    ensures r.Some? <==> st.jwt.Some? && st.jwt.value != []
    ensures r.Some? ==> r.value == VehicleRoute
  {
    if st.jwt.Some? && st.jwt.value != [] then Some(VehicleRoute) else None
  }

  /** On a device where nothing was ever stored, the login page stays and the vehicle page sends the visitor to its login route. */
  lemma FreshDeviceGoesToLogin()
    ensures RedirectOnMount(EmptyStorage).None?
    ensures VehiclePage.Mount(EmptyStorage) == VehiclePage.RedirectTo(VehiclePage.LoginRoute)
  {
  }

  /**
   * Login and read-back: after a successful login whose vehicle id is the
   * decimal text of `n`, the vehicle page finds `n` as its vehicle id, and
   * the login page, opened again, redirects.
   */
  lemma LoginThenReadBack(reply: Reply, st: Storage, n: int)
    requires HandleLogin(reply).Completed?
    requires reply.payload.value.rescueVehicle.value.id == IntToString(n)
    ensures var after := Apply(st, HandleLogin(reply).effects);
            && VehiclePage.StoredVehicleId(after.info) == Some(n as real)
            && VehiclePage.Mount(after) == VehiclePage.Mounted(VehiclePage.PageState(Some(n as real), None, None, 1))
            && RedirectOnMount(after) == Some(VehicleRoute)
  {
    LoginPersistsBeforeNavigating(reply, st);
    var after := Apply(st, HandleLogin(reply).effects);
    var record := VehicleRecord(reply.payload.value.rescueVehicle.value);
    assert after.info == Some(Parsed(record));
    assert VehiclePage.IdCandidate(record) == JStr(IntToString(n));
    ParseIntOfIntToString(n);
    assert VehiclePage.ToInt(JStr(IntToString(n))) == Some(n as real);
  }

  /** How the form sees `handleLogin`: completion resolves with no value, failure rejects with the message. */
  function AsFormOutcome(o: Outcome): LoginForm.Settled {
    match o
    case Completed(_) => LoginForm.Resolved(LoginForm.NoValue)
    case Failed(m) => LoginForm.Rejected(Some(m))
  }

  /**
   * Through the form, a successful login shows no error, a rejected reply
   * shows the page's own message, and a failed mutation shows its error's
   * message, or 'Wrong credentials' when that is empty.
   */
  lemma FormShowsPageError(form: LoginForm.FormState, reply: Reply)
    requires LoginForm.CanSubmit(form) && !form.submitting
    ensures var done := LoginForm.FinishSubmit(LoginForm.BeginSubmit(form).state, AsFormOutcome(HandleLogin(reply)));
            && !done.submitting
            && (HandleLogin(reply).Completed? ==> done.error.None?)
            && (reply.Data? && HandleLogin(reply).Failed? ==> done.error == Some(HandleLogin(reply).message))
            && (reply.TransportError? ==> done.error == Some(LoginForm.MessageOrDefault(Some(reply.message))))
  {
  }
}
