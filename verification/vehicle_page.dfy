/**
 * The vehicle home page: it finds the vehicle id left by the login, follows
 * the offer feed with one expiry timer, sends the driver's answer, and
 * derives the toast key and the map's inputs from the current offer.
 *
 * React state becomes an explicit `PageState`; the browser timer becomes an
 * `Expiry` record carrying the token `setTimeout` returned. A cleared timer
 * never runs, which is modelled by ignoring a firing whose token is not the
 * pending one. Time is the millisecond `now` passed with each event.
 */
module VehiclePage {
  import opened Options
  import opened JsNumber
  import opened Offers
  import opened Session

  /** Where the page sends a visitor without a stored vehicle id. */
  const LoginRoute: string := "/vehicle/login"

  /** Value the route key of the toast takes when there is no offer. */
  const NoOfferKey: string := "none"

  // ---------------------------------------------------------------------
  // Vehicle id lookup

  /** `toInt`: strings go through `parseInt(v, 10)`, anything else through `Number(v)`; a non-finite result is null. */
  function ToInt(v: JsValue): (r: Option<real>)
    ensures v.JNum? ==> r == Some(v.x)
    ensures v.JStr? ==> (r.Some? <==> ParseInt(v.s).Finite?)
    ensures v.JStr? && r.Some? ==> r.value == ParseInt(v.s).value && r.value == r.value.Floor as real
    ensures v.JNull? ==> r == Some(0.0)
    ensures v.JBool? ==> r == Some(if v.b then 1.0 else 0.0)
    ensures v.JUndefined? || v.JObject? ==> r.None?
  {
    var n := if v.JStr? then ParseInt(v.s) else ToNumber(v);
    if n.IsFinite() then Some(n.value) else None
  }

  /** Property read `obj.name` on a value that is neither null nor undefined. */
  function Property(obj: JsValue, name: string): JsValue
    requires !IsNullish(obj)
  {
    match obj
    case JObject(fields) => if name in fields then fields[name] else JUndefined
    case _ => JUndefined
  }

  /** `obj.id ?? obj.rescueVehicleId ?? obj.vehicleId` */
  function IdCandidate(obj: JsValue): (r: JsValue)
    requires !IsNullish(obj)
    ensures !IsNullish(Property(obj, "id")) ==> r == Property(obj, "id")
    ensures IsNullish(Property(obj, "id")) && !IsNullish(Property(obj, "rescueVehicleId")) ==> r == Property(obj, "rescueVehicleId")
    ensures IsNullish(Property(obj, "id")) && IsNullish(Property(obj, "rescueVehicleId")) ==> r == Property(obj, "vehicleId")
  {
    Coalesce(Coalesce(Property(obj, "id"), Property(obj, "rescueVehicleId")), Property(obj, "vehicleId"))
  }

  /**
   * `getVehicleIdFromStorage`. A missing or empty slot, text `JSON.parse`
   * rejects, and a parsed `null` (whose property read throws) all end in
   * null, as does a record whose three id fields are all nullish.
   */
  function StoredVehicleId(info: Option<StoredText>): (r: Option<real>)
    ensures info.None? || info.value.Unparsable? ==> r.None?
    ensures r.Some? ==> info.Some? && info.value.Parsed? && !IsNullish(info.value.value)
  {
    match info
    case None => None
    case Some(Unparsable(_)) => None
    case Some(Parsed(obj)) =>
      if IsNullish(obj) then None
      else
        var idRaw := IdCandidate(obj);
        if IsNullish(idRaw) then None else ToInt(idRaw)
  }

  /**
   * The fallback chain takes the first non-nullish field of `id`,
   * `rescueVehicleId`, `vehicleId`; an unusable earlier field gives null
   * rather than falling through to a later one.
   */
  lemma StoredVehicleIdChain(fields: map<string, JsValue>)
    ensures var info := Some(Parsed(JObject(fields)));
            var id := Property(JObject(fields), "id");
            var rv := Property(JObject(fields), "rescueVehicleId");
            var v := Property(JObject(fields), "vehicleId");
            && (!IsNullish(id) ==> StoredVehicleId(info) == ToInt(id))
            && (IsNullish(id) && !IsNullish(rv) ==> StoredVehicleId(info) == ToInt(rv))
            && (IsNullish(id) && IsNullish(rv) ==> StoredVehicleId(info) == (if IsNullish(v) then None else ToInt(v)))
  {
  }

  /** The stored id is null when the three id fields are all nullish, or the first present one does not convert. */
  lemma StoredVehicleIdNullCases(fields: map<string, JsValue>)
    ensures var obj := JObject(fields);
            var info := Some(Parsed(obj));
            && (IsNullish(IdCandidate(obj)) ==> StoredVehicleId(info).None?)
            && (!IsNullish(IdCandidate(obj)) ==> (StoredVehicleId(info).None? <==> ToInt(IdCandidate(obj)).None?))
  {
  }

  /** A stored record whose id is `true` gives vehicle 1: `Number(true)` is finite. */
  lemma BooleanIdIsVehicleOne()
    ensures StoredVehicleId(Some(Parsed(JObject(map["id" := JBool(true)])))) == Some(1.0)
  {
    var obj := JObject(map["id" := JBool(true)]);
    assert Property(obj, "id") == JBool(true);
  }

  /** A stored number is used as it is, fractions included; a stored decimal string is read back as its integer. */
  lemma ToIntExamples(x: real, i: int)
    ensures ToInt(JNum(x)) == Some(x)
    ensures ToInt(JStr(IntToString(i))) == Some(i as real)
    ensures ToInt(JStr(" " + IntToString(i) + "px")) == Some(i as real)
    ensures ToInt(JStr("")) == None
  {
    ParseIntOfIntToString(i);
    ParseIntOfDecimalPrefix(" ", i, "px");
  }

  // ---------------------------------------------------------------------
  // Page state and the offer channel

  /** The pending expiry: the `setTimeout` token, when it was armed, when it is due, and the offer it will clear. */
  datatype Expiry = Expiry(token: nat, armedAt: int, dueAt: int, owner: Offer)

  /** `vehicleId` and `offer` are the React state; `expiry` the live timer behind `expiryTimerRef`. */
  datatype PageState = PageState(
    vehicleId: Option<real>,
    offer: Option<Offer>,
    expiry: Option<Expiry>,
    nextToken: nat)

  datatype MountResult = RedirectTo(path: string) | Mounted(state: PageState)

  /** The mount effect: with no usable stored id the page redirects, otherwise it holds the id and no offer. */
  function Mount(storage: Storage): (r: MountResult)
    ensures r.RedirectTo? <==> StoredVehicleId(storage.info).None?
    ensures r.RedirectTo? ==> r.path == LoginRoute
    ensures r.Mounted? ==> r.state.vehicleId == StoredVehicleId(storage.info) && r.state.offer.None? && r.state.expiry.None?
  {
    var id := StoredVehicleId(storage.info);
    if id.None? then RedirectTo(LoginRoute) else Mounted(PageState(id, None, None, 1))
  }

  /**
   * The offer effect (one change of the subscription data). No data: nothing
   * happens. Otherwise the pending expiry is cancelled first; a cancelled
   * event clears the offer and arms nothing; a live event becomes the offer
   * and arms one expiry asked for `max(0, endAt - now)` ahead, which fires
   * at the deadline when that is less than 2^31 ms away and earlier
   * otherwise (see `TimerDelay`).
   */
  function OnOfferEvent(s: PageState, incoming: Option<Offer>, now: int): (r: PageState)
    ensures incoming.None? ==> r == s
    ensures r.vehicleId == s.vehicleId
    ensures incoming.Some? && incoming.value.isCancelled ==> r.offer.None? && r.expiry.None?
    ensures incoming.Some? && !incoming.value.isCancelled ==>
              && r.offer == incoming
              && r.expiry.Some? && r.expiry.value.owner == incoming.value
              && r.expiry.value.token == s.nextToken < r.nextToken
              && r.expiry.value.armedAt == now <= r.expiry.value.dueAt
              && r.expiry.value.dueAt <= (if now <= EndAtMs(incoming.value) then EndAtMs(incoming.value) else now)
              && (EndAtMs(incoming.value) - now < TimerDelayLimit ==>
                    r.expiry.value.dueAt == (if now <= EndAtMs(incoming.value) then EndAtMs(incoming.value) else now))
  {
    if incoming.None? then s
    else
      var o := incoming.value;
      var cleared := s.(expiry := None);
      if o.isCancelled then cleared.(offer := None)
      else
        var armed := Expiry(s.nextToken, now, now + TimerDelay(DelayUntil(EndAtMs(o), now)), o);
        cleared.(offer := Some(o), expiry := Some(armed), nextToken := s.nextToken + 1)
  }

  /** The timeout callback `setOffer(null)`; a timer that was cleared never runs. */
  function OnExpiryFired(s: PageState, token: nat): (r: PageState)
    ensures r.vehicleId == s.vehicleId && r.nextToken == s.nextToken
    ensures s.expiry.Some? && s.expiry.value.token == token ==> r.offer.None? && r.expiry.None?
    ensures s.expiry.None? || s.expiry.value.token != token ==> r == s
  {
    if s.expiry.Some? && s.expiry.value.token == token then s.(offer := None, expiry := None) else s
  }

  // ---------------------------------------------------------------------
  // Responding to the offer

  /** The variables of the respond mutation. */
  datatype RespondCall = RespondCall(requestId: real, vehicleId: real, accepted: bool)

  /**
   * The first half of `handleRespond`: without an offer or a vehicle id, or
   * when either id fails `toInt`, nothing is sent; otherwise the call carries
   * the converted ids. The page keeps no record of the call in flight.
   */
  function BeginRespond(s: PageState, accepted: bool): (r: Option<RespondCall>)
    ensures r.Some? <==> s.offer.Some? && s.vehicleId.Some? && ToInt(IdValue(s.offer.value.request.id)).Some?
    ensures r.Some? ==> && r.value.accepted == accepted
                        && r.value.vehicleId == s.vehicleId.value
                        && Some(r.value.requestId) == ToInt(IdValue(s.offer.value.request.id))
  {
    if s.offer.None? || s.vehicleId.None? then None
    else
      var requestId := ToInt(IdValue(s.offer.value.request.id));
      var rvId := ToInt(JNum(s.vehicleId.value));
      if requestId.None? || rvId.None? then None
      else Some(RespondCall(requestId.value, rvId.value, accepted))
  }

  /**
   * The second half of `handleRespond`, when the awaited call settles: on
   * success the offer current at that moment is cleared (whichever it is);
   * on failure nothing changes. The expiry timer is left running.
   */
  function EndRespond(s: PageState, succeeded: bool): (r: PageState)
    ensures succeeded ==> r.offer.None?
    ensures !succeeded ==> r == s
    ensures r.expiry == s.expiry && r.vehicleId == s.vehicleId && r.nextToken == s.nextToken
  {
    if succeeded then s.(offer := None) else s
  }

  /** A numeric request id always converts, so with an offer and a vehicle id the answer is always sent. */
  lemma NumericOfferAlwaysSent(s: PageState, accepted: bool)
    requires s.offer.Some? && s.vehicleId.Some? && s.offer.value.request.id.NumericId?
    ensures BeginRespond(s, accepted) == Some(RespondCall(s.offer.value.request.id.n as real, s.vehicleId.value, accepted))
  {
  }

  /**
   * The mid-call race, as written: an answer sent for one offer that
   * succeeds after a newer offer arrived clears the newer offer, whose
   * expiry timer stays armed.
   */
  lemma ResponseClearsOfferArrivedMidCall(s: PageState, newer: Offer, now: int)
    requires BeginRespond(s, true).Some?
    requires !newer.isCancelled && s.offer != Some(newer)
    ensures var during := OnOfferEvent(s, Some(newer), now);
            && during.offer == Some(newer)
            && EndRespond(during, true).offer.None?
            && EndRespond(during, true).expiry.Some?
            && EndRespond(during, true).expiry.value.owner == newer
  {
  }

  // ---------------------------------------------------------------------
  // Events and the channel invariant

  datatype PageEvent =
    | OfferData(incoming: Option<Offer>, now: int)
    | ExpiryFired(token: nat)
    | RespondSettled(succeeded: bool)

  function Step(s: PageState, e: PageEvent): PageState {
    match e
    case OfferData(incoming, now) => OnOfferEvent(s, incoming, now)
    case ExpiryFired(token) => OnExpiryFired(s, token)
    case RespondSettled(ok) => EndRespond(s, ok)
  }

  function Run(s: PageState, events: seq<PageEvent>): PageState
    decreases |events|
  {
    if |events| == 0 then s else Run(Step(s, events[0]), events[1..])
  }

  /**
   * The channel invariant: a shown offer is never a cancelled one and always
   * has exactly one pending expiry, which belongs to it; that expiry was
   * issued by this page and is due when the browser runs a timer asked for
   * `max(0, endAt - armedAt)`.
   */
  predicate ChannelInvariant(s: PageState) {
    && (s.offer.Some? ==> s.expiry.Some? && s.expiry.value.owner == s.offer.value && !s.offer.value.isCancelled)
    && (s.expiry.Some? ==>
          var e := s.expiry.value;
          && e.token < s.nextToken
          && !e.owner.isCancelled
          && e.dueAt == e.armedAt + TimerDelay(DelayUntil(EndAtMs(e.owner), e.armedAt)))
  }

  lemma MountEstablishesInvariant(storage: Storage)
    ensures Mount(storage).Mounted? ==> ChannelInvariant(Mount(storage).state)
  {
  }

  lemma StepPreservesInvariant(s: PageState, e: PageEvent)
    requires ChannelInvariant(s)
    ensures ChannelInvariant(Step(s, e))
  {
  }

  /** Every sequence of offer events, timer firings and settled answers keeps the channel invariant. */
  lemma {:induction false} RunPreservesInvariant(s: PageState, events: seq<PageEvent>)
    requires ChannelInvariant(s)
    ensures ChannelInvariant(Run(s, events))
    decreases |events|
  {
    if |events| > 0 {
      StepPreservesInvariant(s, events[0]);
      RunPreservesInvariant(Step(s, events[0]), events[1..]);
    }
  }

  /**
   * A newer event supersedes: every timer armed before it is dead
   * afterwards, so a stale timer can never clear the newer offer.
   */
  lemma StaleTimerCannotClearNewerOffer(s: PageState, incoming: Offer, now: int, staleToken: nat)
    requires ChannelInvariant(s)
    requires staleToken < s.nextToken
    ensures var r := OnOfferEvent(s, Some(incoming), now);
            OnExpiryFired(r, staleToken) == r
  {
  }

  /**
   * The shown offer is cleared when its expiry fires, never later than its
   * deadline (or its arrival, if it arrived late) and exactly then when the
   * deadline was less than 2^31 ms away; firing again changes nothing.
   */
  lemma ShownOfferExpiresByDeadline(s: PageState)
    requires ChannelInvariant(s) && s.offer.Some?
    ensures var e := s.expiry.value;
            && e.armedAt <= e.dueAt <= (if e.armedAt <= EndAtMs(s.offer.value) then EndAtMs(s.offer.value) else e.armedAt)
            && (EndAtMs(s.offer.value) - e.armedAt < TimerDelayLimit ==>
                  e.dueAt == (if e.armedAt <= EndAtMs(s.offer.value) then EndAtMs(s.offer.value) else e.armedAt))
            && OnExpiryFired(s, e.token).offer.None?
            && OnExpiryFired(OnExpiryFired(s, e.token), e.token) == OnExpiryFired(s, e.token)
  {
  }

  /** An offer with a 5 s lifetime delivered at its offer time is due to vanish exactly 5000 ms later, without any server call. */
  lemma FiveSecondOfferScenario(s: PageState, o: Offer)
    requires ChannelInvariant(s)
    requires !o.isCancelled && o.offerTtlSeconds == 5 && o.offeredAtMs == 0
    ensures var r := OnOfferEvent(s, Some(o), 0);
            && r.expiry.value.dueAt == 5000
            && OnExpiryFired(r, r.expiry.value.token).offer.None?
  {
  }

  /**
   * The browser's 32-bit timer delay, as written: an offer delivered at its
   * offer time with a lifetime of 2147484 s (just over 2^31 ms) is due to
   * vanish the moment it arrives, and so is one whose deadline lies
   * 2^31 ms ahead of a clock that is running that far behind.
   */
  lemma FarDeadlineExpiresAtOnce(s: PageState, o: Offer, now: int)
    requires !o.isCancelled
    requires (o.offerTtlSeconds == 2147484 && o.offeredAtMs == now) || EndAtMs(o) == now + TimerDelayLimit
    ensures var r := OnOfferEvent(s, Some(o), now);
            && r.offer == Some(o)
            && r.expiry.value.dueAt == now < EndAtMs(o)
            && OnExpiryFired(r, r.expiry.value.token).offer.None?
  {
  }

  // ---------------------------------------------------------------------
  // What the page hands to the toast and the map

  /** `offerKey`, the key that remounts the toast. */
  function OfferKey(offer: Option<Offer>): (k: string)
    ensures k == NoOfferKey <==> offer.None?
    ensures offer.Some? ==> k == NotificationKey(offer.value)
  {
    if offer.None? then NoOfferKey
    else
      NotificationKeyIsNotNone(offer.value);
      NotificationKey(offer.value)
  }

  /** A repeat offer for the same request with a new `offeredAt` gets a new toast key, hence a fresh toast. */
  lemma RepeatOfferGetsNewKey(a: Offer, b: Offer)
    requires a.request.id == b.request.id && a.offeredAt != b.offeredAt
    ensures OfferKey(Some(a)) != OfferKey(Some(b))
  {
    NewOfferedAtIsNewKey(a, b);
  }

  /**
   * While the map is active there is a pending expiry owned by the shown
   * offer, and when that expiry fires the map goes inactive.
   */
  lemma MapActiveOnlyUntilExpiry(s: PageState)
    requires ChannelInvariant(s) && s.vehicleId.Some?
    ensures MapInputs(s).value.active ==> s.expiry.Some? && s.expiry.value.owner == s.offer.value
    ensures MapInputs(s).value.active ==> !MapInputs(OnExpiryFired(s, s.expiry.value.token)).value.active
  {
  }

  /** The props of the live map: its target and `active` flag. */
  datatype MapProps = MapProps(vehicleId: real, target: Option<(real, real)>, active: bool)

  /** The map is rendered only with a vehicle id; it is active, and has a target, exactly when an offer is shown. */
  function MapInputs(s: PageState): (r: Option<MapProps>)
    ensures r.Some? <==> s.vehicleId.Some?
    ensures r.Some? ==> (r.value.active <==> s.offer.Some?) && (r.value.target.Some? <==> r.value.active)
    ensures r.Some? && s.offer.Some? ==> r.value.target == Some((s.offer.value.request.latitude, s.offer.value.request.longitude))
  {
    if s.vehicleId.None? then None
    else
      var target := if s.offer.Some? then Some((s.offer.value.request.latitude, s.offer.value.request.longitude)) else None;
      Some(MapProps(s.vehicleId.value, target, s.offer.Some?))
  }
}
