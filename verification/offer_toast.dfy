/**
 * The offer toast: it shows the current offer with a countdown, hides when
 * the offer lapses, and plays the alert once per notification.
 *
 * The component's refs and state become `ToastState`: `hideDueAt` is the
 * live hide timeout, `tickEndAt` the live 250 ms interval together with the
 * deadline its closure captured. Audio playback itself is left out; the model
 * says when a playback is started.
 */
module OfferToast {
  import opened Options
  import opened Offers
  import ImageUrl

  datatype ToastState = ToastState(
    visible: bool,
    secondsLeft: int,
    hideDueAt: Option<int>,
    tickEndAt: Option<int>,
    lastSoundKey: Option<string>)

  const Initial: ToastState := ToastState(false, 0, None, None, None)

  /** `Math.max(0, Math.ceil((endAt - now) / 1000))`: whole seconds still to go, rounded up. */
  function SecondsLeft(endAt: int, now: int): (r: int)
    ensures r >= 0
    ensures r == 0 <==> now >= endAt
    ensures r > 0 ==> (r - 1) * 1000 < endAt - now <= r * 1000
  {
    var c := (endAt - now + 999) / 1000;
    if c > 0 then c else 0
  }

  /** Seen from its offer time onwards, the countdown never exceeds the offer's lifetime. */
  lemma SecondsLeftWithinTtl(o: Offer, now: int)
    requires o.offeredAtMs <= now
    ensures SecondsLeft(EndAtMs(o), now) <= if EffectiveTtl(o.offerTtlSeconds) > 0 then EffectiveTtl(o.offerTtlSeconds) else 0
  {
    var ttl := EffectiveTtl(o.offerTtlSeconds);
    var r := SecondsLeft(EndAtMs(o), now);
    if r > 0 {
      assert (r - 1) * 1000 < ttl * 1000;
    }
  }

  /** The result of running the offer effect: the new state and whether a playback is started. */
  datatype EffectRun = EffectRun(state: ToastState, playsSound: bool)

  /** The offer is shown: present and not cancelled. */
  predicate IsLive(offer: Option<Offer>) {
    offer.Some? && !offer.value.isCancelled
  }

  /**
   * The offer effect. With no offer or a cancelled one the toast hides and
   * both timers are cleared. Otherwise a key not heard before starts the
   * alert (if a sound URL is set) and is remembered; both timers are
   * restarted, the first tick runs at once, and the hide timeout is asked
   * for `max(0, endAt - now)`, which the browser shortens when that is 2^31
   * ms or more (see `TimerDelay`). The interval is started after that first
   * tick even when the tick already found zero.
   */
  function OnOfferChanged(s: ToastState, offer: Option<Offer>, soundUrl: Option<string>, now: int): (r: EffectRun)
    ensures !IsLive(offer) ==> !r.state.visible && r.state.hideDueAt.None? && r.state.tickEndAt.None? && !r.playsSound
    ensures !IsLive(offer) ==> r.state.lastSoundKey == s.lastSoundKey && r.state.secondsLeft == s.secondsLeft
    ensures r.playsSound <==> IsLive(offer) && s.lastSoundKey != Some(NotificationKey(offer.value))
                              && soundUrl.Some? && soundUrl.value != []
    ensures IsLive(offer) ==> r.state.lastSoundKey == Some(NotificationKey(offer.value))
    ensures IsLive(offer) ==>
              var endAt := EndAtMs(offer.value);
              && r.state.secondsLeft == SecondsLeft(endAt, now)
              && (r.state.visible <==> now < endAt)
              && r.state.tickEndAt == Some(endAt)
              && r.state.hideDueAt.Some?
              && now <= r.state.hideDueAt.value <= (if now <= endAt then endAt else now)
              && (endAt - now < TimerDelayLimit ==> r.state.hideDueAt == Some(if now <= endAt then endAt else now))
  {
    if !IsLive(offer) then
      EffectRun(s.(visible := false, hideDueAt := None, tickEndAt := None), false)
    else
      var o := offer.value;
      var key := NotificationKey(o);
      var unheard := s.lastSoundKey != Some(key);
      var endAt := EndAtMs(o);
      var left := SecondsLeft(endAt, now);
      var state := ToastState(
        left > 0, left, Some(now + TimerDelay(DelayUntil(endAt, now))), Some(endAt),
        if unheard then Some(key) else s.lastSoundKey);
      EffectRun(state, unheard && soundUrl.Some? && soundUrl.value != [])
  }

  /** One firing of the 250 ms interval: refresh the countdown; at zero, hide and stop the interval. */
  function OnTick(s: ToastState, now: int): (r: ToastState)
    ensures s.tickEndAt.None? ==> r == s
    ensures s.tickEndAt.Some? ==> r.secondsLeft == SecondsLeft(s.tickEndAt.value, now)
    ensures s.tickEndAt.Some? && now >= s.tickEndAt.value ==> !r.visible && r.tickEndAt.None?
    ensures s.tickEndAt.Some? && now < s.tickEndAt.value ==> r.visible == s.visible && r.tickEndAt == s.tickEndAt
    ensures r.hideDueAt == s.hideDueAt && r.lastSoundKey == s.lastSoundKey
  {
    match s.tickEndAt
    case None => s
    case Some(endAt) =>
      var left := SecondsLeft(endAt, now);
      if left <= 0 then s.(secondsLeft := left, visible := false, tickEndAt := None)
      else s.(secondsLeft := left)
  }

  /** The hide timeout firing. */
  function OnHideFired(s: ToastState): (r: ToastState)
    ensures s.hideDueAt.Some? ==> !r.visible && r.hideDueAt.None?
    ensures s.hideDueAt.None? ==> r == s
    ensures r.tickEndAt == s.tickEndAt && r.secondsLeft == s.secondsLeft
  {
    if s.hideDueAt.Some? then s.(visible := false, hideDueAt := None) else s
  }

  /** The effect cleanup on unmount: both timers are cleared. */
  function Unmount(s: ToastState): (r: ToastState)
    ensures r.hideDueAt.None? && r.tickEndAt.None?
    ensures r.visible == s.visible && r.lastSoundKey == s.lastSoundKey
  {
    s.(hideDueAt := None, tickEndAt := None)
  }

  /**
   * An offer that has not lapsed yet is shown, with a positive countdown, until
   * its deadline; when that deadline is less than 2^31 ms ahead the hide
   * timeout is not due before it either (see `FarDeadlineHidesAtOnce` for the
   * other case).
   */
  lemma ShownUntilDeadline(s: ToastState, o: Offer, soundUrl: Option<string>, now: int, later: int)
    requires !o.isCancelled && now <= later < EndAtMs(o)
    ensures var r := OnOfferChanged(s, Some(o), soundUrl, now).state;
            && r.visible
            && OnTick(r, later).visible
            && OnTick(r, later).secondsLeft > 0
            && (EndAtMs(o) - now < TimerDelayLimit ==> r.hideDueAt.Some? && later < r.hideDueAt.value)
  {
  }

  /** Once the deadline is reached, either timer hides the toast on its own, and the countdown reads zero; the hide timeout is due at the deadline unless that was 2^31 ms or more away. */
  lemma HiddenAtDeadline(s: ToastState, o: Offer, soundUrl: Option<string>, now: int, later: int)
    requires !o.isCancelled && now <= EndAtMs(o) <= later
    ensures var r := OnOfferChanged(s, Some(o), soundUrl, now).state;
            && !OnTick(r, later).visible
            && OnTick(r, later).secondsLeft == 0
            && !OnHideFired(r).visible
            && r.hideDueAt.Some? && r.hideDueAt.value <= EndAtMs(o)
            && (EndAtMs(o) - now < TimerDelayLimit ==> r.hideDueAt == Some(EndAtMs(o)))
  {
  }

  /**
   * The browser's 32-bit timer delay, as written: a toast for an offer with a
   * lifetime of 2147484 s, shown at its offer time, has its hide timeout due
   * at once, and that timeout hides it while the countdown still runs.
   */
  lemma FarDeadlineHidesAtOnce(s: ToastState, o: Offer, soundUrl: Option<string>, now: int)
    requires !o.isCancelled && o.offerTtlSeconds == 2147484 && o.offeredAtMs == now
    ensures var r := OnOfferChanged(s, Some(o), soundUrl, now).state;
            && r.visible && r.secondsLeft == 2147484
            && r.hideDueAt == Some(now)
            && !OnHideFired(r).visible && OnHideFired(r).secondsLeft == 2147484
  {
  }

  /** `percentLeft`: no positive lifetime on the raw offer gives 0, otherwise `secondsLeft / ttl * 100` clamped to [0, 100]. */
  function PercentLeft(secondsLeft: int, rawTtl: int): (r: real)
    ensures 0.0 <= r <= 100.0
    ensures rawTtl == 0 ==> r == 0.0
    ensures rawTtl > 0 && 0 <= secondsLeft <= rawTtl ==> r * (rawTtl as real) == (secondsLeft as real) * 100.0
    ensures rawTtl > 0 && secondsLeft >= rawTtl ==> r == 100.0
  {
    if rawTtl == 0 then 0.0
    else
      var q := secondsLeft as real / rawTtl as real;
      var p := q * 100.0;
      assert q * (rawTtl as real) == secondsLeft as real;
      assert p * (rawTtl as real) == (secondsLeft as real) * 100.0;
      assert 0 <= secondsLeft <= rawTtl ==> 0.0 <= q <= 1.0;
      assert 0 < rawTtl <= secondsLeft ==> q >= 1.0;
      if p < 0.0 then 0.0 else if p > 100.0 then 100.0 else p
  }

  /** What the toast shows. */
  datatype ToastView = ToastView(
    slidIn: bool,
    secondsLeft: int,
    percentLeft: real,
    imageSrc: Option<string>,
    categoryName: Option<string>)

  /** Nothing is rendered without an offer or for a cancelled one. */
  function Render(offer: Option<Offer>, s: ToastState, serverUrl: Option<string>): (r: Option<ToastView>)
    ensures r.None? <==> !IsLive(offer)
    ensures r.Some? ==> r.value.slidIn == s.visible && r.value.secondsLeft == s.secondsLeft
    ensures r.Some? ==> 0.0 <= r.value.percentLeft <= 100.0
    ensures r.Some? && offer.value.offerTtlSeconds == 0 ==> r.value.percentLeft == 0.0
  {
    if !IsLive(offer) then None
    else
      var o := offer.value;
      Some(ToastView(
        s.visible, s.secondsLeft, PercentLeft(s.secondsLeft, o.offerTtlSeconds),
        ImageUrl.Resolve(serverUrl, o.request.proofImageUrl), o.request.categoryName))
  }

  /**
   * Rendering after the offer effect: nothing is shown for an absent or
   * cancelled offer; a live one is slid in exactly while its deadline is
   * ahead, with the countdown the effect's first tick computed.
   */
  lemma RenderAfterEffect(s: ToastState, offer: Option<Offer>, soundUrl: Option<string>, now: int, serverUrl: Option<string>)
    ensures var r := Render(offer, OnOfferChanged(s, offer, soundUrl, now).state, serverUrl);
            && (r.None? <==> !IsLive(offer))
            && (r.Some? ==> (r.value.slidIn <==> now < EndAtMs(offer.value)))
            && (r.Some? ==> r.value.secondsLeft == SecondsLeft(EndAtMs(offer.value), now))
  {
  }

  /** A run of offer-effect invocations, one per change of the offer prop. */
  datatype Change = Change(offer: Option<Offer>, now: int)

  /** How many playbacks a run of offer changes starts. */
  function SoundsPlayed(s: ToastState, soundUrl: Option<string>, changes: seq<Change>): nat
    decreases |changes|
  {
    if |changes| == 0 then 0
    else
      var run := OnOfferChanged(s, changes[0].offer, soundUrl, changes[0].now);
      (if run.playsSound then 1 else 0) + SoundsPlayed(run.state, soundUrl, changes[1..])
  }

  /** Once a key has been heard, further changes carrying only that key (or no live offer) start no playback. */
  lemma {:induction false} NoReplayOfHeardKey(s: ToastState, soundUrl: Option<string>, changes: seq<Change>, key: string)
    requires s.lastSoundKey == Some(key)
    requires forall i :: 0 <= i < |changes| && IsLive(changes[i].offer) ==> NotificationKey(changes[i].offer.value) == key
    ensures SoundsPlayed(s, soundUrl, changes) == 0
    decreases |changes|
  {
    if |changes| > 0 {
      var run := OnOfferChanged(s, changes[0].offer, soundUrl, changes[0].now);
      NoReplayOfHeardKey(run.state, soundUrl, changes[1..], key);
    }
  }

  /** The alert plays at most once for one (request id, offeredAt) notification, however often it is re-delivered. */
  lemma {:induction false} SoundAtMostOncePerKey(s: ToastState, soundUrl: Option<string>, changes: seq<Change>, key: string)
    requires forall i :: 0 <= i < |changes| && IsLive(changes[i].offer) ==> NotificationKey(changes[i].offer.value) == key
    ensures SoundsPlayed(s, soundUrl, changes) <= 1
    decreases |changes|
  {
    if |changes| > 0 {
      var run := OnOfferChanged(s, changes[0].offer, soundUrl, changes[0].now);
      if run.playsSound {
        NoReplayOfHeardKey(run.state, soundUrl, changes[1..], key);
      } else {
        SoundAtMostOncePerKey(run.state, soundUrl, changes[1..], key);
      }
    }
  }

  /** A repeated offer with a new `offeredAt` restarts the countdown and plays the alert again. */
  lemma NewOfferedAtReplays(s: ToastState, a: Offer, b: Offer, now: int, later: int)
    requires !a.isCancelled && !b.isCancelled
    requires a.request.id == b.request.id && a.offeredAt != b.offeredAt
    ensures var first := OnOfferChanged(s, Some(a), Some("/alert.mp3"), now);
            var second := OnOfferChanged(first.state, Some(b), Some("/alert.mp3"), later);
            && second.playsSound
            && second.state.secondsLeft == SecondsLeft(EndAtMs(b), later)
  {
    NewOfferedAtIsNewKey(a, b);
  }
}
