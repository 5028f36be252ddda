/**
 * The offer toast as the vehicle page mounts it: under `key={offerKey}`.
 * A change of key unmounts the old instance, whose cleanup clears both of
 * its timers, and mounts a fresh one whose refs start empty. The alert's
 * de-duplication through `lastSoundKeyRef` therefore lasts for one mounted
 * instance only, and clearing the offer (key "none") ends that instance.
 */
module ToastMount {
  import opened Options
  import opened Offers
  import opened OfferToast
  import VehiclePage

  /** The mounted instance and the key it was mounted under. */
  datatype Mounted = Mounted(key: string, toast: ToastState)

  /** The page's first render: no offer, so the toast is mounted under "none" and its effect leaves it in its initial state. */
  const FirstMount: Mounted := Mounted(VehiclePage.NoOfferKey, Initial)

  /** One render with a new `offer` prop: the mounted state afterwards and whether a playback is started. */
  datatype MountRun = MountRun(mounted: Mounted, playsSound: bool)

  /**
   * The page renders with a new `offer` prop. Under an unchanged key the
   * mounted instance runs its offer effect again; under a new key a fresh
   * instance runs it from the initial state.
   */
  function OnOfferProp(m: Mounted, offer: Option<Offer>, soundUrl: Option<string>, now: int): (r: MountRun)
    ensures r.mounted.key == VehiclePage.OfferKey(offer)
    ensures r.mounted.key != m.key ==>
              (r.playsSound <==> IsLive(offer) && soundUrl.Some? && soundUrl.value != [])
    ensures r.mounted.key == m.key ==>
              r == MountRun(Mounted(m.key, OnOfferChanged(m.toast, offer, soundUrl, now).state),
                            OnOfferChanged(m.toast, offer, soundUrl, now).playsSound)
  {
    var key := VehiclePage.OfferKey(offer);
    var run := OnOfferChanged(if key == m.key then m.toast else Initial, offer, soundUrl, now);
    MountRun(Mounted(key, run.state), run.playsSound)
  }

  /** What a mounted instance has heard: nothing under "none", its own key under an offer's key. */
  predicate HeardOwnKey(m: Mounted) {
    && (m.key == VehiclePage.NoOfferKey ==> m.toast.lastSoundKey.None?)
    && (m.key != VehiclePage.NoOfferKey ==> m.toast.lastSoundKey == Some(m.key))
  }

  /**
   * For the offers the page passes (never a cancelled one), the alert plays
   * exactly when the toast key changes to an offer's key and a sound URL is
   * set: never for a re-delivery under the same key, always after a remount.
   */
  lemma AlertPlaysIffKeyChanges(m: Mounted, offer: Option<Offer>, soundUrl: Option<string>, now: int)
    requires HeardOwnKey(m)
    requires offer.Some? ==> !offer.value.isCancelled
    ensures HeardOwnKey(OnOfferProp(m, offer, soundUrl, now).mounted)
    ensures OnOfferProp(m, offer, soundUrl, now).playsSound <==>
              offer.Some? && VehiclePage.OfferKey(offer) != m.key && soundUrl.Some? && soundUrl.value != []
  {
    if offer.Some? {
      NotificationKeyIsNotNone(offer.value);
    }
  }

  /**
   * The alert is heard again after the offer was cleared: offer A, then no
   * offer (by expiry, a cancel or an answer), then A re-delivered with the
   * same `offeredAt` plays once more, while a re-delivery without the
   * clearing in between stays silent.
   */
  lemma ReplayAfterClear(a: Offer, t1: int, t2: int, t3: int)
    requires !a.isCancelled
    ensures var sound := Some("/alert.mp3");
            var first := OnOfferProp(FirstMount, Some(a), sound, t1);
            var cleared := OnOfferProp(first.mounted, None, sound, t2);
            var again := OnOfferProp(cleared.mounted, Some(a), sound, t3);
            && first.playsSound
            && !cleared.playsSound
            && again.playsSound
            && !OnOfferProp(first.mounted, Some(a), sound, t3).playsSound
  {
    var sound := Some("/alert.mp3");
    AlertPlaysIffKeyChanges(FirstMount, Some(a), sound, t1);
    var first := OnOfferProp(FirstMount, Some(a), sound, t1);
    AlertPlaysIffKeyChanges(first.mounted, None, sound, t2);
    AlertPlaysIffKeyChanges(first.mounted, Some(a), sound, t3);
    var cleared := OnOfferProp(first.mounted, None, sound, t2);
    AlertPlaysIffKeyChanges(cleared.mounted, Some(a), sound, t3);
  }
}
