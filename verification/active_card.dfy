/**
 * The active assignment card: it derives "arrived" from the status text and
 * drives the Arrived / Completed buttons, with in-flight flags that block
 * repeated clicks. Each click handler is split into the click (guard and
 * start) and the settling of the awaited handler.
 */
module ActiveCard {
  import opened Options
  import opened JsString
  import opened Offers
  import ImageUrl

  /** The part of the request the card's logic reads. */
  datatype CardRequest = CardRequest(id: RequestId, status: Option<string>, proofImageUrl: Option<string>)

  datatype CardState = CardState(arrived: bool, arriving: bool, completing: bool)

  const ArrivedPattern: string := "arriv"

  /** `/arriv/i.test(status ?? '')` */
  function ArrivedFromStatus(status: Option<string>): (r: bool)
    ensures status.None? ==> !r
    ensures r <==> exists k :: 0 <= k <= |status.GetOr("")| - |ArrivedPattern| && StartsWithIgnoringCase(status.GetOr("")[k..], ArrivedPattern)
  {
    ContainsIgnoringCase(status.GetOr(""), ArrivedPattern)
  }

  /** The arrival status is recognised in any letter case. */
  lemma ArrivedStatusRecognised()
    ensures ArrivedFromStatus(Some("Arrived"))
    ensures ArrivedFromStatus(Some("ARRIVED"))
  {
    ArrivedPrefixMatches("Arrived");
    ArrivedPrefixMatches("ARRIVED");
  }

  /** A status whose first five letters spell "arriv" in some letter case matches the pattern. */
  lemma ArrivedPrefixMatches(status: string)
    requires |status| >= |ArrivedPattern|
    requires forall i :: 0 <= i < |ArrivedPattern| ==> SameIgnoringCase(status[i], ArrivedPattern[i])
    ensures ArrivedFromStatus(Some(status))
  {
    assert StartsWithIgnoringCase(status[0..], ArrivedPattern);
  }

  /** A status without the letter v, in either case, never counts as arrival. */
  lemma NoLetterVIsNotArrived(status: string)
    requires forall i :: 0 <= i < |status| ==> UpperChar(status[i]) != 'V'
    ensures !ArrivedFromStatus(Some(status))
  {
    forall k | 0 <= k <= |status| - |ArrivedPattern|
      ensures !StartsWithIgnoringCase(status[k..], ArrivedPattern)
    {
      assert !SameIgnoringCase(status[k..][4], ArrivedPattern[4]);
    }
  }

  /** The dispatched status does not count as arrival. */
  lemma DispatchedIsNotArrived()
    ensures !ArrivedFromStatus(Some("Dispatched"))
  {
    var d := "Dispatched";
    forall i | 0 <= i < |d|
      ensures UpperChar(d[i]) != 'V'
    {
      assert d[i] in "Dispatched";
    }
    NoLetterVIsNotArrived(d);
  }

  /** The first render: `arrived` from the status, nothing in flight. */
  function Init(status: Option<string>): (s: CardState)
    ensures s.arrived == ArrivedFromStatus(status) && !s.arriving && !s.completing
  {
    CardState(ArrivedFromStatus(status), false, false)
  }

  /** The status effect: a new status re-derives `arrived` and touches nothing else. */
  function OnStatusChanged(s: CardState, status: Option<string>): (r: CardState)
    ensures r.arrived == ArrivedFromStatus(status)
    ensures r.arriving == s.arriving && r.completing == s.completing
  {
    s.(arrived := ArrivedFromStatus(status))
  }

  /** A click: the next state and whether the parent's handler is called. */
  datatype Click = Click(state: CardState, callsHandler: bool)

  /** How an awaited handler settled. */
  datatype Settled = Returned(ok: bool) | Threw

  /** `handleArrivedClick` up to the await: ignored while marking or once arrived. */
  function ClickArrived(s: CardState): (r: Click)
    ensures r.callsHandler <==> !s.arriving && !s.arrived
    ensures !r.callsHandler ==> r.state == s
    ensures r.callsHandler ==> r.state.arriving && r.state.arrived == s.arrived && r.state.completing == s.completing
  {
    if s.arriving || s.arrived then Click(s, false) else Click(s.(arriving := true), true)
  }

  /** The rest of `handleArrivedClick`: only a `true` result marks arrival; `arriving` is reset on every path. */
  function FinishArrived(s: CardState, outcome: Settled): (r: CardState)
    ensures !r.arriving
    ensures r.arrived <==> s.arrived || outcome == Returned(true)
    ensures r.completing == s.completing
  {
    var marked := if outcome == Returned(true) then s.(arrived := true) else s;
    marked.(arriving := false)
  }

  /** `handleCompletedClick` up to the await: ignored without a handler or while completing. */
  function ClickCompleted(s: CardState, hasHandler: bool): (r: Click)
    ensures r.callsHandler <==> hasHandler && !s.completing
    ensures !r.callsHandler ==> r.state == s
    ensures r.callsHandler ==> r.state.completing && r.state.arrived == s.arrived && r.state.arriving == s.arriving
  {
    if !hasHandler || s.completing then Click(s, false) else Click(s.(completing := true), true)
  }

  /** The `finally` of `handleCompletedClick`: `completing` is reset whether the handler returned or threw. */
  function FinishCompleted(s: CardState): (r: CardState)
    ensures !r.completing && r.arrived == s.arrived && r.arriving == s.arriving
  {
    s.(completing := false)
  }

  /**
   * One Completed cycle: with a handler, the click calls it and disables the
   * button, a second click meanwhile is ignored, and settling restores the
   * card exactly, with the button enabled again. Without a handler the
   * button is disabled and a click calls nothing.
   */
  lemma CompletedClickCycle(s: CardState)
    requires s.arrived && !s.completing
    ensures var clicked := ClickCompleted(s, true);
            && clicked.callsHandler
            && ActionButtons(clicked.state, true)[0].disabled
            && !ClickCompleted(clicked.state, true).callsHandler
            && FinishCompleted(clicked.state) == s
            && !ActionButtons(FinishCompleted(clicked.state), true)[0].disabled
    ensures ActionButtons(s, false)[0].disabled && !ClickCompleted(s, false).callsHandler
  {
  }

  datatype ButtonKind = ArrivedButton | CompletedButton

  datatype Button = Button(kind: ButtonKind, disabled: bool, caption: string)

  /** The action row holds exactly one button: Arrived until arrival, Completed after it. */
  function ActionButtons(s: CardState, hasHandler: bool): (r: seq<Button>)
    ensures |r| == 1
    ensures r[0].kind == CompletedButton <==> s.arrived
    ensures r[0].kind == ArrivedButton ==> (r[0].disabled <==> s.arriving)
    ensures r[0].kind == CompletedButton ==> (r[0].disabled <==> !hasHandler || s.completing)
  {
    if !s.arrived then
      [Button(ArrivedButton, s.arriving, if s.arriving then "Marking…" else "Destination Arrived")]
    else
      [Button(CompletedButton, !hasHandler || s.completing, if s.completing then "Completing…" else "Completed")]
  }

  /** After the Arrived handler reports success, only the Completed action is offered. */
  lemma ArrivedSuccessLeavesOnlyCompleted(s: CardState, hasHandler: bool)
    requires !s.arrived && !s.arriving
    ensures var clicked := ClickArrived(s);
            var done := FinishArrived(clicked.state, Returned(true));
            && clicked.callsHandler
            && ActionButtons(done, hasHandler)[0].kind == CompletedButton
            && !ClickArrived(done).callsHandler
  {
  }

  /** A false result or a thrown handler leaves the Arrived button in place and clickable again. */
  lemma ArrivedFailureKeepsArrivedButton(s: CardState, hasHandler: bool, outcome: Settled)
    requires !s.arrived && !s.arriving && outcome != Returned(true)
    ensures var done := FinishArrived(ClickArrived(s).state, outcome);
            && ActionButtons(done, hasHandler) == [Button(ArrivedButton, false, "Destination Arrived")]
            && ClickArrived(done).callsHandler
  {
  }

  /** What the card shows. */
  datatype CardView = CardView(idText: string, buttons: seq<Button>, imageSrc: Option<string>)

  /** A null request renders nothing; otherwise the card shows `#id`, the single action button and the image. */
  function Render(request: Option<CardRequest>, s: CardState, hasHandler: bool, serverUrl: Option<string>): (r: Option<CardView>)
    ensures r.None? <==> request.None?
    ensures r.Some? ==> r.value.idText == "#" + IdText(request.value.id) && |r.value.buttons| == 1
  {
    if request.None? then None
    else
      var req := request.value;
      Some(CardView("#" + IdText(req.id), ActionButtons(s, hasHandler), ImageUrl.Resolve(serverUrl, req.proofImageUrl)))
  }

  /**
   * The rendered card follows the Arrived click: while the handler runs the
   * button reads "Marking…" and is disabled; after success the Completed
   * button takes its place, clickable when a handler is passed; the id and
   * image stay as they were.
   */
  lemma RenderFollowsArrivedClick(req: CardRequest, s: CardState, hasHandler: bool, serverUrl: Option<string>)
    requires !s.arrived && !s.arriving && !s.completing
    ensures var marking := ClickArrived(s).state;
            var done := FinishArrived(marking, Returned(true));
            var before := Render(Some(req), s, hasHandler, serverUrl);
            var during := Render(Some(req), marking, hasHandler, serverUrl);
            var after := Render(Some(req), done, hasHandler, serverUrl);
            && before.Some? && during.Some? && after.Some?
            && before.value.buttons == [Button(ArrivedButton, false, "Destination Arrived")]
            && during.value.buttons == [Button(ArrivedButton, true, "Marking…")]
            && after.value.buttons == [Button(CompletedButton, !hasHandler, "Completed")]
            && before.value.idText == during.value.idText == after.value.idText
            && before.value.imageSrc == during.value.imageSrc == after.value.imageSrc
  {
  }
}
