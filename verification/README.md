# Vehicle dispatch client: verified model

This project is a Dafny model of the client that a rescue vehicle runs. The client logs the vehicle in and stores its token and record. It shows assignment offers pushed over a subscription, each with a countdown, an expiry timer and a one-time alert, and it sends the driver's accept or decline answer. It also drives the Arrived / Completed buttons of the active-assignment card.

Every React component or page becomes a module of pure functions over an explicit state:

- Hooks state and refs become fields.
- A browser timer becomes the instant it is due. On the vehicle page the record also holds the token `setTimeout` returned: a cleared timer never runs, so a firing whose token is not the pending one changes nothing. The toast's two timers are optional due instants (`hideDueAt`, `tickEndAt`), and clearing one sets it to none.
- The delay a timer waits is the browser's: `setTimeout` wraps its delay into a signed 32-bit integer, and a negative result counts as 0 (`Offers.TimerDelay`).
- The clock is a millisecond `now` passed with each event.
- Each awaited call is split in two: the click that starts it, and the settling that ends it.

| module | file | models |
|---|---|---|
| `Options` | options.dfy | `T \| null` values |
| `JsString` | js_string.dfy | `trim`, ASCII `toUpperCase`, regular-expression `/…/i` tests, slash stripping |
| `JsNumber` | js_number.dfy | JSON/GraphQL values, `Number(v)`, `parseInt(s, 10)`, `String(n)` |
| `Offers` | offers.dfy | the offer record, its deadline, its notification key |
| `ImageUrl` | image_url.dfy | `resolveImageUrl` (the same in the toast and the card) |
| `Session` | session.dfy | the two storage slots `resq.rv.jwt` and `resq.rv.info` |
| `VehiclePage` | vehicle_page.dfy | `app/vehicle/page.tsx` |
| `OfferToast` | offer_toast.dfy | `AssignmentOfferToast.tsx` |
| `ToastMount` | toast_mount.dfy | the toast mounted by the vehicle page under `key={offerKey}` |
| `ActiveCard` | active_card.dfy | `AssignmentActiveCard.tsx` |
| `LoginForm` | login_form.dfy | `LoginForm.tsx` |
| `LoginPage` | login_page.dfy | `app/auth/login/page.tsx` |

Behaviour kept as written, although it may surprise:

- The respond handler clears whatever offer is current when the call returns. An offer that arrived during the call is therefore dropped, while its expiry timer stays armed (`VehiclePage.ResponseClearsOfferArrivedMidCall`). The reply body of the respond mutation is not looked at: success means the call resolved.
- A successful answer does not cancel the expiry timer. When that timer fires later, it clears the offer a second time, which changes nothing.
- The toast's progress bar divides by the raw `offerTtlSeconds`. With a missing or zero lifetime the countdown runs from 15 s, but the bar stays at 0 %.
- The countdown is clamped only at 0. If the clock is behind `offeredAt`, it can read more than the lifetime.
- The toast restarts its 250 ms interval after the first tick even when that tick already found zero. The next tick stops it again.
- The expiry timer and the toast's hide timeout are asked for `max(0, endAt - now)` with no bound. A delay of 2^31 ms (about 24.8 days) or more wraps around, and often fires at once. So an offer whose deadline is that far ahead, because of a lifetime of 2147484 s or more or a device clock running that far behind, vanishes at once (`VehiclePage.FarDeadlineExpiresAtOnce`, `OfferToast.FarDeadlineHidesAtOnce`).
- The toast is mounted under the offer's key, and its "already heard" memory belongs to one mounted instance. Clearing the offer (by expiry, a cancel or an answer) remounts the toast under "none". An identical offer delivered afterwards plays the alert again (`ToastMount.ReplayAfterClear`).
- The form treats a `null` result from `onLogin` as success, just like no result.
- Without a stored vehicle id, the vehicle page redirects to `/vehicle/login`. The vehicle layout sends a visitor without a token to `/auth/login`.

## Model

| member | source | states |
|---|---|---|
| JsNumber.ParseInt | app/vehicle/page.tsx:24 | parseInt yields NaN or an integral value |
| JsNumber.ParseIntNaNIff | app/vehicle/page.tsx:31-33 | parseInt is NaN exactly when no digit follows the leading white space and optional sign |
| JsNumber.ParseIntOfDecimalPrefix | app/vehicle/page.tsx:32 | prefix semantics: white space, then the decimal text of i, then a non-digit tail, reads back as i |
| JsNumber.ParseIntOfIntToString | app/vehicle/page.tsx:24 | round trip: parseInt(String(i)) is i for every integer i |
| JsNumber.IntToString | app/vehicle/page.tsx:101 | String(n) is non-empty, starts with '-' exactly for negatives, else with a digit |
| JsNumber.IntToStringInjective | app/vehicle/page.tsx:101 | distinct integers have distinct decimal texts |
| JsNumber.ToNumber | app/vehicle/page.tsx:32 | Number(v) of a non-string: numbers unchanged, null is 0, true/false are 1/0; NaN exactly for undefined and objects |
| JsString.TrimNonEmptyIff | components-page/login/LoginForm.tsx:28 | trim leaves text exactly when a non-white-space character is present |
| JsString.TrimStart | app/vehicle/page.tsx:24 | removes exactly a white-space prefix, and what is left does not start with white space |
| JsString.TrimEnd | components-page/login/LoginForm.tsx:38 | removes exactly a white-space suffix, and what is left does not end with white space |
| JsString.Trim | components-page/login/LoginForm.tsx:28 | the result is a slice of the input between white-space margins, and neither starts nor ends with white space |
| JsString.ToUpper | components-page/login/LoginForm.tsx:110 | same length; each character is its ASCII upper-case form |
| JsString.ToUpperNormalises | components-page/login/LoginForm.tsx:110 | upper-casing leaves no lower-case ASCII letter, keeps other characters, and is idempotent |
| JsString.ContainsIgnoringCase | components-page/home/AssignmentActiveCard.tsx:76 | the unanchored /p/i test holds iff p occurs at some position, ignoring case |
| JsString.StripTrailingSlashes | components-page/home/AssignmentOfferToast.tsx:16 | removes exactly the trailing run of slashes |
| JsString.StripLeadingSlashes | components-page/home/AssignmentOfferToast.tsx:17 | removes exactly the leading run of slashes |
| JsString.StripLeadingSlashesAbsorbs | components-page/home/AssignmentOfferToast.tsx:17 | extra leading slashes strip to the same remainder |
| Offers.EffectiveTtl | app/vehicle/page.tsx:71 | a zero lifetime means 15 s; any other value, negative included, is kept |
| Offers.EndAtMs | app/vehicle/page.tsx:70-71 | the deadline lies a whole number of seconds (lifetimes are whole seconds here) after offeredAt: 15 s for a zero lifetime, the lifetime otherwise; it is later than offeredAt iff the lifetime is not negative |
| Offers.TimerDelay | app/vehicle/page.tsx:73-75 | the delay the browser waits: below 2^31 and at most what was asked; equal to it below 2^31; otherwise 0 or smaller by a multiple of 2^32, and 0 from 2^31 to 2^32 |
| Offers.DelayUntil | app/vehicle/page.tsx:75 | the timer delay is never negative, is 0 iff the deadline has passed, and ends exactly at the deadline otherwise |
| Offers.NewOfferedAtIsNewKey | components-page/home/AssignmentOfferToast.tsx:53 | for one request id, two offers share a notification key iff they share offeredAt |
| Offers.NotificationKey | app/vehicle/page.tsx:101 | the key splits back into the id text, one '-', and offeredAt |
| Offers.NumericIdsKeyInjective | app/vehicle/page.tsx:100-103 | with numeric ids, equal keys mean equal id and offeredAt |
| Offers.NotificationKeyIsNotNone | app/vehicle/page.tsx:101 | a notification key never collides with the word "none" |
| ImageUrl.Resolve | components-page/home/AssignmentOfferToast.tsx:13-19 | null or empty gives null; an absolute http(s) URL in any case is returned unchanged; otherwise a joined URL holding a slash |
| ImageUrl.Join | components-page/home/AssignmentOfferToast.tsx:16-18 | the joined URL always holds a slash |
| ImageUrl.ResolveJoinsWithOneSlash | components-page/home/AssignmentActiveCard.tsx:40-46 | the card's copy: base without trailing slashes, one '/', path without leading slashes; only slashes are dropped |
| ImageUrl.SlashFirstIsRelative | components-page/home/AssignmentOfferToast.tsx:15 | text starting with '/' is never treated as absolute |
| ImageUrl.LeadingSlashCountIrrelevant | components-page/home/AssignmentOfferToast.tsx:16-18 | one or many leading slashes give the same URL, as does none for a relative path |
| VehiclePage.ToInt | app/vehicle/page.tsx:31-34 | numbers pass unchanged (not truncated), null gives 0, booleans 1/0; a string converts iff parseInt is finite, to parseInt's integer value; undefined and objects give null |
| VehiclePage.ToIntExamples | app/vehicle/page.tsx:31-34 | 3.5 stays 3.5, " 42px" gives 42, the empty string gives null |
| VehiclePage.BooleanIdIsVehicleOne | app/vehicle/page.tsx:22-25 | a stored record whose id is `true` gives vehicle id 1 |
| VehiclePage.StoredVehicleId | app/vehicle/page.tsx:17-29 | a missing slot or unparsable text gives null; an id is only found in a parsed non-null value |
| VehiclePage.IdCandidate | app/vehicle/page.tsx:22 | id if not nullish, else rescueVehicleId if not nullish, else vehicleId |
| VehiclePage.StoredVehicleIdChain | app/vehicle/page.tsx:22-25 | the first non-nullish of id, rescueVehicleId, vehicleId decides; an unusable earlier field does not fall through |
| VehiclePage.StoredVehicleIdNullCases | app/vehicle/page.tsx:22-25 | null when all three fields are nullish, or exactly when the chosen field fails toInt |
| VehiclePage.Mount | app/vehicle/page.tsx:42-49 | without a stored id the page redirects to /vehicle/login, otherwise it holds that id and no offer |
| VehiclePage.OnOfferEvent | app/vehicle/page.tsx:57-76 | no data: no change; otherwise the old expiry is cancelled; a cancelled event clears the offer and arms nothing; a live one becomes the offer with one fresh expiry, due no later than max(now, endAt), and exactly then when endAt is less than 2^31 ms ahead |
| VehiclePage.OnExpiryFired | app/vehicle/page.tsx:73-75 | the pending timer clears the offer and itself; any other token changes nothing |
| VehiclePage.BeginRespond | app/vehicle/page.tsx:79-92 | a call is made iff there is an offer, a vehicle id and a convertible request id; it carries the converted ids and the decision |
| VehiclePage.EndRespond | app/vehicle/page.tsx:90-97 | success clears the current offer; failure changes nothing; the expiry timer is untouched |
| VehiclePage.NumericOfferAlwaysSent | app/vehicle/page.tsx:82-88 | the vehicle id always converts, so a numeric request id is always sent |
| VehiclePage.ResponseClearsOfferArrivedMidCall | app/vehicle/page.tsx:90-94 | a success settling after a newer offer arrived clears that newer offer and leaves its timer armed |
| VehiclePage.MountEstablishesInvariant | app/vehicle/page.tsx:38-49 | the mounted page satisfies the channel invariant |
| VehiclePage.StepPreservesInvariant | app/vehicle/page.tsx:57-98 | every event keeps the invariant: a shown offer is live and owns the single pending expiry, which is due when the browser runs a timer asked for max(0, endAt - armedAt) |
| VehiclePage.RunPreservesInvariant | app/vehicle/page.tsx:57-98 | any sequence of events keeps the channel invariant |
| VehiclePage.StaleTimerCannotClearNewerOffer | app/vehicle/page.tsx:61-75 | after a new event, every earlier timer is dead |
| VehiclePage.ShownOfferExpiresByDeadline | app/vehicle/page.tsx:70-75 | a shown offer's expiry is due no later than max(armedAt, endAt), and exactly then when endAt was less than 2^31 ms ahead; it clears the offer and firing again changes nothing |
| VehiclePage.FiveSecondOfferScenario | app/vehicle/page.tsx:70-75 | a 5 s offer delivered at its offer time is due to vanish at 5000 ms |
| VehiclePage.FarDeadlineExpiresAtOnce | app/vehicle/page.tsx:70-75 | an offer with a 2147484 s lifetime delivered at its offer time, or with a deadline 2^31 ms ahead, is shown but due to be cleared at the instant it arrives |
| VehiclePage.OfferKey | app/vehicle/page.tsx:100-103 | the toast key is "none" iff there is no offer, otherwise the notification key |
| VehiclePage.RepeatOfferGetsNewKey | app/vehicle/page.tsx:114-115 | the same request with a new offeredAt remounts the toast |
| VehiclePage.MapInputs | app/vehicle/page.tsx:107-113 | the map exists iff a vehicle id is known; it is active, and has the offer's coordinates as target, iff an offer is shown |
| VehiclePage.MapActiveOnlyUntilExpiry | app/vehicle/page.tsx:107-113 | an active map always has a pending expiry owned by the shown offer, and that expiry firing makes the map inactive |
| OfferToast.SecondsLeft | components-page/home/AssignmentOfferToast.tsx:68-70 | the countdown is the ceiling of the remaining seconds, never negative, 0 exactly from the deadline on |
| OfferToast.SecondsLeftWithinTtl | components-page/home/AssignmentOfferToast.tsx:59-70 | from the offer time on, the countdown never exceeds a whole-second lifetime |
| OfferToast.OnOfferChanged | components-page/home/AssignmentOfferToast.tsx:44-85 | absent or cancelled: hidden, both timers cleared, no sound; live: sound iff the key is new and a sound URL is set, countdown from endAt, hide due no later than max(now, endAt), and exactly then when endAt is less than 2^31 ms ahead |
| OfferToast.OnTick | components-page/home/AssignmentOfferToast.tsx:68-78 | a tick refreshes the countdown; at zero it hides the toast and stops the interval |
| OfferToast.OnHideFired | components-page/home/AssignmentOfferToast.tsx:79 | the hide timeout hides the toast |
| OfferToast.Unmount | components-page/home/AssignmentOfferToast.tsx:81-84 | cleanup clears both timers |
| OfferToast.ShownUntilDeadline | components-page/home/AssignmentOfferToast.tsx:66-79 | before its deadline a live offer is shown with a positive countdown, and when the deadline is less than 2^31 ms ahead the hide timeout is not due before it |
| OfferToast.HiddenAtDeadline | components-page/home/AssignmentOfferToast.tsx:68-79 | from the deadline on, the tick and the hide timeout each hide the toast on their own; the hide timeout is due by the deadline, exactly at it when that was less than 2^31 ms away |
| OfferToast.FarDeadlineHidesAtOnce | components-page/home/AssignmentOfferToast.tsx:66-79 | for a 2147484 s lifetime the hide timeout is due at once and hides the toast while the countdown still reads 2147484 |
| OfferToast.PercentLeft | components-page/home/AssignmentOfferToast.tsx:87-90 | always in [0, 100]; 0 for a zero raw lifetime; proportional to the seconds left within the lifetime |
| OfferToast.Render | components-page/home/AssignmentOfferToast.tsx:92-100 | nothing is rendered without an offer or for a cancelled one |
| OfferToast.RenderAfterEffect | components-page/home/AssignmentOfferToast.tsx:44-93 | after the offer effect, nothing renders iff the offer is absent or cancelled; a live toast is slid in iff its deadline is ahead, showing the first tick's countdown |
| OfferToast.NoReplayOfHeardKey | components-page/home/AssignmentOfferToast.tsx:53-57 | within one mounted toast, a key already heard is never played again |
| OfferToast.SoundAtMostOncePerKey | components-page/home/AssignmentOfferToast.tsx:30-57 | within one mounted toast, over any run of offer changes with one key, the alert plays at most once |
| OfferToast.NewOfferedAtReplays | components-page/home/AssignmentOfferToast.tsx:53-77 | a repeated request with a new offeredAt plays again and restarts the countdown |
| ToastMount.OnOfferProp | app/vehicle/page.tsx:114-118 | the toast ends up under OfferKey(offer); a new key starts a fresh instance, which plays for any live offer with a sound URL; an unchanged key re-runs the mounted instance's effect |
| ToastMount.AlertPlaysIffKeyChanges | components-page/home/AssignmentOfferToast.tsx:27-57 | for the offers the page passes, the alert plays iff the toast key changes to an offer's key and a sound URL is set |
| ToastMount.ReplayAfterClear | app/vehicle/page.tsx:100-115 | an offer, then no offer, then the same offer again plays the alert twice; without the clearing in between, the repeat stays silent |
| ActiveCard.ArrivedFromStatus | components-page/home/AssignmentActiveCard.tsx:75-77 | arrived iff "arriv" occurs in the status in any case; a missing status is not arrived |
| ActiveCard.ArrivedPrefixMatches | components-page/home/AssignmentActiveCard.tsx:76 | a status beginning with "arriv" in any case counts as arrived |
| ActiveCard.ArrivedStatusRecognised | components-page/home/AssignmentActiveCard.tsx:82 | "Arrived" and "ARRIVED" count as arrived |
| ActiveCard.NoLetterVIsNotArrived | components-page/home/AssignmentActiveCard.tsx:82 | a status without v or V never counts as arrived |
| ActiveCard.DispatchedIsNotArrived | components-page/home/AssignmentActiveCard.tsx:76 | "Dispatched" does not count as arrived |
| ActiveCard.Init | components-page/home/AssignmentActiveCard.tsx:75-79 | first render: arrived from the status, nothing in flight |
| ActiveCard.OnStatusChanged | components-page/home/AssignmentActiveCard.tsx:81-84 | a status change re-derives arrived and touches nothing else |
| ActiveCard.ClickArrived | components-page/home/AssignmentActiveCard.tsx:98-100 | the handler is called iff not marking and not arrived; otherwise nothing changes |
| ActiveCard.FinishArrived | components-page/home/AssignmentActiveCard.tsx:101-108 | arrived becomes true only on a true result; arriving is reset on every path |
| ActiveCard.ClickCompleted | components-page/home/AssignmentActiveCard.tsx:111-113 | the handler is called iff one exists and no completion is running |
| ActiveCard.FinishCompleted | components-page/home/AssignmentActiveCard.tsx:114-118 | completing is reset whether the handler returned or threw |
| ActiveCard.CompletedClickCycle | components-page/home/AssignmentActiveCard.tsx:111-118 | with a handler, a click calls it and disables Completed, a second click is ignored, and settling restores the card with the button enabled; without one, the button is disabled and nothing is called |
| ActiveCard.ActionButtons | components-page/home/AssignmentActiveCard.tsx:199-231 | exactly one button: Arrived iff not arrived (disabled while marking), Completed iff arrived (disabled without a handler or while completing) |
| ActiveCard.ArrivedSuccessLeavesOnlyCompleted | components-page/home/AssignmentActiveCard.tsx:216-231 | after a successful Arrived, only Completed is offered and Arrived clicks are ignored |
| ActiveCard.ArrivedFailureKeepsArrivedButton | components-page/home/AssignmentActiveCard.tsx:101-108 | a false result or a throw leaves an enabled Arrived button |
| ActiveCard.Render | components-page/home/AssignmentActiveCard.tsx:73-96 | a null request renders nothing; otherwise "#id" and one action button |
| ActiveCard.RenderFollowsArrivedClick | components-page/home/AssignmentActiveCard.tsx:98-231 | the rendered button reads "Destination Arrived", then a disabled "Marking…" while the handler runs, then "Completed" (disabled without a handler) after success, with the id and image unchanged |
| LoginForm.OnPlateInput | components-page/login/LoginForm.tsx:110 | the stored plate has no lower-case letters, the same length, other characters kept |
| LoginForm.OnPasswordInput | components-page/login/LoginForm.tsx:125 | the password is stored verbatim |
| LoginForm.TypingEnablesSubmit | components-page/login/LoginForm.tsx:23-28 | the empty form cannot submit; after typing, it can iff the typed plate has a non-white-space character and the password is non-empty |
| LoginForm.CanSubmit | components-page/login/LoginForm.tsx:28 | enabled iff the plate has a non-white-space character and the password is non-empty (a password of spaces counts) |
| LoginForm.BeginSubmit | components-page/login/LoginForm.tsx:30-38 | ignored when not enabled or already submitting; otherwise submitting, error cleared, trimmed plate and verbatim password sent |
| LoginForm.Succeeded | components-page/login/LoginForm.tsx:40-49 | a boolean as is; an object fails only if success is exactly false; nothing or null succeeds |
| LoginForm.MessageOrDefault | components-page/login/LoginForm.tsx:52 | a non-empty message is kept, otherwise 'Wrong credentials' |
| LoginForm.ErrorFor | components-page/login/LoginForm.tsx:51-56 | no error iff the call resolved to success; errors are non-empty, from the result's or the exception's message, else the default |
| LoginForm.FinishSubmit | components-page/login/LoginForm.tsx:51-58 | submitting is false on every path; an error is set exactly on failure |
| LoginForm.SubmitRoundTrip | components-page/login/LoginForm.tsx:30-58 | one submission ends not submitting with exactly the outcome's error |
| LoginPage.HandleLogin | app/auth/login/page.tsx:38-58 | a failed mutation propagates its error message; missing payload ('No response from server.'), failure (its message or 'Login failed.') and malformed reply ('Malformed login response.') are errors; otherwise two writes, then navigation to /vehicle |
| LoginPage.LoginPersistsBeforeNavigating | app/auth/login/page.tsx:52-57 | the writes before navigation store the JWT from message and the vehicle record |
| LoginPage.RedirectOnMount | app/auth/login/page.tsx:31-34 | a stored non-empty token redirects to /vehicle |
| LoginPage.FreshDeviceGoesToLogin | app/auth/login/page.tsx:31-34 | with empty storage the login page stays and the vehicle page redirects to its login route |
| LoginPage.LoginThenReadBack | app/auth/login/page.tsx:53-54 | a vehicle saved with a decimal id is read back by the vehicle page as that integer, and the login page then redirects |
| LoginPage.FormShowsPageError | app/auth/login/page.tsx:38-50 | through the form, success shows no error, a rejected reply shows the page's message, and a failed mutation shows its error's message or 'Wrong credentials' |

## Left out

- The live location map, the Apollo client setup, the WebGL login background, the layouts and the demo page. These are browser, map, transport and styling code, with no decision logic the pages rely on.
- The assignment reconciler and polling, the Arrived/Completed status mutations, the location re-sample interval and the route overlay. The code contains none of these.
- The subscription set-up, which skips when there is no vehicle id. Offer events are inputs to the model.
- The GraphQL documents. They only shape the `Offer` record.
- Date parsing. `offeredAtMs` stands for `new Date(offeredAt).getTime()`, so an invalid date (NaN) is not represented.
- JavaScript number precision. Numbers are exact reals, so IEEE-754 rounding above 2^53, `-0` and the overflow of very long digit strings to Infinity are not represented.
- Offers.EndAtMs: takes the lifetime as whole seconds, although the field is a JavaScript number and a fractional lifetime such as 7.5 s is possible. OfferToast.SecondsLeftWithinTtl therefore holds for whole-second lifetimes only: with 7.5 s the first tick shows 8 s.
- OfferToast.SecondsLeftWithinTtl: holds for whole-second lifetimes only; see Offers.EndAtMs.
- JsNumber.IntToString: always writes plain decimal digits. `String(n)` switches to exponent form (`1e+21`) from 10^21 on, which is beyond the exact-integer range the ids use.
- JSON text. The stored vehicle record is held as the value `JSON.parse` returns, and a write followed by a read is taken to give that value back. Arrays as id values are not represented.
- Audio playback, autoplay blocking, logging, and the rendering of addresses, coordinates, descriptions and contact details.
- React scheduling. Stale closures, two clicks landing before a re-render, and the hook-order issue of rendering `null` before the hooks in the card are not represented.
- The toast reads `Date.now()` a second time when it arms the hide timeout. The model uses one `now` for both readings.
- JsString.ToUpperNormalises: "keeps other characters" holds for the ASCII model only. JavaScript's `toUpperCase` also maps non-ASCII letters ('é' to 'É', 'ß' to "SS"). JsString.ToUpper is the same ASCII-only mapping.
- LoginForm.OnPlateInput: upper-cases ASCII letters only. The full Unicode mapping of `toUpperCase` (such as 'ß' to "SS") is not modelled, because the plate alphabet is ASCII.
