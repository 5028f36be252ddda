/**
 * The assignment offer pushed to a vehicle, the deadline derived from it and
 * the key that identifies one notification, shared by the vehicle page and
 * the offer toast.
 */
module Offers {
  import opened Options
  import opened JsNumber

  /** A request id arrives either as a number or as a string. */
  datatype RequestId = NumericId(n: int) | TextId(text: string)

  /** The request an offer is about; coordinates are opaque values. */
  datatype Request = Request(
    id: RequestId,
    address: string,
    description: Option<string>,
    latitude: real,
    longitude: real,
    proofImageUrl: Option<string>,
    categoryName: Option<string>)

  /**
   * One offer event. `offeredAt` is the server's ISO timestamp text (it is
   * part of the notification key); `offeredAtMs` is the millisecond instant
   * it denotes. A missing `offerTtlSeconds` behaves like 0 at every use.
   */
  datatype Offer = Offer(
    request: Request,
    isCancelled: bool,
    offeredAt: string,
    offeredAtMs: int,
    offerTtlSeconds: int)

  const DefaultTtlSeconds: int := 15

  /** `ttl || 15`: a zero time-to-live falls back to the default; any other value, negative included, is kept. */
  function EffectiveTtl(ttl: int): (r: int)
    ensures r != 0
    ensures ttl != 0 ==> r == ttl
    ensures ttl == 0 ==> r == DefaultTtlSeconds
  {
    if ttl == 0 then DefaultTtlSeconds else ttl
  }

  /** The instant the offer lapses: `offeredAt + (ttl || 15) * 1000`. */
  function EndAtMs(o: Offer): (r: int)
    ensures (r - o.offeredAtMs) % 1000 == 0
    ensures o.offerTtlSeconds == 0 ==> r == o.offeredAtMs + DefaultTtlSeconds * 1000
    ensures o.offerTtlSeconds != 0 ==> r == o.offeredAtMs + o.offerTtlSeconds * 1000
    ensures r > o.offeredAtMs <==> o.offerTtlSeconds >= 0
  {
    o.offeredAtMs + EffectiveTtl(o.offerTtlSeconds) * 1000
  }

  /** `Math.max(0, endAt - now)`: the timer delay that makes a timeout fire at `endAt`, or at once when that has passed. */
  function DelayUntil(endAt: int, now: int): (d: nat)
    ensures d == 0 <==> now >= endAt
    ensures d > 0 ==> now + d == endAt
    ensures now + d >= endAt
  {
    if endAt - now > 0 then endAt - now else 0
  }

  /** 2^31: the first delay the browser's 32-bit timer argument cannot hold. */
  const TimerDelayLimit: int := 0x8000_0000

  /**
   * The delay a browser timer actually waits. `setTimeout` takes its delay
   * as a WebIDL `long`: the value is wrapped modulo 2^32 into a signed
   * 32-bit integer, and a negative result counts as 0. A delay below 2^31
   * is kept; a longer one waits less than asked, often not at all.
   */
  function TimerDelay(d: nat): (r: nat)
    ensures r < TimerDelayLimit && r <= d
    ensures d < TimerDelayLimit ==> r == d
    ensures r == 0 || (d - r) % 0x1_0000_0000 == 0
    ensures TimerDelayLimit <= d < 2 * TimerDelayLimit ==> r == 0
  {
    var m := d % 0x1_0000_0000;
    if m < TimerDelayLimit then m else 0
  }

  /** `String(id)`, which is also what a template literal makes of it. */
  function IdText(id: RequestId): string {
    match id
    case NumericId(n) => IntToString(n)
    case TextId(t) => t
  }

  /** The id as the JavaScript value handed to `toInt`. */
  function IdValue(id: RequestId): JsValue {
    match id
    case NumericId(n) => JNum(n as real)
    case TextId(t) => JStr(t)
  }

  /** `${request.id}-${offeredAt}`: one notification, as the page and the toast both spell it. */
  function NotificationKey(o: Offer): (k: string)
    ensures var n := |IdText(o.request.id)|;
            && |k| == n + 1 + |o.offeredAt|
            && k[..n] == IdText(o.request.id)
            && k[n] == '-'
            && k[n + 1..] == o.offeredAt
  {
    var k := IdText(o.request.id) + "-" + o.offeredAt;
    assert k[..|IdText(o.request.id)|] == IdText(o.request.id);
    assert k[|IdText(o.request.id)| + 1..] == o.offeredAt;
    k
  }

  /** A repeated offer for the same request with a new `offeredAt` is a new notification. */
  lemma NewOfferedAtIsNewKey(a: Offer, b: Offer)
    requires a.request.id == b.request.id
    ensures NotificationKey(a) == NotificationKey(b) <==> a.offeredAt == b.offeredAt
  {
    var prefix := IdText(a.request.id) + "-";
    if NotificationKey(a) == NotificationKey(b) {
      assert a.offeredAt == NotificationKey(a)[|prefix|..];
      assert b.offeredAt == NotificationKey(b)[|prefix|..];
    }
  }

  /** Two offers for numeric request ids share a key only if the ids are equal (and so are the timestamps). */
  lemma NumericIdsKeyInjective(a: Offer, b: Offer)
    requires a.request.id.NumericId? && b.request.id.NumericId?
    ensures NotificationKey(a) == NotificationKey(b) ==> a.request.id == b.request.id && a.offeredAt == b.offeredAt
  {
    if NotificationKey(a) == NotificationKey(b) {
      var p := IntToString(a.request.id.n);
      var q := IntToString(b.request.id.n);
      DecimalTextHasNoDash(a.request.id.n);
      DecimalTextHasNoDash(b.request.id.n);
      var k := NotificationKey(a);
      assert NotificationKey(b) == k;
      assert forall j :: 1 <= j < |p| ==> k[j] == p[j] && k[j] != '-';
      assert forall j :: 1 <= j < |q| ==> k[j] == q[j] && k[j] != '-';
      assert k[|p|] == '-' && k[|q|] == '-';
      assert |p| == |q|;
      assert p == k[..|p|] == q;
      IntToStringInjective(a.request.id.n, b.request.id.n);
      NewOfferedAtIsNewKey(a, b);
    }
  }

  /** Apart from a leading minus sign, the decimal text of an integer holds only digits. */
  lemma DecimalTextHasNoDash(i: int)
    ensures forall k :: 1 <= k < |IntToString(i)| ==> IsDigit(IntToString(i)[k])
  {
    if i < 0 {
      assert forall k :: 1 <= k < |IntToString(i)| ==> IntToString(i)[k] == NatToString(-i)[k - 1];
    }
  }

  /** A notification key always holds a '-' after the id text, so it is never the word "none". */
  lemma NotificationKeyIsNotNone(o: Offer)
    ensures NotificationKey(o) != "none"
  {
    var k := NotificationKey(o);
    assert k[|IdText(o.request.id)|] == '-';
  }
}
