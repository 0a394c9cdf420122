/**
 * The endpoint's per-address fixed-window rate limiter: at most
 * `RATE_MAX` admitted requests per address and window of `RATE_WINDOW_MS`
 * milliseconds. The limiter state is an explicit map and the clock reading
 * is a parameter.
 */
module RateLimit {
  import opened Wrappers
  import opened JsValue
  import Text

  const RATE_WINDOW_MS: int := 1000 * 60
  const RATE_MAX: int := 10

  /** The window an address is in: when it started and how many requests it admitted. */
  datatype Hit = Hit(windowStart: int, count: int)

  type Hits = map<string, Hit>

  /** Every window has admitted at least one and at most `RATE_MAX` requests. */
  predicate WellFormed(hits: Hits) {
    forall ip :: ip in hits ==> 1 <= hits[ip].count <= RATE_MAX
  }

  /**
   * `getIp`: the first entry of a non-empty `x-forwarded-for` header, trimmed;
   * otherwise the socket's remote address, or `'unknown'` when that is
   * missing or empty.
   */
  function ClientIp(forwardedFor: Value, remoteAddress: Option<string>): (ip: string)
    ensures forwardedFor.Str? && forwardedFor.s != [] ==> ip == Text.Trim(Text.FirstPiece(forwardedFor.s, ','))
    ensures forwardedFor.Str? && forwardedFor.s != [] && ',' !in forwardedFor.s ==> ip == Text.Trim(forwardedFor.s)
    ensures !(forwardedFor.Str? && forwardedFor.s != []) ==>
      ip == (if remoteAddress.Some? && remoteAddress.value != [] then remoteAddress.value else "unknown")
  {
    if forwardedFor.Str? && forwardedFor.s != [] then
      var first := Text.FirstPiece(forwardedFor.s, ',');
      assert ',' !in forwardedFor.s ==> first == forwardedFor.s;
      Text.Trim(first)
    else if remoteAddress.Some? && remoteAddress.value != [] then remoteAddress.value
    else "unknown"
  }

  /** The limiter's answer and its next state. */
  datatype Admission = Admission(ok: bool, hits: Hits)

  /**
   * `rateLimitOk` at time `t`: a missing or expired window (strictly more
   * than `RATE_WINDOW_MS` old) restarts at `t` with one request; a full
   * window denies without changing anything; otherwise the count grows.
   */
  function Admit(hits: Hits, ip: string, t: int): (a: Admission)
    ensures ip in a.hits
    ensures forall k :: k != ip ==> (k in a.hits <==> k in hits) && (k in hits ==> a.hits[k] == hits[k])
    ensures (ip !in hits || t - hits[ip].windowStart > RATE_WINDOW_MS) ==> a.ok && a.hits[ip] == Hit(t, 1)
    ensures ip in hits && t - hits[ip].windowStart <= RATE_WINDOW_MS ==>
      && a.hits[ip].windowStart == hits[ip].windowStart
      && (a.ok <==> hits[ip].count < RATE_MAX)
      && a.hits[ip].count == (if a.ok then hits[ip].count + 1 else hits[ip].count)
    ensures !a.ok ==> a.hits == hits
    ensures WellFormed(hits) ==> WellFormed(a.hits)
  {
    if ip !in hits || t - hits[ip].windowStart > RATE_WINDOW_MS then
      Admission(true, hits[ip := Hit(t, 1)])
    else if hits[ip].count >= RATE_MAX then
      Admission(false, hits)
    else
      Admission(true, hits[ip := Hit(hits[ip].windowStart, hits[ip].count + 1)])
  }

  /** The state after requests from `ip` at the successive clock readings `times`. */
  function Run(hits: Hits, ip: string, times: seq<int>): Hits
    decreases |times|
  {
    if times == [] then hits else Run(Admit(hits, ip, times[0]).hits, ip, times[1..])
  }

  /** Whether each request of the run was admitted. */
  function Verdicts(hits: Hits, ip: string, times: seq<int>): (v: seq<bool>)
    ensures |v| == |times|
    decreases |times|
  {
    if times == [] then []
    else
      var a := Admit(hits, ip, times[0]);
      [a.ok] + Verdicts(a.hits, ip, times[1..])
  }

  /** How many requests of the run were admitted into the window that starts at `w`. */
  function AdmittedIn(hits: Hits, ip: string, times: seq<int>, w: int): nat
    decreases |times|
  {
    if times == [] then 0
    else
      var a := Admit(hits, ip, times[0]);
      (if a.ok && a.hits[ip].windowStart == w then 1 else 0) + AdmittedIn(a.hits, ip, times[1..], w)
  }

  /**
   * Whatever the clock does, no window admits more than `RATE_MAX`
   * requests from one address: a window that has started counts its
   * earlier requests too, and a window that has been replaced admits no more.
   */
  lemma {:induction false} AtMostRateMaxPerWindow(hits: Hits, ip: string, times: seq<int>, w: int)
    requires WellFormed(hits)
    ensures ip in hits && w < hits[ip].windowStart ==> AdmittedIn(hits, ip, times, w) == 0
    ensures ip in hits && w == hits[ip].windowStart ==> hits[ip].count + AdmittedIn(hits, ip, times, w) <= RATE_MAX
    ensures AdmittedIn(hits, ip, times, w) <= RATE_MAX
    decreases |times|
  {
    if times != [] {
      var a := Admit(hits, ip, times[0]);
      AtMostRateMaxPerWindow(a.hits, ip, times[1..], w);
    }
  }

  /**
   * From an address's first request at `t0`, while every later request comes
   * at most `RATE_WINDOW_MS` after `t0`, the first `RATE_MAX` requests are
   * admitted and every later one is denied.
   */
  lemma {:induction false} FirstTenAdmitted(hits: Hits, ip: string, times: seq<int>)
    requires ip !in hits && times != []
    requires forall i :: 0 <= i < |times| ==> 0 <= times[i] - times[0] <= RATE_WINDOW_MS
    ensures forall i :: 0 <= i < |times| ==> (Verdicts(hits, ip, times)[i] <==> i < RATE_MAX)
  {
    var a := Admit(hits, ip, times[0]);
    assert a.ok && a.hits[ip] == Hit(times[0], 1);
    FillWindow(a.hits, ip, times[0], times[1..], 1);
    var v := Verdicts(hits, ip, times);
    assert v == [true] + Verdicts(a.hits, ip, times[1..]);
    forall i | 0 <= i < |times|
      ensures v[i] <==> i < RATE_MAX
    {
      if i > 0 {
        assert v[i] == Verdicts(a.hits, ip, times[1..])[i - 1];
      }
    }
  }

  lemma {:induction false} FillWindow(hits: Hits, ip: string, w: int, times: seq<int>, n: int)
    requires ip in hits && hits[ip] == Hit(w, n) && 1 <= n <= RATE_MAX
    requires forall i :: 0 <= i < |times| ==> times[i] - w <= RATE_WINDOW_MS
    ensures forall i :: 0 <= i < |times| ==> (Verdicts(hits, ip, times)[i] <==> n + i < RATE_MAX)
    decreases |times|
  {
    if times != [] {
      var a := Admit(hits, ip, times[0]);
      var n' := if n < RATE_MAX then n + 1 else n;
      assert a.hits[ip] == Hit(w, n');
      FillWindow(a.hits, ip, w, times[1..], n');
      var v := Verdicts(hits, ip, times);
      assert v == [a.ok] + Verdicts(a.hits, ip, times[1..]);
      forall i | 0 <= i < |times|
        ensures v[i] <==> n + i < RATE_MAX
      {
        if i > 0 {
          assert v[i] == Verdicts(a.hits, ip, times[1..])[i - 1];
        }
      }
    }
  }
}
