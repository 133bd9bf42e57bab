/** The result branch of checkURL (index.js:44-72): which responses are used,
    how a decoded report is classified by its age, and when the caller's
    callback fires. The HTTP request itself, JSON decoding and the date
    library are outside the model: a response arrives already decoded and
    times are whole seconds. */
module Freshness {

  datatype Option<T> = None | Some(value: T)

  /** The largest age, in seconds, at which a report is still acted on. */
  const ALERT_INTERVAL: int := 120000000

  /** The status code that means success. */
  const SUCCESS_CODE: string := "999"

  /** A decoded response body `{code, time}`. `time` is the server's
      timestamp in seconds, or None when the date library cannot parse it. */
  datatype Body = Body(code: string, time: Option<int>)

  /** The retained report `info`: the body plus the local time at which it
      was decoded. */
  datatype Info = Info(code: string, time: Option<int>, localTime: int)

  /** What the HTTP client hands to checkURL's handler. */
  datatype Response = TransportError | Reply(statusCode: int, body: Body)

  /** Age of a report at local time `now`. An unparseable server time gives
      the date library's invalid duration, which is None here. */
  function Age(b: Body, now: int): (age: Option<int>)
    ensures age.Some? <==> b.time.Some?
    ensures age.Some? ==> b.time.value + age.value == now
  {
    match b.time
    case None => None
    case Some(t) => Some(now - t)
  }

  /** `diff <= ALERT_INTERVAL`; an invalid (NaN) age compares false. */
  function IsFresh(b: Body, now: int): (recent: bool)
    ensures recent <==> b.time.Some? && now - b.time.value <= ALERT_INTERVAL
    // a report stamped at or after the local time is always fresh
    ensures b.time.Some? && b.time.value >= now ==> recent
  {
    var age := Age(b, now);
    age.Some? && age.value <= ALERT_INTERVAL
  }

  datatype Verdict = Stale | Success | Failure

  /** The decision of index.js:59-67: stale reports are only logged; a fresh
      one succeeds exactly when its code is "999". */
  function Classify(b: Body, now: int): (v: Verdict)
    ensures v == Stale <==> !IsFresh(b, now)
    ensures v == Success <==> IsFresh(b, now) && b.code == SUCCESS_CODE
    ensures v == Failure <==> IsFresh(b, now) && b.code != SUCCESS_CODE
  {
    if IsFresh(b, now) then
      if b.code == SUCCESS_CODE then Success else Failure
    else
      Stale
  }

  /** Any two codes other than the success code are treated alike: there is
      no third outcome for an unknown code. */
  lemma OtherCodesAlike(b1: Body, b2: Body, now: int)
    requires b1.time == b2.time
    requires b1.code != SUCCESS_CODE && b2.code != SUCCESS_CODE
    ensures Classify(b1, now) == Classify(b2, now)
  {
  }

  /** Freshness only decays: a report fresh at `later` was fresh at every
      earlier local time, and a stale one stays stale. */
  lemma FreshnessDecays(b: Body, earlier: int, later: int)
    requires earlier <= later
    ensures IsFresh(b, later) ==> IsFresh(b, earlier)
    ensures Classify(b, earlier) == Stale ==> Classify(b, later) == Stale
  {
  }

  /** What checkURL's handler does with a response. */
  datatype Handling =
    | Ignored                              // transport error or a status other than 200
    | Accepted(info: Info, verdict: Verdict)

  function Handle(resp: Response, now: int): (h: Handling)
    ensures h.Accepted? <==> resp.Reply? && resp.statusCode == 200
    ensures h.Accepted? ==>
      h.info.code == resp.body.code && h.info.time == resp.body.time && h.info.localTime == now &&
      h.verdict == Classify(resp.body, now)
  {
    if resp.Reply? && resp.statusCode == 200 then
      Accepted(Info(resp.body.code, resp.body.time, now), Classify(resp.body, now))
    else
      Ignored
  }
}
