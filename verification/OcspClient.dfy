/** OCSP responses and the client that fetches them: `certchain/ocsp_response.go` and
    `certchain/certmanager/ocsp_client.go`. Times and durations are in nanoseconds. */
module OcspClient {
  import opened Text

  type Time = int

  const HOUR: int := 3_600_000_000_000
  const DAY: int := 24 * HOUR
  const MAX_INT64: int := 0x7fff_ffff_ffff_ffff
  const MIN_INT64: int := -0x8000_0000_0000_0000
  const MAX_RESPONSE_DURATION: int := 7 * DAY

  /** `time.Time.Sub`: the difference saturates at the range of a 64-bit duration. */
  function Sub(a: Time, b: Time): int {
    if a - b > MAX_INT64 then MAX_INT64 else if a - b < MIN_INT64 then MIN_INT64 else a - b
  }

  datatype RawChain = RawChain(digest: string, serial: int, ocspServer: string, certs: nat)

  datatype Status = Good | Revoked | Unknown

  datatype Response =
    | Dummy
    | Response(serial: int, status: Status, thisUpdate: Time, nextUpdate: Time, raw: nat)

  /** `certchain.AugmentedChain`. */
  datatype AugChain = AugChain(chain: RawChain, ocsp: Response)

  /** `ocsp.ParseResponseForCert`: parses the bytes and checks the signature for the chain. */
  type Parser = (nat, RawChain) -> Option<Response>

  datatype Problem = DummyResponse | SerialMismatch | BadSignature | Corrupted | InFuture | InPast | BadStatus | TooLong

  /** What it takes to pass `VerifyForRawChain`. */
  predicate ValidFor(parse: Parser, r: Response, t: Time, c: RawChain) {
    && r.Response? && r.serial == c.serial && parse(r.raw, c).Some?
    && r.thisUpdate < r.nextUpdate && r.thisUpdate <= t <= r.nextUpdate
  }

  /** What it takes to pass `VerifySXGCriteria`. */
  predicate MeetsCriteria(r: Response) {
    r.Response? && r.status == Good && r.nextUpdate - r.thisUpdate <= MAX_RESPONSE_DURATION
  }

  function VerifyWithRawChain(parse: Parser, r: Response, c: RawChain): seq<Problem>
    requires r.Response?
  {
    if r.serial != c.serial then [SerialMismatch]
    else if parse(r.raw, c).None? then [BadSignature]
    else []
  }

  function VerifyWithTime(r: Response, t: Time): seq<Problem>
    requires r.Response?
  {
    if !(r.thisUpdate < r.nextUpdate) then [Corrupted]
    else if t < r.thisUpdate then [InFuture]
    else if t > r.nextUpdate then [InPast]
    else []
  }

  /** Reports at most one problem with the chain and then at most one with the time; reports
      nothing exactly when the response is valid for the chain at `t`. */
  method VerifyForRawChain(parse: Parser, r: Response, t: Time, c: RawChain) returns (errs: seq<Problem>)
    ensures errs == [] <==> ValidFor(parse, r, t, c)
    ensures DummyResponse in errs <==> r.Dummy?
    ensures r.Response? ==> (SerialMismatch in errs <==> r.serial != c.serial)
    ensures r.Response? ==> (BadSignature in errs <==> r.serial == c.serial && parse(r.raw, c).None?)
    ensures r.Response? ==> (Corrupted in errs <==> r.thisUpdate >= r.nextUpdate)
    ensures r.Response? ==> (InFuture in errs <==> r.thisUpdate < r.nextUpdate && t < r.thisUpdate)
    ensures r.Response? ==> (InPast in errs <==> r.thisUpdate < r.nextUpdate < t)
    ensures |errs| <= 2
  {
    if r.Dummy? {
      return [DummyResponse];
    }
    errs := [];
    errs := errs + VerifyWithRawChain(parse, r, c);
    errs := errs + VerifyWithTime(r, t);
  }

  /** The saturating `Sub` does not let a too long interval through. */
  method VerifySXGCriteria(r: Response) returns (errs: seq<Problem>)
    ensures errs == [] <==> MeetsCriteria(r)
    ensures r.Response? ==> (BadStatus in errs <==> r.status != Good)
    ensures r.Response? ==> (TooLong in errs <==> r.nextUpdate - r.thisUpdate > MAX_RESPONSE_DURATION)
  {
    if r.Dummy? {
      return [DummyResponse];
    }
    errs := [];
    if r.status != Good {
      errs := errs + [BadStatus];
    }
    if Sub(r.nextUpdate, r.thisUpdate) > MAX_RESPONSE_DURATION {
      errs := errs + [TooLong];
    }
  }

  // ---- Fetch ----

  /** `wait` is the retry policy: the wait of an attempt, which may depend on a random draw. */
  datatype Config = Config(allowTestCert: bool, parse: Parser, wait: (nat, nat) -> int)

  /** The answer of the responder: its bytes and the cache expiry of the HTTP response. */
  datatype HttpAnswer = HttpFailed | HttpOk(raw: nat, expiry: Time)

  datatype Schedule = Never | At(time: Time)

  /** When the next fetch is due after an accepted response. */
  function NextRun(r: Response, expiry: Time): Time
    requires r.Response?
  {
    var midpoint := r.thisUpdate + Sub(r.nextUpdate, r.thisUpdate) / 2;
    if r.thisUpdate < expiry < midpoint then expiry else midpoint
  }

  /** The responses `Fetch` may return for a chain at a time. */
  predicate Accepts(cfg: Config, c: RawChain, r: Response, t: Time) {
    if cfg.allowTestCert && c.ocspServer == "" then r.Dummy?
    else ValidFor(cfg.parse, r, t, c) && MeetsCriteria(r)
  }

  /** The result of `Fetch`, when the next one is due, and the retry policy's counter after it. */
  function FetchResult(cfg: Config, c: RawChain, attempt: nat, draw: nat, http: HttpAnswer, now: Time)
    : (Option<Response>, Schedule, nat)
  {
    var r := if http.HttpOk? then cfg.parse(http.raw, c) else None;
    if cfg.allowTestCert && c.ocspServer == "" then (Some(Dummy), Never, attempt + 1)
    else if r.Some? && Accepts(cfg, c, r.value, now) then (r, At(NextRun(r.value, http.expiry)), 0)
    else (None, At(now + cfg.wait(attempt, draw)), attempt + 1)
  }

  class OCSPClient {
    const cfg: Config
    var attempt: nat  // the retry policy's counter

    constructor (cfg: Config)
      ensures this.cfg == cfg && attempt == 0
    {
      this.cfg, attempt := cfg, 0;
    }

    /** Returns a response exactly when the responder gave an acceptable one; a failure is retried
        after the wait of the current attempt, and a verified response resets the attempts. */
    method Fetch(c: RawChain, draw: nat, http: HttpAnswer, now: Time)
      returns (resp: Option<Response>, next: Schedule)
      modifies this
      ensures resp.Some? ==> Accepts(cfg, c, resp.value, now)
      ensures resp.None? <==> (!(cfg.allowTestCert && c.ocspServer == "") &&
        (http.HttpFailed? || cfg.parse(http.raw, c).None? || !Accepts(cfg, c, cfg.parse(http.raw, c).value, now)))
      ensures (resp, next, attempt) == FetchResult(cfg, c, old(attempt), draw, http, now)
      ensures resp.None? ==> next == At(now + cfg.wait(old(attempt), draw)) && attempt == old(attempt) + 1
      ensures resp == Some(Dummy) ==> next == Never && attempt == old(attempt) + 1
      ensures resp.Some? && resp.value.Response? ==>
        http.HttpOk? && cfg.parse(http.raw, c) == resp && next == At(NextRun(resp.value, http.expiry)) && attempt == 0
    {
      var retryWait := cfg.wait(attempt, draw);
      attempt := attempt + 1;
      if cfg.allowTestCert && c.ocspServer == "" {
        return Some(Dummy), Never;
      }
      if http.HttpFailed? {
        return None, At(now + retryWait);
      }
      var r := cfg.parse(http.raw, c);
      if r.None? {
        return None, At(now + retryWait);
      }
      var errs := VerifyForRawChain(cfg.parse, r.value, now, c);
      if errs != [] {
        return None, At(now + retryWait);
      }
      errs := VerifySXGCriteria(r.value);
      if errs != [] {
        return None, At(now + retryWait);
      }
      attempt := 0;
      return r, At(NextRun(r.value, http.expiry));
    }
  }

  /** What acceptance at `t` guarantees about the update period. */
  predicate Fresh(r: Response, t: Time) {
    && r.Response? && r.thisUpdate < r.nextUpdate && r.thisUpdate <= t <= r.nextUpdate
    && r.nextUpdate - r.thisUpdate <= MAX_RESPONSE_DURATION
  }

  /** The next fetch falls in the first half of the update period, never at or after its end, no
      later than three and a half days after its start, and no duration overflows. */
  lemma NextRunWindow(r: Response, expiry: Time, t: Time)
    requires Fresh(r, t)
    ensures r.thisUpdate <= NextRun(r, expiry) < r.nextUpdate
    ensures 2 * (NextRun(r, expiry) - r.thisUpdate) <= r.nextUpdate - r.thisUpdate <= 7 * DAY
    ensures Sub(r.nextUpdate, r.thisUpdate) == r.nextUpdate - r.thisUpdate
    ensures var period := r.nextUpdate - r.thisUpdate;
      NextRun(r, expiry) == if r.thisUpdate < expiry && 2 * (expiry - r.thisUpdate) + 1 < period then expiry
        else r.thisUpdate + period / 2
  {
  }
}
