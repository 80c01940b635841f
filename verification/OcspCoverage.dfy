/** Runs of the OCSP client: when the response it holds outlives the next one, with the retry
    policy's own waits. */
module OcspCoverage {
  import opened Text
  import opened OcspClient

  /** What the responder answers to a fetch, how long that takes, and what the retry policy draws. */
  datatype Answer = Answer(latency: int, draw: nat, http: HttpAnswer)

  /** The retry policy's counter, the response held, and when the next fetch fires. */
  datatype Client = Client(attempt: nat, held: Response, fire: Time)

  /** A certificate with a responder, and a retry policy that waits forward in time. */
  ghost predicate Polled(cfg: Config, c: RawChain) {
    !(cfg.allowTestCert && c.ocspServer == "") && forall n, draw :: cfg.wait(n, draw) >= 0
  }

  function Max(a: int, b: int): int { if a < b then b else a }

  function Result(cfg: Config, c: RawChain, cl: Client, a: Answer): (Option<Response>, Schedule, nat) {
    FetchResult(cfg, c, cl.attempt, a.draw, a.http, cl.fire + a.latency)
  }

  /** One fetch. The next one fires when it is due, or at once if that moment has passed. */
  function Poll(cfg: Config, c: RawChain, cl: Client, a: Answer): Client {
    var (resp, next, attempt) := Result(cfg, c, cl, a);
    var done := cl.fire + a.latency;
    Client(attempt, if resp.Some? then resp.value else cl.held, if next.At? then Max(done, next.time) else done)
  }

  predicate Fails(cfg: Config, c: RawChain, cl: Client, a: Answer) { Result(cfg, c, cl, a).0.None? }

  function After(cfg: Config, c: RawChain, cl: Client, answers: seq<Answer>): Client
    decreases |answers|
  {
    if answers == [] then cl else After(cfg, c, Poll(cfg, c, cl, answers[0]), answers[1..])
  }

  lemma {:induction false} AfterConcat(cfg: Config, c: RawChain, cl: Client, a: seq<Answer>, b: seq<Answer>)
    ensures After(cfg, c, cl, a + b) == After(cfg, c, After(cfg, c, cl, a), b)
    decreases |a|
  {
    if a == [] {
      assert a + b == b;
    } else {
      assert (a + b)[1..] == a[1..] + b;
      AfterConcat(cfg, c, Poll(cfg, c, cl, a[0]), a[1..], b);
    }
  }

  /** The client before the `i`-th fetch of the run. */
  function Before(cfg: Config, c: RawChain, cl: Client, answers: seq<Answer>, i: nat): Client
    requires i <= |answers|
  {
    After(cfg, c, cl, answers[..i])
  }

  lemma {:induction false} BeforeNext(cfg: Config, c: RawChain, cl: Client, answers: seq<Answer>, i: nat)
    requires i < |answers|
    ensures Before(cfg, c, cl, answers, i + 1) == Poll(cfg, c, Before(cfg, c, cl, answers, i), answers[i])
  {
    assert answers[..i + 1] == answers[..i] + [answers[i]];
    AfterConcat(cfg, c, cl, answers[..i], [answers[i]]);
  }

  /** A fetch fires only after the earlier ones are done. */
  lemma {:induction false} InOrder(cfg: Config, c: RawChain, cl: Client, answers: seq<Answer>, i: nat, j: nat)
    requires i < j <= |answers| && forall k :: 0 <= k < |answers| ==> answers[k].latency >= 0
    ensures Before(cfg, c, cl, answers, i).fire + answers[i].latency <= Before(cfg, c, cl, answers, j).fire
    decreases j - i
  {
    BeforeNext(cfg, c, cl, answers, i);
    if i + 1 < j { InOrder(cfg, c, cl, answers, i + 1, j); }
  }

  /** No fetch completes after the nextUpdate of the response held until then. */
  ghost predicate Covered(cfg: Config, c: RawChain, cl: Client, answers: seq<Answer>) {
    forall i :: 0 <= i < |answers| ==> InTime(Before(cfg, c, cl, answers, i), answers[i])
  }

  predicate InTime(cl: Client, a: Answer) { cl.held.Response? && cl.fire + a.latency <= cl.held.nextUpdate }

  // ---- Outages ----

  /** How much later the fetch after these failed ones fires. */
  function Delay(cfg: Config, attempt: nat, answers: seq<Answer>): int
    decreases |answers|
  {
    if answers == [] then 0
    else answers[0].latency + cfg.wait(attempt, answers[0].draw) + Delay(cfg, attempt + 1, answers[1..])
  }

  /** The fetches from the `i`-th on fail `k` times in a row. */
  ghost predicate FailsFrom(cfg: Config, c: RawChain, cl: Client, answers: seq<Answer>, i: nat, k: nat) {
    i + k <= |answers| &&
    forall j :: i <= j < i + k ==> Fails(cfg, c, Before(cfg, c, cl, answers, j), answers[j])
  }

  /** An outage keeps the response and adds up the policy's waits. */
  lemma {:induction false} OutageTiming(
      cfg: Config, c: RawChain, cl: Client, answers: seq<Answer>, i: nat, k: nat)
    requires Polled(cfg, c) && FailsFrom(cfg, c, cl, answers, i, k)
    ensures var b := Before(cfg, c, cl, answers, i);
      Before(cfg, c, cl, answers, i + k) ==
        Client(b.attempt + k, b.held, b.fire + Delay(cfg, b.attempt, answers[i..i + k]))
    decreases k
  {
    if k > 0 {
      var m := i + k - 1;
      var b := Before(cfg, c, cl, answers, i);
      OutageTiming(cfg, c, cl, answers, i, k - 1);
      BeforeNext(cfg, c, cl, answers, m);
      assert Fails(cfg, c, Before(cfg, c, cl, answers, m), answers[m]);
      assert answers[i..i + k] == answers[i..m] + [answers[m]];
      DelaySnoc(cfg, b.attempt, answers[i..m], answers[m]);
      assert cfg.wait(b.attempt + k - 1, answers[m].draw) >= 0;
    }
  }

  lemma {:induction false} DelaySnoc(cfg: Config, attempt: nat, answers: seq<Answer>, a: Answer)
    ensures Delay(cfg, attempt, answers + [a])
         == Delay(cfg, attempt, answers) + a.latency + cfg.wait(attempt + |answers|, a.draw)
    decreases |answers|
  {
    if answers == [] {
      assert [] + [a] == [a] && [a][1..] == [];
    } else {
      assert (answers + [a])[1..] == answers[1..] + [a];
      DelaySnoc(cfg, attempt + 1, answers[1..], a);
    }
  }

  /** The response held before the `i`-th fetch is the first one or came with the fetch before. */
  ghost predicate NewAt(cfg: Config, c: RawChain, cl: Client, answers: seq<Answer>, i: nat) {
    i <= |answers| && (i == 0 || !Fails(cfg, c, Before(cfg, c, cl, answers, i - 1), answers[i - 1]))
  }

  /** From when the response was new, `k` fetches in a row fail and one more follows. */
  ghost predicate Outage(cfg: Config, c: RawChain, cl: Client, answers: seq<Answer>, i: nat, k: nat) {
    i + k < |answers| && NewAt(cfg, c, cl, answers, i) && FailsFrom(cfg, c, cl, answers, i, k)
  }

  /** The fetch after the outage is still in time. */
  ghost predicate OutlastsOutage(cfg: Config, c: RawChain, cl: Client, answers: seq<Answer>, i: nat, k: nat)
    requires i + k < |answers|
  {
    var b := Before(cfg, c, cl, answers, i);
    b.held.Response? &&
    b.fire + Delay(cfg, b.attempt, answers[i..i + k]) + answers[i + k].latency <= b.held.nextUpdate
  }

  /** Where the response held before the `m`-th fetch was new. */
  lemma {:induction false} OutageStart(cfg: Config, c: RawChain, cl: Client, answers: seq<Answer>, m: nat)
    returns (i: nat)
    requires m <= |answers|
    ensures i <= m && NewAt(cfg, c, cl, answers, i) && FailsFrom(cfg, c, cl, answers, i, m - i)
    decreases m
  {
    if m == 0 || !Fails(cfg, c, Before(cfg, c, cl, answers, m - 1), answers[m - 1]) {
      i := m;
    } else {
      i := OutageStart(cfg, c, cl, answers, m - 1);
    }
  }

  /** The held response never expires exactly when it outlasts every outage that has a further
      fetch: its fire time plus the latencies and the policy's waits stay within nextUpdate. */
  lemma {:induction false} CoverageExact(cfg: Config, c: RawChain, cl: Client, answers: seq<Answer>)
    requires Polled(cfg, c)
    ensures Covered(cfg, c, cl, answers) <==>
      forall i: nat, k: nat :: Outage(cfg, c, cl, answers, i, k) ==> OutlastsOutage(cfg, c, cl, answers, i, k)
  {
    forall i: nat, k: nat | i + k < |answers| && FailsFrom(cfg, c, cl, answers, i, k)
      ensures OutlastsOutage(cfg, c, cl, answers, i, k)
         <==> InTime(Before(cfg, c, cl, answers, i + k), answers[i + k])
    {
      OutageTiming(cfg, c, cl, answers, i, k);
    }
    if forall i: nat, k: nat :: Outage(cfg, c, cl, answers, i, k) ==> OutlastsOutage(cfg, c, cl, answers, i, k) {
      forall m | 0 <= m < |answers| ensures InTime(Before(cfg, c, cl, answers, m), answers[m]) {
        var i := OutageStart(cfg, c, cl, answers, m);
        assert Outage(cfg, c, cl, answers, i, m - i) && OutlastsOutage(cfg, c, cl, answers, i, m - i);
      }
    }
  }

  // ---- Corollaries ----

  /** The waits drawn for the retries after these failed fetches. */
  function Backoff(cfg: Config, failed: seq<Answer>): int
    decreases |failed|
  {
    if failed == [] then 0
    else Backoff(cfg, failed[..|failed| - 1]) + cfg.wait(|failed| - 1, failed[|failed| - 1].draw)
  }

  ghost predicate Instant(answers: seq<Answer>) { forall i :: 0 <= i < |answers| ==> answers[i].latency == 0 }

  lemma {:induction false} InstantDelay(cfg: Config, answers: seq<Answer>)
    requires Instant(answers)
    ensures Delay(cfg, 0, answers) == Backoff(cfg, answers)
    decreases |answers|
  {
    if answers != [] {
      var n := |answers| - 1;
      InstantDelay(cfg, answers[..n]);
      DelaySnoc(cfg, 0, answers[..n], answers[n]);
      assert answers == answers[..n] + [answers[n]];
    }
  }

  /** A client that just took over the first response. */
  predicate JustFetched(cl: Client, expiry: Time, t: Time) {
    cl.attempt == 0 && Fresh(cl.held, t) && cl.fire == Max(t, NextRun(cl.held, expiry))
  }

  /** Right after a success the counter is reset and the next fetch is due before nextUpdate. */
  lemma {:induction false} NewIsEarly(
      cfg: Config, c: RawChain, cl: Client, expiry: Time, t: Time, answers: seq<Answer>, i: nat)
    requires Polled(cfg, c) && JustFetched(cl, expiry, t) && NewAt(cfg, c, cl, answers, i)
    ensures var b := Before(cfg, c, cl, answers, i);
      b.attempt == 0 && b.held.Response? && b.fire <= b.held.nextUpdate
  {
    if i == 0 {
      NextRunWindow(cl.held, expiry, t);
    } else {
      BeforeNext(cfg, c, cl, answers, i - 1);
      var p, a := Before(cfg, c, cl, answers, i - 1), answers[i - 1];
      var r := Result(cfg, c, p, a).0.value;
      NextRunWindow(r, a.http.expiry, p.fire + a.latency);
    }
  }

  /** With instant fetches it comes down to the back-off alone: after every success, the waits of
      each following outage that has a further fetch must fit before nextUpdate. */
  lemma {:induction false} InstantCoverageExact(
      cfg: Config, c: RawChain, cl: Client, expiry: Time, t: Time, answers: seq<Answer>)
    requires Polled(cfg, c) && JustFetched(cl, expiry, t) && Instant(answers)
    ensures Covered(cfg, c, cl, answers) <==>
      forall i: nat, k: nat :: Outage(cfg, c, cl, answers, i, k) ==>
        k == 0 || Fits(cfg, Before(cfg, c, cl, answers, i), answers[i..i + k])
  {
    CoverageExact(cfg, c, cl, answers);
    forall i: nat, k: nat | Outage(cfg, c, cl, answers, i, k)
      ensures OutlastsOutage(cfg, c, cl, answers, i, k) 
         <==> k == 0 || Fits(cfg, Before(cfg, c, cl, answers, i), answers[i..i + k])
    {
      NewIsEarly(cfg, c, cl, expiry, t, answers, i);
      InstantDelay(cfg, answers[i..i + k]);
    }
  }

  /** The waits of the retries fit before nextUpdate. */
  predicate Fits(cfg: Config, cl: Client, failed: seq<Answer>) {
    cl.held.Response? && cl.fire + Backoff(cfg, failed) <= cl.held.nextUpdate
  }

  /** If every fetch succeeds at once, the response never expires. */
  lemma {:induction false} CoveredWhenAllSucceed(
      cfg: Config, c: RawChain, cl: Client, expiry: Time, t: Time, answers: seq<Answer>)
    requires Polled(cfg, c) && JustFetched(cl, expiry, t) && Instant(answers)
    requires forall j :: 0 <= j < |answers| ==> !Fails(cfg, c, Before(cfg, c, cl, answers, j), answers[j])
    ensures Covered(cfg, c, cl, answers)
  {
    InstantCoverageExact(cfg, c, cl, expiry, t, answers);
    forall i: nat, k: nat | 1 <= k && i + k < |answers|
      ensures !Outage(cfg, c, cl, answers, i, k)
    {
      assert !Fails(cfg, c, Before(cfg, c, cl, answers, i), answers[i]);
    }
  }

  /** The longest waits of the first `k` retries, when `cap` bounds the wait of each attempt. */
  function Longest(cap: nat -> int, k: nat): int { if k == 0 then 0 else Longest(cap, k - 1) + cap(k - 1) }

  ghost predicate Capped(cfg: Config, cap: nat -> int) { forall n, draw :: 0 <= cfg.wait(n, draw) <= cap(n) }

  lemma {:induction false} DelayBound(cfg: Config, cap: nat -> int, answers: seq<Answer>, lag: int)
    requires Capped(cfg, cap) && forall i :: 0 <= i < |answers| ==> answers[i].latency <= lag
    ensures Delay(cfg, 0, answers) <= Longest(cap, |answers|) + |answers| * lag
    decreases |answers|
  {
    if answers != [] {
      var n := |answers| - 1;
      DelayBound(cfg, cap, answers[..n], lag);
      DelaySnoc(cfg, 0, answers[..n], answers[n]);
      assert answers == answers[..n] + [answers[n]];
      assert cfg.wait(n, answers[n].draw) <= cap(n);
      assert |answers| * lag == n * lag + lag;
    }
  }

  lemma {:induction false} LongestGrows(cfg: Config, cap: nat -> int, k: nat, n: nat)
    requires k <= n && Capped(cfg, cap)
    ensures Longest(cap, k) <= Longest(cap, n)
    decreases n
  {
    if k < n {
      LongestGrows(cfg, cap, k, n - 1);
      assert 0 <= cfg.wait(n - 1, 0) <= cap(n - 1);
    }
  }

  /** Room for the longest `n` retries and the fetches around them. */
  predicate Roomy(cap: nat -> int, cl: Client, n: nat, lag: nat) {
    cl.held.Response? && cl.fire + Longest(cap, n) + (n + 1) * lag <= cl.held.nextUpdate
  }

  /** What a policy is good for, whatever it draws: if fetches take at most `lag` and each response
      leaves room for `n` retries, no outage of at most `n` failures lets it expire. */
  lemma {:induction false} PolicyCovers(
      cfg: Config, cap: nat -> int, c: RawChain, cl: Client, expiry: Time, t: Time, answers: seq<Answer>,
      n: nat, lag: nat)
    requires Polled(cfg, c) && JustFetched(cl, expiry, t) && Capped(cfg, cap)
    requires forall i :: 0 <= i < |answers| ==> answers[i].latency <= lag
    requires forall i: nat, k: nat :: Outage(cfg, c, cl, answers, i, k) ==>
      k <= n && Roomy(cap, Before(cfg, c, cl, answers, i), n, lag)
    ensures Covered(cfg, c, cl, answers)
  {
    CoverageExact(cfg, c, cl, answers);
    forall i: nat, k: nat | Outage(cfg, c, cl, answers, i, k)
      ensures OutlastsOutage(cfg, c, cl, answers, i, k)
    {
      NewIsEarly(cfg, c, cl, expiry, t, answers, i);
      RoomOutlasts(cfg, cap, Before(cfg, c, cl, answers, i), answers[i..i + k], answers[i + k].latency, n, lag);
    }
  }

  lemma {:induction false} RoomOutlasts(
      cfg: Config, cap: nat -> int, b: Client, failed: seq<Answer>, last: int, n: nat, lag: nat)
    requires Roomy(cap, b, n, lag) && |failed| <= n && last <= lag && Capped(cfg, cap)
    requires forall i :: 0 <= i < |failed| ==> failed[i].latency <= lag
    ensures b.fire + Delay(cfg, 0, failed) + last <= b.held.nextUpdate
  {
    DelayBound(cfg, cap, failed, lag);
    LongestGrows(cfg, cap, |failed|, n);
    Lags(|failed|, n, lag);
  }

  lemma {:induction false} Lags(k: nat, n: nat, lag: nat)
    requires k <= n
    ensures k * lag + lag <= (n + 1) * lag
  {
    assert (n - k) * lag >= 0;
    assert (n + 1) * lag == k * lag + lag + (n - k) * lag;
  }

  // ---- An outage that is too long ----

  /** A response for one hour, fetched as it was issued; the fetch at its half-time fails, and the
      policy waits one hour for the next. */
  lemma {:induction false} ExpiryExample(cfg: Config, c: RawChain)
    requires Polled(cfg, c) && cfg.wait(0, 0) == HOUR
    ensures var cl := Client(0, Response(0, Good, 0, HOUR, 0), HOUR / 2);
      var answers := [Answer(0, 0, HttpFailed), Answer(0, 0, HttpFailed)];
      JustFetched(cl, 0, 0) && !Covered(cfg, c, cl, answers)
  {
    var cl := Client(0, Response(0, Good, 0, HOUR, 0), HOUR / 2);
    var answers := [Answer(0, 0, HttpFailed), Answer(0, 0, HttpFailed)];
    assert Before(cfg, c, cl, answers, 0) == cl;
    BeforeNext(cfg, c, cl, answers, 0);
    assert !InTime(Before(cfg, c, cl, answers, 1), answers[1]);
  }
}
