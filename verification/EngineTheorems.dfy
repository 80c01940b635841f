/** What holds of a whole packaging run, on every finite web and from every consistent cache. */
module EngineTheorems {
  import opened Text
  import opened Packaging
  import opened Engine

  // ---- Vocabulary ----

  predicate Verified(env: Env, r: Res) {
    r.exchange.Some? && env.verify(r.exchange.value)
  }

  /** The cache holds a verified entry for the URL: nothing replaces it during the run. */
  predicate Settled(env: Env, c: map<Url, Res>, u: Url) {
    u in c && Verified(env, c[u])
  }

  /** Exchange and integrity go together; a redirected resource has neither. */
  predicate Shaped(env: Env, r: Res) {
    && (r.exchange.None? ==> r.integrity == "")
    && (r.exchange.Some? ==>
         env.hash(r.exchange.value).Some? && r.integrity == "sha256-" + env.hash(r.exchange.value).value)
    && (r.redirectURL.Some? ==> r == NewResource(r.requestURL).(redirectURL := r.redirectURL))
  }

  ghost predicate CacheOk(env: Env, c: map<Url, Res>) {
    forall u :: u in c ==> c[u].requestURL == u && c[u].exchange.Some? && Shaped(env, c[u])
  }

  /** An advertised integrity is that of the settled cache entry. */
  predicate LineCoherent(env: Env, c: map<Url, Res>, l: LinkLine) {
    l.AllowedAlt? ==> Settled(env, c, l.url) && c[l.url].integrity == l.integrity
  }

  ghost predicate Coherent(env: Env, c: map<Url, Res>, links: seq<LinkLine>) {
    forall i :: 0 <= i < |links| ==> LineCoherent(env, c, links[i])
  }

  predicate Settles(ev: Event, u: Url) {
    ev == Reused(u) || (ev.Stored? && ev.url == u)
  }

  predicate Replaces(ev: Event, u: Url) {
    ev == Fetched(u) || (ev.Stored? && ev.url == u)
  }

  /** What one event of the log says about the cache. */
  ghost predicate EventOk(env: Env, c: map<Url, Res>, ev: Event) {
    && (ev.Reused? ==> Settled(env, c, ev.url))
    && (ev.Stored? ==> Settled(env, c, ev.url) && c[ev.url].exchange == Some(ev.exchange)
                       && Coherent(env, c, ev.exchange.links)
                       && (Announces(env) ==> Announced(ev.exchange.links)))
  }

  /** Every preload asks for the URL of its own link, and non-SXG preloads are dropped. */
  ghost predicate Announces(env: Env) {
    !env.keepNonSXG && forall body :: env.process(body).Some? ==> OwnTargets(env.process(body).value)
  }

  ghost predicate OwnTargets(specs: seq<PreloadSpec>) {
    forall i, j :: 0 <= i < |specs| && 0 <= j < |specs[i].targets| ==> specs[i].targets[j] == specs[i].link.url
  }

  ghost predicate LogOk(env: Env, c: map<Url, Res>, log: seq<Event>) {
    forall i :: 0 <= i < |log| ==> EventOk(env, c, log[i])
  }

  /** Once a URL is stored or reused it is neither fetched nor stored again. */
  ghost predicate StoreOnce(log: seq<Event>) {
    forall i, j, u :: 0 <= i < j < |log| && Settles(log[i], u) ==> !Replaces(log[j], u)
  }

  /** The errors of the failed calls of `run`, in the order the calls ended. */
  function ErrorsOf(log: seq<Event>): seq<TaskError>
    decreases |log|
  {
    if log == [] then []
    else
      var ev := log[|log| - 1];
      ErrorsOf(log[..|log| - 1]) +
      (if ev.Ran? && ev.error.Some? then [TaskError(ev.url, ev.error.value)] else [])
  }

  ghost predicate Inv(env: Env, s: State) {
    && CacheOk(env, s.cache)
    && LogOk(env, s.cache, s.log)
    && StoreOnce(s.log)
    && s.errs == ErrorsOf(s.log)
  }

  /** How the cache may change while the URLs in `active` are being packaged. */
  ghost predicate CacheGrows(env: Env, active: set<Url>, c: map<Url, Res>, d: map<Url, Res>) {
    && (forall u :: Settled(env, c, u) ==> u in d && d[u] == c[u])
    && (forall u :: u in active ==> (u in d <==> u in c) && (u in c ==> d[u] == c[u]))
  }

  /** New calls of `run` on a URL that is being packaged all fail with a reference loop. */
  ghost predicate LoopsOnly(active: set<Url>, l: seq<Event>, m: seq<Event>) {
    l <= m && forall i :: |l| <= i < |m| && m[i].Ran? && m[i].url in active ==> m[i].error == Some(ReferenceLoop)
  }

  /** New calls of `run` are on URLs that some page preloads. */
  ghost predicate RanIn(env: Env, l: seq<Event>, m: seq<Event>) {
    forall i :: |l| <= i < |m| && m[i].Ran? ==> m[i].url in env.targets
  }

  /** No new event fetches or stores a URL that was settled. */
  ghost predicate Untouched(env: Env, c: map<Url, Res>, l: seq<Event>, m: seq<Event>) {
    forall i, u :: |l| <= i < |m| && Settled(env, c, u) ==> !Replaces(m[i], u)
  }

  ghost predicate Grows(env: Env, s: State, t: State) {
    t.active == s.active && s.errs <= t.errs && LoopsOnly(s.active, s.log, t.log)
    && Untouched(env, s.cache, s.log, t.log) && CacheGrows(env, s.active, s.cache, t.cache)
  }

  /** A packaged resource is the settled cache entry of its URL. */
  predicate Packaged(env: Env, c: map<Url, Res>, r: Res) {
    r.integrity != "" ==> Settled(env, c, r.requestURL) && c[r.requestURL] == r
  }

  ghost predicate AllPackaged(env: Env, c: map<Url, Res>, rs: seq<Res>) {
    forall i :: 0 <= i < |rs| ==> Packaged(env, c, rs[i]) && Shaped(env, rs[i])
  }

  // ---- Steps ----

  lemma {:induction false} GrowsTrans(env: Env, s: State, t: State, v: State)
    requires Grows(env, s, t) && Grows(env, t, v)
    ensures Grows(env, s, v)
  {
    forall i, u | |s.log| <= i < |v.log| && Settled(env, s.cache, u)
      ensures !Replaces(v.log[i], u)
    {
      assert i < |t.log| ==> v.log[i] == t.log[i];
      assert Settled(env, t.cache, u);
    }
  }

  lemma {:induction false} CoherentGrows(
      env: Env, a: set<Url>, c: map<Url, Res>, d: map<Url, Res>, links: seq<LinkLine>)
    requires CacheGrows(env, a, c, d) && Coherent(env, c, links)
    ensures Coherent(env, d, links)
  {
  }

  lemma {:induction false} LogGrows(env: Env, a: set<Url>, c: map<Url, Res>, d: map<Url, Res>, log: seq<Event>)
    requires CacheGrows(env, a, c, d) && LogOk(env, c, log)
    ensures LogOk(env, d, log)
  {
    forall i | 0 <= i < |log| ensures EventOk(env, d, log[i]) {
      assert EventOk(env, c, log[i]);
      if log[i].Stored? { CoherentGrows(env, a, c, d, log[i].exchange.links); }
    }
  }

  lemma {:induction false} ErrorsSnoc(log: seq<Event>, ev: Event)
    ensures ErrorsOf(log + [ev]) ==
      ErrorsOf(log) + (if ev.Ran? && ev.error.Some? then [TaskError(ev.url, ev.error.value)] else [])
  {
    assert (log + [ev])[..|log|] == log;
  }

  lemma {:induction false} OnceSnoc(env: Env, c: map<Url, Res>, log: seq<Event>, ev: Event)
    requires LogOk(env, c, log) && StoreOnce(log)
    requires ev.Fetched? || ev.Stored? ==> !Settled(env, c, ev.url)
    ensures StoreOnce(log + [ev])
  {
    var l := log + [ev];
    forall i, j, u | 0 <= i < j < |l| && Settles(l[i], u)
      ensures !Replaces(l[j], u)
    {
      assert EventOk(env, c, log[i]);
      if j < |log| { assert Settles(log[i], u) && l[j] == log[j]; }
    }
  }

  /** A fetch happens only for a URL that is not settled. */
  lemma {:induction false} FetchStep(env: Env, s: State, u: Url)
    requires Inv(env, s) && !Settled(env, s.cache, u)
    ensures var t := s.(clock := s.clock + 1, log := s.log + [Fetched(u)]); Inv(env, t) && Grows(env, s, t)
  {
    OnceSnoc(env, s.cache, s.log, Fetched(u));
    ErrorsSnoc(s.log, Fetched(u));
  }

  lemma {:induction false} ReuseStep(env: Env, s: State, u: Url)
    requires Inv(env, s) && Settled(env, s.cache, u)
    ensures var t := s.(log := s.log + [Reused(u)]); Inv(env, t) && Grows(env, s, t)
  {
    OnceSnoc(env, s.cache, s.log, Reused(u));
    ErrorsSnoc(s.log, Reused(u));
  }

  lemma {:induction false} ReportStep(env: Env, s: State, u: Url, err: Option<Cause>)
    requires Inv(env, s) && (u in s.active ==> err == Some(ReferenceLoop))
    ensures Inv(env, Report(s, u, err)) && Grows(env, s, Report(s, u, err))
  {
    OnceSnoc(env, s.cache, s.log, Ran(u, err));
    ErrorsSnoc(s.log, Ran(u, err));
  }

  /** Storing a new exchange for an unsettled URL disturbs nothing that is settled. */
  lemma {:induction false} StoreStep(env: Env, s: State, u: Url, r: Res, e: Exchange)
    requires Inv(env, s) && !Settled(env, s.cache, u)
    requires r.requestURL == u && r.exchange == Some(e) && env.verify(e) && Shaped(env, r)
    requires Coherent(env, s.cache, e.links) && (Announces(env) ==> Announced(e.links))
    ensures var t := Store(s, r, e); Inv(env, t) && CacheGrows(env, s.active - {u}, s.cache, t.cache)
  {
    var d := s.cache[u := r];
    assert CacheGrows(env, s.active - {u}, s.cache, d);
    LogGrows(env, s.active - {u}, s.cache, d, s.log);
    CoherentGrows(env, s.active - {u}, s.cache, d, e.links);
    OnceSnoc(env, s.cache, s.log, Stored(u, e));
    ErrorsSnoc(s.log, Stored(u, e));
  }

  // ---- Link lines ----

  lemma {:induction false} CoherentConcat(env: Env, c: map<Url, Res>, a: seq<LinkLine>, b: seq<LinkLine>)
    requires Coherent(env, c, a) && Coherent(env, c, b)
    ensures Coherent(env, c, a + b)
  {
  }

  lemma {:induction false} AltLinesCoherent(env: Env, c: map<Url, Res>, rs: seq<Res>)
    requires AllPackaged(env, c, rs)
    ensures Coherent(env, c, AltLines(rs))
    decreases |rs|
  {
    if rs != [] {
      AltLinesCoherent(env, c, rs[1..]);
      var first := if rs[0].integrity != "" then [AllowedAlt(rs[0].requestURL, rs[0].integrity)] else [];
      CoherentConcat(env, c, first, AltLines(rs[1..]));
    }
  }

  lemma {:induction false} LinkLinesCoherent(env: Env, c: map<Url, Res>, keep: bool, ps: seq<Preload>)
    requires forall i :: 0 <= i < |ps| ==> AllPackaged(env, c, ps[i].resources)
    ensures Coherent(env, c, LinkLines(keep, ps))
    decreases |ps|
  {
    if ps != [] {
      var alt := AltLines(ps[0].resources);
      var own := if alt != [] || keep then [PreloadLine(ps[0].link)] else [];
      AltLinesCoherent(env, c, ps[0].resources);
      LinkLinesCoherent(env, c, keep, ps[1..]);
      CoherentConcat(env, c, alt, own);
      CoherentConcat(env, c, alt + own, LinkLines(keep, ps[1..]));
    }
  }

  lemma {:induction false} PackagedGrows(env: Env, a: set<Url>, c: map<Url, Res>, d: map<Url, Res>, rs: seq<Res>)
    requires CacheGrows(env, a, c, d) && AllPackaged(env, c, rs)
    ensures AllPackaged(env, d, rs)
  {
  }

  // ---- The induction over the recursion ----

  /** A resource before its run: only its URL is set. */
  predicate IsNew(r: Res) { r == NewResource(r.requestURL) }

  lemma {:induction false} RunKeeps(env: Env, parent: Option<Task>, s: State, req: Request, r: Res)
    requires Closed(env) && req.url == r.requestURL && req.url in env.urls
    requires s.active == Ancestors(parent) <= env.urls
    requires Inv(env, s) && IsNew(r)
    ensures var (t, r') := Run(env, parent, s, req, r);
      Inv(env, t) && Grows(env, s, t) && Packaged(env, t.cache, r') && Shaped(env, r') && r'.requestURL == r.requestURL
      && t.log != [] && t.log[|t.log| - 1].Ran? && t.log[|t.log| - 1].url == r.requestURL
      && (t.log[|t.log| - 1].error.None? <==> r'.integrity != "")
      && (req.url in env.targets ==> RanIn(env, s.log, t.log))
    decreases env.urls - s.active, 0, 0
  {
    var url := r.requestURL;
    if url in s.active {
      ReportStep(env, s, url, Some(ReferenceLoop));
    } else {
      var s0 := s.(active := s.active + {url});
      RunTaskKeeps(env, parent, s0, req, r);
      var (s1, r1, err) := RunTask(env, parent, s0, req, r);
      var s2 := s1.(active := s1.active - {url});
      assert s2.active == s.active;
      ReportStep(env, s2, url, err);
      assert Grows(env, s, s2);
      GrowsTrans(env, s, s2, Report(s2, url, err));
    }
  }

  /** What a task leaves behind; only the entry of its own URL may be new or replaced. */
  ghost predicate TaskOutcome(env: Env, s: State, url: Url, t: State, r: Res, err: Option<Cause>) {
    && Inv(env, t) && t.active == s.active && s.errs <= t.errs && LoopsOnly(s.active, s.log, t.log)
    && Untouched(env, s.cache, s.log, t.log) && CacheGrows(env, s.active - {url}, s.cache, t.cache)
    && RanIn(env, s.log, t.log)
    && Packaged(env, t.cache, r) && Shaped(env, r) && r.requestURL == url
    && (err.None? <==> r.integrity != "")
  }

  lemma {:induction false} RunTaskKeeps(env: Env, parent: Option<Task>, s: State, req: Request, r: Res)
    requires Closed(env) && req.url == r.requestURL && req.url in env.urls
    requires s.active == Ancestors(parent) + {req.url} <= env.urls
    requires Inv(env, s) && IsNew(r)
    ensures var (t, r', err) := RunTask(env, parent, s, req, r);
      TaskOutcome(env, s, req.url, t, r', err)
    decreases env.urls - s.active, 5, 0
  {
    var headers := env.tweak(req, if parent.Some? then Some(parent.value.request) else None);
    if headers.Some? {
      if Settled(env, s.cache, req.url) {
        ReuseStep(env, s, req.url);
      } else {
        RenewKeeps(env, Task(parent, Request(req.url, headers.value)), s, r);
      }
    }
  }

  lemma {:induction false} RenewKeeps(env: Env, task: Task, s: State, r: Res)
    requires Closed(env) && task.request.url == r.requestURL
    requires s.active == Ancestors(Some(task)) <= env.urls
    requires Inv(env, s) && IsNew(r) && !Settled(env, s.cache, r.requestURL)
    ensures var (t, r', err) := Renew(env, task, s, r);
      TaskOutcome(env, s, r.requestURL, t, r', err)
    decreases env.urls - s.active, 4, 0
  {
    var url := r.requestURL;
    FetchStep(env, s, url);
    var reply := env.fetch(task.request, s.clock);
    var s1 := s.(clock := s.clock + 1, log := s.log + [Fetched(url)]);
    if reply.NoReply? {
      FailedOutcome(env, s, s1, url, r, FetchFailed);
    } else if IsRedirect(reply.status) {
      if reply.location.None? {
        FailedOutcome(env, s, s1, url, r, LocationMissing);
      } else {
        FailedOutcome(env, s, s1, url, r.(redirectURL := reply.location), Redirected(reply.location.value));
      }
    } else {
      var r1 := r.(physicalURL := Some(env.physical(url, reply.body)));
      CreateExchangeKeeps(env, task, s1, r1, reply.body);
      var (s2, r2, made) := CreateExchange(env, task, s1, r1, reply.body);
      GrowsTrans(env, s, s1, s2);
      assert url in s.active;
      FinishKeeps(env, s, s2, r2, made);
    }
  }

  /** A task that fails leaves only what its nested runs did. */
  lemma {:induction false} FailedOutcome(env: Env, s: State, t: State, url: Url, r: Res, cause: Cause)
    requires Grows(env, s, t) && RanIn(env, s.log, t.log) && Inv(env, t)
    requires Shaped(env, r) && r.integrity == "" && r.requestURL == url
    ensures TaskOutcome(env, s, url, t, r, Some(cause))
  {
  }

  lemma {:induction false} StoreGrows(env: Env, s0: State, s: State, r: Res, e: Exchange)
    requires Grows(env, s0, s) && RanIn(env, s0.log, s.log) && !Settled(env, s.cache, r.requestURL)
    ensures var t := Store(s, r, e);
      && LoopsOnly(s0.active, s0.log, t.log) && Untouched(env, s0.cache, s0.log, t.log) && RanIn(env, s0.log, t.log)
      && CacheGrows(env, s0.active - {r.requestURL}, s0.cache, t.cache)
  {
    assert !Settled(env, s0.cache, r.requestURL);
  }

  lemma {:induction false} FinishKeeps(env: Env, s0: State, s: State, r: Res, made: Made)
    requires Grows(env, s0, s) && RanIn(env, s0.log, s.log) && Inv(env, s) && !Settled(env, s.cache, r.requestURL)
    requires r.exchange.None? && r.integrity == "" && r.redirectURL.None?
    requires made.Success? ==> Sealed(env, s.cache, made.exchange)
    ensures var (t, r', err) := Finish(env, s, r, made);
      TaskOutcome(env, s0, r.requestURL, t, r', err)
  {
    if made.Failure? {
      FailedOutcome(env, s0, s, r.requestURL, r, made.cause);
    } else if SetExchange(env, r, made.exchange).None? {
      FailedOutcome(env, s0, s, r.requestURL, r, HashFailed);
    } else {
      var r' := SetExchange(env, r, made.exchange).value;
      StoreStep(env, s, r.requestURL, r', made.exchange);
      StoreGrows(env, s0, s, r', made.exchange);
    }
  }

  /** What is known of an exchange when it leaves `createExchange`. */
  ghost predicate Sealed(env: Env, c: map<Url, Res>, e: Exchange) {
    env.verify(e) && Coherent(env, c, e.links) && (Announces(env) ==> Announced(e.links))
  }

  lemma {:induction false} CreateExchangeKeeps(env: Env, task: Task, s: State, r: Res, body: nat)
    requires Closed(env) && r.physicalURL.Some? && r.exchange.None? && r.integrity == "" && r.redirectURL.None?
    requires s.active == Ancestors(Some(task)) <= env.urls
    requires Inv(env, s)
    ensures var (t, r', made) := CreateExchange(env, task, s, r, body);
      Inv(env, t) && Grows(env, s, t) && RanIn(env, s.log, t.log) && r' == r.(validityURL := r'.validityURL)
      && (made.Success? ==> Sealed(env, t.cache, made.exchange))
    decreases env.urls - s.active, 3, 1
  {
    var specs := env.process(body);
    if specs.Some? && env.validity(r.physicalURL.value, body).Some? {
      FreshInWorld(env, specs.value);
      FreshAreNew(specs.value);
      if Announces(env) { FreshOwnURLs(specs.value); }
      PackagePreloadsKeeps(env, task, s, FreshPreloads(specs.value));
    }
  }

  lemma {:induction false} FreshOwnURLs(specs: seq<PreloadSpec>)
    requires OwnTargets(specs)
    ensures OwnURLs(FreshPreloads(specs))
    decreases |specs|
  {
    if specs != [] { FreshOwnURLs(specs[1..]); }
  }

  /** A run leaves the URLs of the preloads alone. */
  ghost predicate SameURLs(ps: seq<Preload>, qs: seq<Preload>) {
    |qs| == |ps| && forall i :: 0 <= i < |ps| ==>
      qs[i].link == ps[i].link && SameRequests(ps[i].resources, qs[i].resources)
  }

  ghost predicate SameRequests(rs: seq<Res>, ts: seq<Res>) {
    |ts| == |rs| && forall i :: 0 <= i < |rs| ==> ts[i].requestURL == rs[i].requestURL
  }

  lemma {:induction false} PackagePreloadsKeeps(env: Env, task: Task, s: State, ps: seq<Preload>)
    requires Closed(env) && InWorld(env, ps) && AllNew(ps) && (Announces(env) ==> OwnURLs(ps))
    requires s.active == Ancestors(Some(task)) <= env.urls
    requires Inv(env, s)
    ensures var (t, made) := PackagePreloads(env, task, s, ps);
      Inv(env, t) && Grows(env, s, t) && RanIn(env, s.log, t.log)
      && (made.Success? ==> Sealed(env, t.cache, made.exchange))
    decreases env.urls - s.active, 3, 0
  {
    RunPreloadsKeeps(env, task, s, ps);
    var (s', ps', ok) := RunPreloads(env, task, s, ps);
    LinkLinesCoherent(env, s'.cache, env.keepNonSXG, ps');
    if Announces(env) {
      OwnURLsKept(ps, ps');
      LinkLinesAnnounced(ps');
    }
  }

  lemma {:induction false} OwnURLsKept(ps: seq<Preload>, qs: seq<Preload>)
    requires OwnURLs(ps) && SameURLs(ps, qs)
    ensures OwnURLs(qs)
  {
  }

  ghost predicate AllNew(ps: seq<Preload>) {
    forall i :: 0 <= i < |ps| ==> ResourcesNew(ps[i].resources)
  }

  ghost predicate ResourcesNew(rs: seq<Res>) {
    forall j :: 0 <= j < |rs| ==> IsNew(rs[j])
  }

  lemma {:induction false} FreshAreNew(specs: seq<PreloadSpec>)
    ensures AllNew(FreshPreloads(specs))
    decreases |specs|
  {
    if specs != [] { FreshAreNew(specs[1..]); }
  }

  lemma {:induction false} NewArePackaged(env: Env, c: map<Url, Res>, rs: seq<Res>)
    requires ResourcesNew(rs)
    ensures AllPackaged(env, c, rs)
  {
  }

  lemma {:induction false} RunPreloadsKeeps(env: Env, task: Task, s: State, ps: seq<Preload>)
    requires Closed(env) && InWorld(env, ps) && AllNew(ps)
    requires s.active == Ancestors(Some(task)) <= env.urls
    requires Inv(env, s)
    ensures var (t, ps', ok) := RunPreloads(env, task, s, ps);
      Inv(env, t) && Grows(env, s, t) && RanIn(env, s.log, t.log)
      && SameURLs(ps, ps') && forall i :: 0 <= i < |ps'| ==> AllPackaged(env, t.cache, ps'[i].resources)
    decreases env.urls - s.active, 2, |ps|
  {
    if ps != [] {
      var (s1, rs, ok) := RunResources(env, task, s, ps[0].resources);
      RunResourcesKeeps(env, task, s, ps[0].resources);
      if ok {
        RunPreloadsKeeps(env, task, s1, ps[1..]);
        var (s2, tail, _) := RunPreloads(env, task, s1, ps[1..]);
        GrowsTrans(env, s, s1, s2);
        PackagedGrows(env, s1.active, s1.cache, s2.cache, rs);
      } else {
        forall i | 1 <= i < |ps| ensures AllPackaged(env, s1.cache, ps[i].resources) {
          NewArePackaged(env, s1.cache, ps[i].resources);
        }
      }
    }
  }

  lemma {:induction false} AllPackagedCons(
      env: Env, a: set<Url>, c: map<Url, Res>, d: map<Url, Res>, r: Res, tail: seq<Res>)
    requires CacheGrows(env, a, c, d) && Packaged(env, c, r) && Shaped(env, r) && AllPackaged(env, d, tail)
    ensures AllPackaged(env, d, [r] + tail)
  {
  }

  lemma {:induction false} SameRequestsCons(rs: seq<Res>, r: Res, tail: seq<Res>)
    requires rs != [] && r.requestURL == rs[0].requestURL && SameRequests(rs[1..], tail)
    ensures SameRequests(rs, [r] + tail)
  {
  }

  lemma {:induction false} RunResourcesKeeps(env: Env, task: Task, s: State, rs: seq<Res>)
    requires Closed(env) && ResourcesInWorld(env, rs) && ResourcesNew(rs)
    requires s.active == Ancestors(Some(task)) <= env.urls
    requires Inv(env, s)
    ensures var (t, rs', ok) := RunResources(env, task, s, rs);
      Inv(env, t) && Grows(env, s, t) && RanIn(env, s.log, t.log)
      && AllPackaged(env, t.cache, rs') && SameRequests(rs, rs')
    decreases env.urls - s.active, 1, |rs|
  {
    if rs == [] {
    } else if !env.requestable(rs[0].requestURL) {
      NewArePackaged(env, s.cache, rs);
    } else {
      var req := Request(rs[0].requestURL, map[]);
      RunKeeps(env, Some(task), s, req, rs[0]);
      var (s1, r1) := Run(env, Some(task), s, req, rs[0]);
      RunResourcesKeeps(env, task, s1, rs[1..]);
      var (s2, tail, _) := RunResources(env, task, s1, rs[1..]);
      GrowsTrans(env, s, s1, s2);
      AllPackagedCons(env, s1.active, s1.cache, s2.cache, r1, tail);
      SameRequestsCons(rs, r1, tail);
    }
  }

  // ---- Whole runs ----

  function StartState(cache: map<Url, Res>): State { State({}, [], cache, 0, []) }

  /** `Packager.RunForRequest`, once the exchange factory is there. */
  ghost function RunForRequest(env: Env, cache: map<Url, Res>, req: Request): (State, Res)
    requires Closed(env) && req.url in env.urls
  {
    Run(env, None, StartState(cache), req, NewResource(req.url))
  }

  lemma {:induction false} RunForRequestKeeps(env: Env, cache: map<Url, Res>, req: Request)
    requires Closed(env) && req.url in env.urls && CacheOk(env, cache)
    ensures var (t, r) := RunForRequest(env, cache, req);
      Inv(env, t) && Grows(env, StartState(cache), t)
      && Packaged(env, t.cache, r) && Shaped(env, r) && r.requestURL == req.url
      && t.log != [] && t.log[|t.log| - 1].Ran? && t.log[|t.log| - 1].url == req.url
      && (t.log[|t.log| - 1].error.None? <==> r.integrity != "")
  {
    RunKeeps(env, None, StartState(cache), req, NewResource(req.url));
  }

  /** Integrity coherence: every integrity written into any exchange produced in the run is the
      integrity of the entry that the cache holds for that URL when the run ends. */
  lemma {:induction false} IntegrityCoherence(env: Env, cache: map<Url, Res>, req: Request, i: nat, k: nat)
    requires Closed(env) && req.url in env.urls && CacheOk(env, cache)
    requires var log := RunForRequest(env, cache, req).0.log;
      i < |log| && log[i].Stored? && k < |log[i].exchange.links| && log[i].exchange.links[k].AllowedAlt?
    ensures var t := RunForRequest(env, cache, req).0;
      var line := t.log[i].exchange.links[k];
      line.url in t.cache && t.cache[line.url].integrity == line.integrity
      && Verified(env, t.cache[line.url])
      && env.hash(t.cache[line.url].exchange.value).Some?
      && line.integrity == "sha256-" + env.hash(t.cache[line.url].exchange.value).value
  {
    RunForRequestKeeps(env, cache, req);
    var t := RunForRequest(env, cache, req).0;
    assert EventOk(env, t.cache, t.log[i]);
    assert LineCoherent(env, t.cache, t.log[i].exchange.links[k]);
  }

  /** Header completeness: when every preload asks for the URL of its own link and non-SXG preloads
      are dropped, no exchange of the run carries a preload line that is not preceded by an
      allowed-alt-sxg line for the same URL. */
  lemma {:induction false} PreloadsAnnounced(env: Env, cache: map<Url, Res>, req: Request, i: nat)
    requires Closed(env) && req.url in env.urls && CacheOk(env, cache) && Announces(env)
    requires var log := RunForRequest(env, cache, req).0.log; i < |log| && log[i].Stored?
    ensures Announced(RunForRequest(env, cache, req).0.log[i].exchange.links)
  {
    RunForRequestKeeps(env, cache, req);
    var t := RunForRequest(env, cache, req).0;
    assert EventOk(env, t.cache, t.log[i]);
  }

  /** Store once: after a URL's exchange was stored or reused, the run neither fetches nor stores
      it again, and the cache ends with that very exchange. */
  lemma {:induction false} StoredForGood(env: Env, cache: map<Url, Res>, req: Request, i: nat, u: Url)
    requires Closed(env) && req.url in env.urls && CacheOk(env, cache)
    requires var log := RunForRequest(env, cache, req).0.log; i < |log| && Settles(log[i], u)
    ensures var t := RunForRequest(env, cache, req).0;
      (forall j :: i < j < |t.log| ==> !Replaces(t.log[j], u))
      && Settled(env, t.cache, u) && (t.log[i].Stored? ==> t.cache[u].exchange == Some(t.log[i].exchange))
  {
    RunForRequestKeeps(env, cache, req);
    var t := RunForRequest(env, cache, req).0;
    assert EventOk(env, t.cache, t.log[i]);
  }

  /** An entry that was valid before the run survives it untouched. */
  lemma {:induction false} ValidEntriesSurvive(env: Env, cache: map<Url, Res>, req: Request, u: Url)
    requires Closed(env) && req.url in env.urls && CacheOk(env, cache) && Settled(env, cache, u)
    ensures var t := RunForRequest(env, cache, req).0;
      u in t.cache && t.cache[u] == cache[u] && forall j :: 0 <= j < |t.log| ==> !Replaces(t.log[j], u)
  {
    RunForRequestKeeps(env, cache, req);
  }

  /** Accounting: the error list is exactly the failed calls of `run`, each tagged with its URL. */
  lemma {:induction false} ErrorsAccounted(env: Env, cache: map<Url, Res>, req: Request)
    requires Closed(env) && req.url in env.urls && CacheOk(env, cache)
    ensures var (t, r) := RunForRequest(env, cache, req);
      t.errs == ErrorsOf(t.log) && Shaped(env, r) && t.active == {}
      && forall u :: u in t.cache ==> t.cache[u].requestURL == u && Shaped(env, t.cache[u])
  {
    RunForRequestKeeps(env, cache, req);
  }

  /** What the caller of a run gets for the main URL, and the error its call ends with: an untouched
      resource if the request cannot be made or sent, the cached resource if it is usable, the target
      of a redirect (301, 302, 303, 307 or 308) and nothing else, and otherwise the physical URL and,
      with an exchange for the URL, the validity URL. */
  lemma {:induction false} MainResource(env: Env, cache: map<Url, Res>, req: Request)
    requires Closed(env) && req.url in env.urls && CacheOk(env, cache)
    ensures var (t, r) := RunForRequest(env, cache, req); t.log != [] && t.log[|t.log| - 1].Ran?
    ensures var (t, r) := RunForRequest(env, cache, req);
      var err, headers := t.log[|t.log| - 1].error, env.tweak(req, None);
      if headers.None? then err == Some(TweakFailed) && r == NewResource(req.url)
      else if Settled(env, cache, req.url) then err.None? && r == cache[req.url]
      else MainFetched(env, req.url, env.fetch(Request(req.url, headers.value), 0), r, err)
  {
    var url := req.url;
    var s, r := StartState(cache), NewResource(url);
    var s0 := s.(active := s.active + {url});
    RunForRequestKeeps(env, cache, req);
    assert Ancestors(None) == {};
    var headers := env.tweak(req, None);
    if headers.Some? && !Settled(env, cache, url) {
      var task := Task(None, Request(url, headers.value));
      assert Ancestors(Some(task)) == {url};
      RenewResult(env, task, s0, r);
    }
    var (s1, r1, err) := RunTask(env, None, s0, req, r);
    RunUnfold(env, None, s, req, r, s1, r1, err);
  }

  ghost predicate MainFetched(env: Env, url: Url, reply: Reply, r: Res, err: Option<Cause>) {
    if reply.NoReply? then err == Some(FetchFailed) && r == NewResource(url)
    else if reply.status in {301, 302, 303, 307, 308} then
      if reply.location.None? then err == Some(LocationMissing) && r == NewResource(url)
      else err == Some(Redirected(reply.location.value)) && r == NewResource(url).(redirectURL := reply.location)
    else
      var physical := env.physical(url, reply.body);
      && r.requestURL == url && r.physicalURL == Some(physical) && r.redirectURL.None?
      && (env.process(reply.body).None? <==> err == Some(ProcessFailed))
      && (env.process(reply.body).Some? ==>
           (env.validity(physical, reply.body).None? <==> err == Some(ValidityFailed)))
      && (err.None? ==>
           r.validityURL.Some? && r.validityURL == env.validity(physical, reply.body)
           && r.exchange.Some? && r.exchange.value.url == url)
  }

  lemma {:induction false} RenewResult(env: Env, task: Task, s: State, r: Res)
    requires Closed(env) && task.request.url == r.requestURL && IsNew(r)
    requires s.active == Ancestors(Some(task)) <= env.urls
    ensures var (t, r', err) := Renew(env, task, s, r);
      MainFetched(env, r.requestURL, env.fetch(task.request, s.clock), r', err)
  {
    var url := r.requestURL;
    var reply := env.fetch(task.request, s.clock);
    if reply.Reply? && !IsRedirect(reply.status) {
      var s1 := s.(clock := s.clock + 1, log := s.log + [Fetched(url)]);
      var r1 := r.(physicalURL := Some(env.physical(url, reply.body)));
      CreateExchangeResult(env, task, s1, r1, reply.body);
    }
  }

  lemma {:induction false} CreateExchangeResult(env: Env, task: Task, s: State, r: Res, body: nat)
    requires Closed(env) && r.physicalURL.Some?
    requires s.active == Ancestors(Some(task)) <= env.urls
    ensures var (t, r', made) := CreateExchange(env, task, s, r, body);
      && r' == r.(validityURL := r'.validityURL)
      && (env.process(body).None? <==> made == Failure(ProcessFailed))
      && (env.process(body).Some? ==>
           (env.validity(r.physicalURL.value, body).None? <==> made == Failure(ValidityFailed)))
      && (made.Success? ==> r'.validityURL == env.validity(r.physicalURL.value, body) && r'.validityURL.Some?
                            && made.exchange.url == task.request.url)
      && made != Failure(HashFailed)
  {
    var specs := env.process(body);
    if specs.Some? {
      FreshInWorld(env, specs.value);
      var ps := FreshPreloads(specs.value);
      var (s1, ps1, ok) := RunPreloads(env, task, s, ps);
      PackageUnfold(env, task, s, ps, s1, ps1, ok);
    }
  }

  // ---- Loops and isolation ----

  lemma {:induction false} CreateExchangeNoLoop(env: Env, task: Task, s: State, r: Res, body: nat)
    requires Closed(env) && r.physicalURL.Some?
    requires s.active == Ancestors(Some(task)) <= env.urls
    ensures CreateExchange(env, task, s, r, body).2 != Failure(ReferenceLoop)
  {
  }

  lemma {:induction false} RenewNoLoop(env: Env, task: Task, s: State, r: Res)
    requires Closed(env) && task.request.url == r.requestURL
    requires s.active == Ancestors(Some(task)) <= env.urls
    ensures Renew(env, task, s, r).2 != Some(ReferenceLoop)
  {
    var reply := env.fetch(task.request, s.clock);
    if reply.Reply? {
      CreateExchangeNoLoop(env, task, s.(clock := s.clock + 1, log := s.log + [Fetched(r.requestURL)]),
        r.(physicalURL := Some(env.physical(r.requestURL, reply.body))), reply.body);
    }
  }

  /** A task never reports a loop error of its own: the errors of nested runs stay in them. */
  lemma {:induction false} RunTaskNoLoop(env: Env, parent: Option<Task>, s: State, req: Request, r: Res)
    requires Closed(env) && req.url == r.requestURL && req.url in env.urls
    requires s.active == Ancestors(parent) + {req.url} <= env.urls
    ensures RunTask(env, parent, s, req, r).2 != Some(ReferenceLoop)
  {
    var headers := env.tweak(req, if parent.Some? then Some(parent.value.request) else None);
    if headers.Some? {
      RenewNoLoop(env, Task(parent, Request(req.url, headers.value)), s, r);
    }
  }

  /** The loop error is raised exactly when the URL is that of an ancestor task, and then nothing
      but the error is recorded. */
  lemma {:induction false} LoopExact(env: Env, parent: Option<Task>, s: State, req: Request, r: Res)
    requires Closed(env) && req.url == r.requestURL && req.url in env.urls
    requires s.active == Ancestors(parent) <= env.urls
    ensures var (t, r') := Run(env, parent, s, req, r);
      && t.log != []
      && (t.log[|t.log| - 1] == Ran(req.url, Some(ReferenceLoop)) <==> req.url in Ancestors(parent))
      && (req.url in Ancestors(parent) ==>
           r' == r && t == s.(errs := s.errs + [TaskError(req.url, ReferenceLoop)],
                              log := s.log + [Ran(req.url, Some(ReferenceLoop))]))
  {
    if req.url !in s.active {
      RunTaskNoLoop(env, parent, s.(active := s.active + {req.url}), req, r);
    }
  }

  predicate Requestable(env: Env, rs: seq<Res>) {
    forall j :: 0 <= j < |rs| ==> env.requestable(rs[j].requestURL)
  }

  lemma {:induction false} ResourcesOk(env: Env, task: Task, s: State, rs: seq<Res>)
    requires Closed(env) && ResourcesInWorld(env, rs)
    requires s.active == Ancestors(Some(task)) <= env.urls
    ensures RunResources(env, task, s, rs).2 <==> Requestable(env, rs)
    decreases |rs|
  {
    if rs != [] && env.requestable(rs[0].requestURL) {
      var s1 := Run(env, Some(task), s, Request(rs[0].requestURL, map[]), rs[0]).0;
      ResourcesOk(env, task, s1, rs[1..]);
      assert rs == [rs[0]] + rs[1..];
    }
  }

  /** Whatever happens to the subresources, the loop over them goes on to its end. */
  lemma {:induction false} PreloadsOk(env: Env, task: Task, s: State, ps: seq<Preload>)
    requires Closed(env) && InWorld(env, ps)
    requires s.active == Ancestors(Some(task)) <= env.urls
    ensures RunPreloads(env, task, s, ps).2 <==> forall i :: 0 <= i < |ps| ==> Requestable(env, ps[i].resources)
    decreases |ps|
  {
    if ps != [] {
      ResourcesOk(env, task, s, ps[0].resources);
      if Requestable(env, ps[0].resources) {
        PreloadsOk(env, task, RunResources(env, task, s, ps[0].resources).0, ps[1..]);
        assert ps == [ps[0]] + ps[1..];
      }
    }
  }

  /** The page's own part of `createExchange`. */
  ghost predicate Ready(env: Env, url: Url, body: nat) {
    && env.process(body).Some?
    && env.validity(url, body).Some?
    && forall i, u :: 0 <= i < |env.process(body).value| && u in env.process(body).value[i].targets
         ==> env.requestable(u)
  }

  /** The page of a URL can be turned into an exchange as far as the page itself is concerned. */
  ghost predicate PageOk(env: Env, url: Url, reply: Reply) {
    reply.Reply? && !IsRedirect(reply.status) && Ready(env, env.physical(url, reply.body), reply.body)
  }

  /** The signer, the verifier and the header hash accept an exchange with these Link lines. */
  predicate Accepted(env: Env, url: Url, links: seq<LinkLine>, clock: nat) {
    var made := Seal(env, url, links, clock);
    made.Success? && env.hash(made.exchange).Some?
  }

  /** Their verdict does not depend on the Link lines. */
  ghost predicate Impartial(env: Env, url: Url) {
    forall links, links', n :: Accepted(env, url, links, n) == Accepted(env, url, links', n)
  }

  /** They accept every exchange for the URL. */
  ghost predicate Signs(env: Env, url: Url) { forall links, n :: Accepted(env, url, links, n) }

  lemma {:induction false} FreshRequestable(env: Env, specs: seq<PreloadSpec>)
    ensures (forall i, u :: 0 <= i < |specs| && u in specs[i].targets ==> env.requestable(u))
       <==> (forall i :: 0 <= i < |FreshPreloads(specs)| ==> Requestable(env, FreshPreloads(specs)[i].resources))
    decreases |specs|
  {
    if specs != [] {
      var ps := FreshPreloads(specs);
      FreshRequestable(env, specs[1..]);
      assert specs == [specs[0]] + specs[1..] && ps == [ps[0]] + ps[1..];
      assert Requestable(env, ps[0].resources) <==> forall u :: u in specs[0].targets ==> env.requestable(u) by {
        forall u | u in specs[0].targets && Requestable(env, ps[0].resources) ensures env.requestable(u) {
          var j :| 0 <= j < |specs[0].targets| && specs[0].targets[j] == u;
          assert ps[0].resources[j] == NewResource(u);
        }
      }
    }
  }

  lemma {:induction false} CreateExchangeIsolated(env: Env, task: Task, s: State, r: Res, body: nat)
    returns (links: seq<LinkLine>)
    requires Closed(env) && r.physicalURL.Some?
    requires s.active == Ancestors(Some(task)) <= env.urls
    ensures var (t, r', made) := CreateExchange(env, task, s, r, body);
      if Ready(env, r.physicalURL.value, body)
      then t.clock > 0 && made == Seal(env, task.request.url, links, t.clock - 1)
      else made.Failure?
  {
    var specs := env.process(body);
    links := [];
    if specs.Some? {
      FreshInWorld(env, specs.value);
      FreshRequestable(env, specs.value);
      PreloadsOk(env, task, s, FreshPreloads(specs.value));
      links := LinkLines(env.keepNonSXG, RunPreloads(env, task, s, FreshPreloads(specs.value)).1);
    }
  }

  /** Error isolation: when the signer's verdict does not depend on the Link lines, a task without a
      usable cache entry succeeds exactly when its own page is fine and the signer accepts it, whatever
      its subresources run into. */
  lemma {:induction false} SubresourcesCannotFailTheirParent(env: Env, task: Task, s: State, r: Res)
    requires Closed(env) && task.request.url == r.requestURL && Impartial(env, r.requestURL)
    requires s.active == Ancestors(Some(task)) <= env.urls
    ensures PageOk(env, r.requestURL, env.fetch(task.request, s.clock)) ==> Renew(env, task, s, r).0.clock > 0
    ensures var (t, r', err) := Renew(env, task, s, r);
      err.None? <==>
        PageOk(env, r.requestURL, env.fetch(task.request, s.clock)) && Accepted(env, r.requestURL, [], t.clock - 1)
  {
    var url := r.requestURL;
    var reply := env.fetch(task.request, s.clock);
    if reply.Reply? && !IsRedirect(reply.status) {
      var s1 := s.(clock := s.clock + 1, log := s.log + [Fetched(url)]);
      var r1 := r.(physicalURL := Some(env.physical(url, reply.body)));
      var links := CreateExchangeIsolated(env, task, s1, r1, reply.body);
      var (t, _, made) := CreateExchange(env, task, s1, r1, reply.body);
      if Ready(env, env.physical(url, reply.body), reply.body) {
        assert Accepted(env, url, links, t.clock - 1) == Accepted(env, url, [], t.clock - 1);
      }
    }
  }
}
