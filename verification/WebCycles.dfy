/** When a run comes back to its main URL: exactly when that URL lies on a cycle of the web. */
module WebCycles {
  import opened Text
  import opened HttpLink
  import opened Packaging
  import opened Engine
  import opened EngineTheorems
  import ErrorFilter

  // ---- The web as a graph ----

  /** The URLs the inner loop gets to: those before the first one without a request. */
  function AskedIn(env: Env, rs: seq<Res>): set<Url>
    decreases |rs|
  {
    if rs == [] || !env.requestable(rs[0].requestURL) then {} else {rs[0].requestURL} + AskedIn(env, rs[1..])
  }

  function Asked(env: Env, ps: seq<Preload>): set<Url>
    decreases |ps|
  {
    if ps == [] then {}
    else
      AskedIn(env, ps[0].resources) + if Requestable(env, ps[0].resources) then Asked(env, ps[1..]) else {}
  }

  /** The URLs a page asks for, or None when it fails before it asks for any. */
  function Opened(env: Env, url: Url, reply: Reply): Option<set<Url>> {
    if reply.NoReply? || IsRedirect(reply.status) then None
    else if env.process(reply.body).None? || env.validity(env.physical(url, reply.body), reply.body).None? then None
    else Some(Asked(env, FreshPreloads(env.process(reply.body).value)))
  }

  function Visit(env: Env, req: Request, parent: Option<Request>, clock: nat): Option<set<Url>> {
    var headers := env.tweak(req, parent);
    if headers.None? then None else Opened(env, req.url, env.fetch(Request(req.url, headers.value), clock))
  }

  /** A subresource asks for the same URLs whenever and by whomever it is requested. */
  ghost predicate Steady(env: Env) {
    forall u, p, q, m, n :: Visit(env, Request(u, map[]), Some(p), m) == Visit(env, Request(u, map[]), Some(q), n)
  }

  /** A call of `RunForRequest`: the web, the cache before it and the main request. */
  datatype Start = Start(env: Env, cache: map<Url, Res>, req: Request)

  function Page(w: Start, u: Url): Option<set<Url>> {
    if u == w.req.url then Visit(w.env, w.req, None, 0) else Visit(w.env, Request(u, map[]), Some(w.req), 0)
  }

  /** Has no usable cache entry and a page that asks. */
  predicate Open(w: Start, u: Url) { !Settled(w.env, w.cache, u) && Page(w, u).Some? }

  predicate Leads(w: Start, u: Url, v: Url) { Open(w, u) && v in Page(w, u).value }

  ghost predicate Walk(w: Start, path: seq<Url>) {
    |path| > 0 && path[0] == w.req.url && forall i :: 0 <= i < |path| - 1 ==> Leads(w, path[i], path[i + 1])
  }

  ghost predicate Reaches(w: Start, u: Url) { exists path :: Walk(w, path) && path[|path| - 1] == u }

  /** The main URL lies on a cycle of open pages. */
  ghost predicate OnCycle(w: Start) {
    exists path :: |path| >= 2 && Walk(w, path) && path[|path| - 1] == w.req.url
  }

  lemma {:induction false} ReachesMain(w: Start)
    ensures Reaches(w, w.req.url)
  {
    assert Walk(w, [w.req.url]);
  }

  lemma {:induction false} ReachesNext(w: Start, u: Url, v: Url)
    requires Reaches(w, u) && Leads(w, u, v)
    ensures Reaches(w, v) && (v == w.req.url ==> OnCycle(w))
  {
    var path :| Walk(w, path) && path[|path| - 1] == u;
    var more := path + [v];
    assert forall i :: 0 <= i < |path| ==> more[i] == path[i];
    assert Walk(w, more) && |more| >= 2 && more[|more| - 1] == v;
  }

  // ---- Pages that become exchanges ----

  /** The page of the request can be turned into an exchange as far as it is concerned. */
  ghost predicate Fine(env: Env, req: Request, parent: Option<Request>, clock: nat) {
    var headers := env.tweak(req, parent);
    headers.Some? && PageOk(env, req.url, env.fetch(Request(req.url, headers.value), clock))
  }

  /** The verdict of signer, verifier and hash on a page depends on its URL alone. */
  ghost predicate SteadySigner(env: Env, url: Url) {
    forall links, links', m, n :: Accepted(env, url, links, m) == Accepted(env, url, links', n)
  }

  /** So does whether a subresource is fine. */
  ghost predicate Calm(env: Env) {
    && (forall u, p, q, m, n :: Fine(env, Request(u, map[]), Some(p), m) == Fine(env, Request(u, map[]), Some(q), n))
    && (forall u :: SteadySigner(env, u))
  }

  ghost predicate Good(w: Start, u: Url) {
    && (if u == w.req.url then Fine(w.env, w.req, None, 0) else Fine(w.env, Request(u, map[]), Some(w.req), 0))
    && Accepted(w.env, u, [], 0)
  }

  // ---- What the log says about the graph ----

  predicate LoopMet(w: Start, log: seq<Event>) { Ran(w.req.url, Some(ReferenceLoop)) in log }

  predicate Tried(log: seq<Event>, u: Url) { Fetched(u) in log }

  /** The URL was dealt with: its page was fetched, if it is open, and the main URL was a loop. */
  predicate Handled(w: Start, log: seq<Event>, v: Url) {
    (Open(w, v) ==> Tried(log, v)) && (v == w.req.url ==> LoopMet(w, log))
  }

  ghost predicate AllHandled(w: Start, log: seq<Event>, vs: set<Url>) { forall v :: v in vs ==> Handled(w, log, v) }

  /** All that the page of a fetched URL asks for was dealt with. */
  ghost predicate Expanded(w: Start, log: seq<Event>, u: Url) {
    Tried(log, u) && Open(w, u) ==> AllHandled(w, log, Page(w, u).value)
  }

  ghost predicate Trace(w: Start, cache: map<Url, Res>, log: seq<Event>, active: set<Url>) {
    && (forall u :: Settled(w.env, w.cache, u) ==> Settled(w.env, cache, u))
    && (forall u :: Settled(w.env, cache, u) ==> Settled(w.env, w.cache, u) || Tried(log, u))
    && (forall u :: u !in active ==> Expanded(w, log, u))
    && (LoopMet(w, log) ==> OnCycle(w))
    && (forall u :: Tried(log, u) ==> Reaches(w, u))
    && (Calm(w.env) ==> forall u :: Settled(w.env, cache, u) ==> Settled(w.env, w.cache, u) || Good(w, u))
  }

  /** On a calm web every good page that was fetched and is done is in the cache. */
  ghost predicate Kept(w: Start, cache: map<Url, Res>, log: seq<Event>, active: set<Url>) {
    Calm(w.env) ==> forall u :: u !in active && Tried(log, u) && Good(w, u) ==> Settled(w.env, cache, u)
  }

  lemma {:induction false} KeptSnoc(w: Start, cache: map<Url, Res>, log: seq<Event>, active: set<Url>, ev: Event)
    requires Kept(w, cache, log, active) && (ev.Fetched? ==> ev.url in active)
    ensures Kept(w, cache, log + [ev], active)
  {
    assert forall u :: Tried(log + [ev], u) ==> Tried(log, u) || ev == Fetched(u);
  }

  ghost predicate AllTried(log: seq<Event>, us: set<Url>) { forall u :: u in us ==> Tried(log, u) }

  lemma {:induction false} TriedLater(l: seq<Event>, m: seq<Event>, us: set<Url>)
    requires l <= m && AllTried(l, us)
    ensures AllTried(m, us)
  {
    assert forall ev :: ev in l ==> ev in m;
  }

  lemma {:induction false} HandledLater(w: Start, l: seq<Event>, m: seq<Event>, vs: set<Url>)
    requires l <= m && AllHandled(w, l, vs)
    ensures AllHandled(w, m, vs)
  {
    assert forall ev :: ev in l ==> ev in m;
  }

  lemma {:induction false} ExpandedLater(w: Start, l: seq<Event>, ev: Event, u: Url)
    requires Expanded(w, l, u) && ev != Fetched(u)
    ensures Expanded(w, l + [ev], u)
  {
    if Tried(l + [ev], u) && Open(w, u) {
      HandledLater(w, l, l + [ev], Page(w, u).value);
    }
  }

  /** Adding an event: a fetch is one of an active URL, and a loop on the main URL needs a cycle. */
  lemma {:induction false} TraceSnoc(
      w: Start, cache: map<Url, Res>, log: seq<Event>, active: set<Url>, ev: Event)
    requires Trace(w, cache, log, active)
    requires ev.Fetched? ==> ev.url in active && Reaches(w, ev.url)
    requires ev == Ran(w.req.url, Some(ReferenceLoop)) ==> OnCycle(w)
    ensures Trace(w, cache, log + [ev], active)
  {
    forall u | u !in active ensures Expanded(w, log + [ev], u) { ExpandedLater(w, log, ev, u); }
    assert forall u :: Tried(log, u) ==> Tried(log + [ev], u);
    assert forall u :: Tried(log + [ev], u) ==> Tried(log, u) || ev == Fetched(u);
    assert LoopMet(w, log + [ev]) ==> LoopMet(w, log) || ev == Ran(w.req.url, Some(ReferenceLoop));
  }

  /** A page that is done need not be active any more. */
  lemma {:induction false} TraceDone(
      w: Start, cache: map<Url, Res>, log: seq<Event>, active: set<Url>, url: Url)
    requires Trace(w, cache, log, active) && Expanded(w, log, url)
    ensures Trace(w, cache, log, active - {url})
  {
  }

  lemma {:induction false} TraceStore(
      w: Start, cache: map<Url, Res>, log: seq<Event>, active: set<Url>, r: Res)
    requires Trace(w, cache, log, active) && Verified(w.env, r) && Tried(log, r.requestURL)
    requires Calm(w.env) ==> Good(w, r.requestURL)
    ensures Trace(w, cache[r.requestURL := r], log, active)
  {
  }

  // ---- The induction over the recursion ----

  ghost predicate Sub(w: Start, task: Task, s: State) {
    && Closed(w.env) && Steady(w.env)
    && s.active == Ancestors(Some(task)) <= w.env.urls
    && w.req.url in s.active && Reaches(w, task.request.url)
    && Trace(w, s.cache, s.log, s.active) && Kept(w, s.cache, s.log, s.active)
  }

  /** A call for the main request, or for a URL that the page of the parent asks for. */
  ghost predicate Call(w: Start, parent: Option<Task>, s: State, req: Request) {
    && Closed(w.env) && Steady(w.env) && req.url in w.env.urls
    && s.active == Ancestors(parent) <= w.env.urls
    && Trace(w, s.cache, s.log, s.active) && Kept(w, s.cache, s.log, s.active) && AllTried(s.log, s.active)
    && (parent.None? ==> req == w.req && s.clock == 0)
    && (parent.Some? ==>
         req.headers == map[] && w.req.url in s.active
         && Reaches(w, parent.value.request.url) && Leads(w, parent.value.request.url, req.url))
  }

  lemma {:induction false} RunTraces(w: Start, parent: Option<Task>, s: State, req: Request, r: Res)
    requires Call(w, parent, s, req) && req.url == r.requestURL
    ensures var t := Run(w.env, parent, s, req, r).0;
      s.log <= t.log && Trace(w, t.cache, t.log, t.active) && Kept(w, t.cache, t.log, t.active)
      && (Open(w, req.url) ==> Tried(t.log, req.url))
      && (parent.Some? ==> Handled(w, t.log, req.url))
    decreases w.env.urls - s.active, 0, 1
  {
    var url := req.url;
    if parent.Some? { ReachesNext(w, parent.value.request.url, url); } else { ReachesMain(w); }
    if url in s.active {
      TraceSnoc(w, s.cache, s.log, s.active, Ran(url, Some(ReferenceLoop)));
      KeptSnoc(w, s.cache, s.log, s.active, Ran(url, Some(ReferenceLoop)));
    } else {
      var s0 := s.(active := s.active + {url});
      RunTaskTraces(w, parent, s, req, r);
      var (s1, r1, err) := RunTask(w.env, parent, s0, req, r);
      var active := s1.active - {url};
      assert active == s.active;
      assert Trace(w, s1.cache, s1.log, active);
      RunTaskNoLoop(w.env, parent, s0, req, r);
      TraceSnoc(w, s1.cache, s1.log, active, Ran(url, err));
      KeptSnoc(w, s1.cache, s1.log, active, Ran(url, err));
      assert forall u :: Tried(s1.log, u) ==> Tried(s1.log + [Ran(url, err)], u);
    }
  }

  lemma {:induction false} PageIs(w: Start, parent: Option<Task>, s: State, req: Request)
    requires Call(w, parent, s, req) && req.url !in s.active
    ensures var p := if parent.Some? then Some(parent.value.request) else None;
      Page(w, req.url) == Visit(w.env, req, p, s.clock)
      && (Calm(w.env) ==> (Good(w, req.url) <==> Fine(w.env, req, p, s.clock) && Accepted(w.env, req.url, [], 0)))
  {
    assert parent.Some? ==> req == Request(req.url, map[]) && req.url != w.req.url;
  }

  lemma {:induction false} RunTaskTraces(w: Start, parent: Option<Task>, s: State, req: Request, r: Res)
    requires Call(w, parent, s, req) && req.url == r.requestURL && req.url !in s.active && Reaches(w, req.url)
    ensures var t := RunTask(w.env, parent, s.(active := s.active + {req.url}), req, r).0;
      s.log <= t.log && Trace(w, t.cache, t.log, s.active) && Kept(w, t.cache, t.log, s.active)
      && (Open(w, req.url) ==> Tried(t.log, req.url))
    decreases w.env.urls - s.active, 0, 0
  {
    var url := req.url;
    var s0 := s.(active := s.active + {url});
    PageIs(w, parent, s, req);
    var headers := w.env.tweak(req, if parent.Some? then Some(parent.value.request) else None);
    if headers.Some? {
      if Settled(w.env, s.cache, url) {
        TraceSnoc(w, s.cache, s.log, s.active, Reused(url));
        KeptSnoc(w, s.cache, s.log, s.active, Reused(url));
      } else {
        var task := Task(parent, Request(url, headers.value));
        RenewTraces(w, task, s0, r);
      }
    }
  }

  lemma {:induction false} FetchTraces(w: Start, task: Task, s: State, t: State)
    requires Sub(w, task, s) && AllTried(s.log, s.active - {task.request.url})
    requires t == s.(clock := s.clock + 1, log := s.log + [Fetched(task.request.url)])
    ensures Sub(w, task, t) && AllTried(t.log, t.active) && AllTried(t.log, {task.request.url}) && s.log <= t.log
  {
    TraceSnoc(w, s.cache, s.log, s.active, Fetched(task.request.url));
    KeptSnoc(w, s.cache, s.log, s.active, Fetched(task.request.url));
    TriedLater(s.log, t.log, s.active - {task.request.url});
    assert Tried(t.log, task.request.url);
  }

  /** The page of the URL is done: nothing is left open but what was before. */
  ghost predicate Leaves(w: Start, s: State, url: Url, t: State) {
    s.log <= t.log && Trace(w, t.cache, t.log, s.active - {url}) && Tried(t.log, url)
    && Kept(w, t.cache, t.log, s.active - {url})
  }

  /** The same before the exchange of the page is stored. */
  ghost predicate Almost(w: Start, s: State, url: Url, t: State) {
    s.log <= t.log && Trace(w, t.cache, t.log, s.active - {url}) && Tried(t.log, url)
    && Kept(w, t.cache, t.log, s.active)
  }

  /** What is Good about the page, as the run sees it now. */
  ghost predicate Judged(w: Start, url: Url, reply: Reply) {
    Calm(w.env) ==> (Good(w, url) <==> PageOk(w.env, url, reply) && Accepted(w.env, url, [], 0))
  }

  lemma {:induction false} RenewTraces(w: Start, task: Task, s: State, r: Res)
    requires Sub(w, task, s) && task.request.url == r.requestURL && !Settled(w.env, s.cache, r.requestURL)
    requires AllTried(s.log, s.active - {r.requestURL})
    requires Page(w, r.requestURL) == Opened(w.env, r.requestURL, w.env.fetch(task.request, s.clock))
    requires Judged(w, r.requestURL, w.env.fetch(task.request, s.clock))
    ensures Leaves(w, s, r.requestURL, Renew(w.env, task, s, r).0)
    decreases w.env.urls - s.active, 4, 0
  {
    var url := r.requestURL;
    var reply := w.env.fetch(task.request, s.clock);
    var s1 := s.(clock := s.clock + 1, log := s.log + [Fetched(url)]);
    FetchTraces(w, task, s, s1);
    RenewUnfold(w.env, task, s, r);
    if reply.NoReply? || IsRedirect(reply.status) {
      TraceDone(w, s1.cache, s1.log, s1.active, url);
      assert Leaves(w, s, url, s1);
    } else {
      var r1 := r.(physicalURL := Some(w.env.physical(url, reply.body)));
      CreateExchangeTraces(w, task, s1, r1, reply);
      var (s2, r2, made) := CreateExchange(w.env, task, s1, r1, reply.body);
      TriedLater(s1.log, s2.log, {url});
      assert Almost(w, s, url, s2);
      SealsExactly(w, task, s1, r1, reply);
      FinishTraces(w, s, s2, r2, made, reply);
    }
  }

  /** On a calm web the page becomes an exchange exactly when it is fine and accepted. */
  ghost predicate Seals(w: Start, url: Url, made: Made, reply: Reply) {
    Calm(w.env) ==>
      (made.Success? && w.env.hash(made.exchange).Some? <==>
        PageOk(w.env, url, reply) && Accepted(w.env, url, [], 0))
  }

  lemma {:induction false} SealsExactly(w: Start, task: Task, s: State, r: Res, reply: Reply)
    requires Closed(w.env) && s.active == Ancestors(Some(task)) <= w.env.urls
    requires reply.Reply? && !IsRedirect(reply.status)
    requires r.physicalURL == Some(w.env.physical(task.request.url, reply.body))
    ensures Seals(w, task.request.url, CreateExchange(w.env, task, s, r, reply.body).2, reply)
  {
    var url := task.request.url;
    var links := CreateExchangeIsolated(w.env, task, s, r, reply.body);
    var (t, _, made) := CreateExchange(w.env, task, s, r, reply.body);
    if Calm(w.env) && Ready(w.env, w.env.physical(url, reply.body), reply.body) {
      assert SteadySigner(w.env, url);
      assert Accepted(w.env, url, links, t.clock - 1) == Accepted(w.env, url, [], 0);
    }
  }

  lemma {:induction false} FinishTraces(w: Start, s0: State, s: State, r: Res, made: Made, reply: Reply)
    requires Almost(w, s0, r.requestURL, s) && Judged(w, r.requestURL, reply)
    requires made.Success? ==> w.env.verify(made.exchange)
    requires Seals(w, r.requestURL, made, reply)
    ensures Leaves(w, s0, r.requestURL, Finish(w.env, s, r, made).0)
  {
    var url := r.requestURL;
    var active := s0.active - {url};
    if made.Success? && w.env.hash(made.exchange).Some? {
      var r' := SetExchange(w.env, r, made.exchange).value;
      TraceStore(w, s.cache, s.log, active, r');
      TraceSnoc(w, s.cache[url := r'], s.log, active, Stored(url, made.exchange));
      TriedLater(s.log, s.log + [Stored(url, made.exchange)], {url});
      assert Kept(w, s.cache[url := r'], s.log, active);
      KeptSnoc(w, s.cache[url := r'], s.log, active, Stored(url, made.exchange));
    }
  }

  lemma {:induction false} CreateExchangeTraces(w: Start, task: Task, s: State, r: Res, reply: Reply)
    requires Sub(w, task, s) && AllTried(s.log, s.active) && !Settled(w.env, s.cache, task.request.url)
    requires reply.Reply? && !IsRedirect(reply.status)
    requires r.requestURL == task.request.url
    requires r.physicalURL == Some(w.env.physical(task.request.url, reply.body))
    requires Page(w, task.request.url) == Opened(w.env, task.request.url, reply)
    ensures var (t, r', made) := CreateExchange(w.env, task, s, r, reply.body);
      s.log <= t.log && Trace(w, t.cache, t.log, s.active - {task.request.url}) && r'.requestURL == r.requestURL
      && Kept(w, t.cache, t.log, s.active) && (made.Success? ==> w.env.verify(made.exchange))
    decreases w.env.urls - s.active, 3, 1
  {
    var url := task.request.url;
    var specs := w.env.process(reply.body);
    if Page(w, url).Some? {
      FreshInWorld(w.env, specs.value);
      PackageTraces(w, task, s, FreshPreloads(specs.value));
    } else {
      TraceDone(w, s.cache, s.log, s.active, url);
    }
  }

  lemma {:induction false} PackageTraces(w: Start, task: Task, s: State, ps: seq<Preload>)
    requires Sub(w, task, s) && AllTried(s.log, s.active) && InWorld(w.env, ps)
    requires Open(w, task.request.url) && Asked(w.env, ps) == Page(w, task.request.url).value
    ensures var (t, made) := PackagePreloads(w.env, task, s, ps);
      s.log <= t.log && Trace(w, t.cache, t.log, s.active - {task.request.url})
      && Kept(w, t.cache, t.log, s.active) && (made.Success? ==> w.env.verify(made.exchange))
    decreases w.env.urls - s.active, 3, 0
  {
    RunPreloadsTraces(w, task, s, ps);
    var t := RunPreloads(w.env, task, s, ps).0;
    TraceDone(w, t.cache, t.log, t.active, task.request.url);
  }

  lemma {:induction false} RunPreloadsTraces(w: Start, task: Task, s: State, ps: seq<Preload>)
    requires Sub(w, task, s) && AllTried(s.log, s.active) && InWorld(w.env, ps)
    requires Open(w, task.request.url) && Asked(w.env, ps) <= Page(w, task.request.url).value
    ensures var t := RunPreloads(w.env, task, s, ps).0;
      s.log <= t.log && Trace(w, t.cache, t.log, t.active) && Kept(w, t.cache, t.log, t.active)
      && AllHandled(w, t.log, Asked(w.env, ps))
    decreases w.env.urls - s.active, 2, |ps|
  {
    if ps != [] {
      var rs := ps[0].resources;
      RunResourcesTraces(w, task, s, rs);
      ResourcesOk(w.env, task, s, rs);
      var (s1, _, ok) := RunResources(w.env, task, s, rs);
      if ok {
        TriedLater(s.log, s1.log, s.active);
        RunPreloadsTraces(w, task, s1, ps[1..]);
        HandledLater(w, s1.log, RunPreloads(w.env, task, s1, ps[1..]).0.log, AskedIn(w.env, rs));
      }
    }
  }

  lemma {:induction false} RunResourcesTraces(w: Start, task: Task, s: State, rs: seq<Res>)
    requires Sub(w, task, s) && AllTried(s.log, s.active) && ResourcesInWorld(w.env, rs)
    requires Open(w, task.request.url) && AskedIn(w.env, rs) <= Page(w, task.request.url).value
    ensures var t := RunResources(w.env, task, s, rs).0;
      s.log <= t.log && Trace(w, t.cache, t.log, t.active) && Kept(w, t.cache, t.log, t.active)
      && AllHandled(w, t.log, AskedIn(w.env, rs))
    decreases w.env.urls - s.active, 1, |rs|
  {
    if rs != [] && w.env.requestable(rs[0].requestURL) {
      var v := rs[0].requestURL;
      assert v in AskedIn(w.env, rs);
      assert Leads(w, task.request.url, v);
      RunTraces(w, Some(task), s, Request(v, map[]), rs[0]);
      var s1 := Run(w.env, Some(task), s, Request(v, map[]), rs[0]).0;
      TriedLater(s.log, s1.log, s.active);
      RunResourcesTraces(w, task, s1, rs[1..]);
      HandledLater(w, s1.log, RunResources(w.env, task, s1, rs[1..]).0.log, {v});
    }
  }

  // ---- Whole runs ----

  lemma {:induction false} WholeRun(w: Start)
    requires Closed(w.env) && Steady(w.env) && w.req.url in w.env.urls
    ensures var t := RunForRequest(w.env, w.cache, w.req).0;
      Trace(w, t.cache, t.log, {}) && Kept(w, t.cache, t.log, {})
      && (Open(w, w.req.url) ==> Tried(t.log, w.req.url))
  {
    var s := StartState(w.cache);
    assert Trace(w, s.cache, s.log, s.active);
    RunTraces(w, None, s, w.req, NewResource(w.req.url));
  }

  /** Along a walk from the main URL every open page was fetched. */
  lemma {:induction false} WalkTried(w: Start, t: State, path: seq<Url>, i: nat)
    requires Trace(w, t.cache, t.log, {}) && (Open(w, w.req.url) ==> Tried(t.log, w.req.url))
    requires Walk(w, path) && i < |path| - 1
    ensures Tried(t.log, path[i]) && Handled(w, t.log, path[i + 1])
    decreases i
  {
    assert Leads(w, path[i], path[i + 1]);
    if i > 0 { WalkTried(w, t, path, i - 1); }
    assert Expanded(w, t.log, path[i]);
  }

  /** A steady run meets the main URL again exactly when that URL lies on a cycle of open pages. */
  lemma {:induction false} LoopExactlyOnCycle(w: Start)
    requires Closed(w.env) && Steady(w.env) && w.req.url in w.env.urls
    ensures LoopMet(w, RunForRequest(w.env, w.cache, w.req).0.log) <==> OnCycle(w)
  {
    WholeRun(w);
    var t := RunForRequest(w.env, w.cache, w.req).0;
    if OnCycle(w) {
      var path :| |path| >= 2 && Walk(w, path) && path[|path| - 1] == w.req.url;
      WalkTried(w, t, path, |path| - 2);
    }
  }

  /** The whole outcome: after a run on a steady and calm web, the usable cache entries are exactly
      those that were there before and the good pages that the main URL reaches through open ones. */
  lemma {:induction false} CacheOutcome(w: Start, u: Url)
    requires Closed(w.env) && Steady(w.env) && Calm(w.env) && w.req.url in w.env.urls
    ensures Settled(w.env, RunForRequest(w.env, w.cache, w.req).0.cache, u) <==>
      Settled(w.env, w.cache, u) || (Reaches(w, u) && Good(w, u))
  {
    WholeRun(w);
    var t := RunForRequest(w.env, w.cache, w.req).0;
    if !Settled(w.env, w.cache, u) && Reaches(w, u) && Good(w, u) {
      GoodIsOpen(w, u);
      var path :| Walk(w, path) && path[|path| - 1] == u;
      if |path| > 1 { WalkTried(w, t, path, |path| - 2); }
      assert Tried(t.log, u);
    }
  }

  lemma {:induction false} GoodIsOpen(w: Start, u: Url)
    requires Good(w, u)
    ensures Page(w, u).Some?
  {
  }

  lemma {:induction false} MainOutcome(w: Start)
    requires Closed(w.env) && w.req.url in w.env.urls && CacheOk(w.env, w.cache)
    requires SteadySigner(w.env, w.req.url)
    ensures Verified(w.env, RunForRequest(w.env, w.cache, w.req).1) <==>
      if Settled(w.env, w.cache, w.req.url) then w.env.tweak(w.req, None).Some? else Good(w, w.req.url)
  {
    var env, url := w.env, w.req.url;
    var s, r := StartState(w.cache), NewResource(url);
    var s0 := s.(active := s.active + {url});
    var headers := env.tweak(w.req, None);
    RunForRequestKeeps(env, w.cache, w.req);
    assert Ancestors(None) == {};
    if headers.Some? && !Settled(env, w.cache, url) {
      var task := Task(None, Request(url, headers.value));
      assert Ancestors(Some(task)) == {url};
      assert Impartial(env, url);
      SubresourcesCannotFailTheirParent(env, task, s0, r);
    }
    var (s1, r1, err) := RunTask(env, None, s0, w.req, r);
    RunUnfold(env, None, s, w.req, r, s1, r1, err);
  }

  /** What the handler serves, on the web and the cache before the call: a usable cache entry, or a
      page that is fine, is accepted by the signer and does not lie on a cycle of open pages. */
  lemma {:induction false} HandlerServesExactlyOffCycles(w: Start)
    requires Closed(w.env) && w.req.url in w.env.urls && CacheOk(w.env, w.cache)
    requires Steady(w.env) && SteadySigner(w.env, w.req.url)
    ensures ErrorFilter.HandlerError(RunForRequest(w.env, w.cache, w.req).0, w.req.url).None? <==>
      if Settled(w.env, w.cache, w.req.url) then w.env.tweak(w.req, None).Some? else Good(w, w.req.url) && !OnCycle(w)
  {
    ErrorFilter.HandlerServesExactly(w.env, w.cache, w.req);
    LoopExactlyOnCycle(w);
    MainOutcome(w);
    if Settled(w.env, w.cache, w.req.url) && OnCycle(w) {
      var path :| |path| >= 2 && Walk(w, path) && path[|path| - 1] == w.req.url;
      assert Leads(w, path[0], path[1]);
    }
  }

  // ---- Two pages that preload each other ----

  const HOME := "/"
  const OTHER := "/b"

  function Spec(u: Url): PreloadSpec { PreloadSpec(Link(u, map[]), [u]) }

  function MutualWeb(): Env {
    Env({HOME, OTHER}, {HOME, OTHER}, false,
        (q, p) => Some(map[]), (q: Request, n) => Reply(200, None, if q.url == HOME then 0 else 1), (u, b) => u,
        b => Some([Spec(if b == 0 then OTHER else HOME)]), (u, b) => Some(u),
        u => true, (u, ls, n) => Some(0), e => true, e => Some("x"))
  }

  lemma {:induction false} AskedOne(env: Env, u: Url)
    requires env.requestable(u)
    ensures Asked(env, FreshPreloads([Spec(u)])) == {u}
  {
    var specs := [Spec(u)];
    var rs := FreshResources([u]);
    assert specs[1..] == [] && FreshPreloads(specs) == [Preload(Link(u, map[]), rs)] + [];
    assert rs == [NewResource(u)] && rs[1..] == [];
    var ps := FreshPreloads(specs);
    assert ps[1..] == [] && ps[0].resources == rs;
    assert AskedIn(env, rs) == {u};
  }

  /** The page is packaged and verified, and not served, because another page asks for it. */
  lemma {:induction false} MutualPreloadExample()
    ensures var env, req := MutualWeb(), Request(HOME, map[]);
      Closed(env) && Steady(env) && var (t, r) := RunForRequest(env, map[], req);
      Verified(env, r) && ErrorFilter.HandlerError(t, HOME).Some?
  {
    var env, req := MutualWeb(), Request(HOME, map[]);
    var w := Start(env, map[], req);
    forall body ensures SpecsInWorld(env, env.process(body).value) {
      assert env.process(body).value == [Spec(if body == 0 then OTHER else HOME)];
    }
    AskedOne(env, HOME);
    AskedOne(env, OTHER);
    assert HOME != OTHER;
    assert Page(w, HOME) == Some({OTHER}) && Page(w, OTHER) == Some({HOME});
    var path := [HOME, OTHER, HOME];
    assert Leads(w, path[0], path[1]) && Leads(w, path[1], path[2]);
    assert Walk(w, path);
    assert env.process(0).value == [Spec(OTHER)];
    assert PageOk(env, HOME, Reply(200, None, 0));
    MainOutcome(w);
    HandlerServesExactlyOffCycles(w);
  }
}
