/** Resources, preloads and the Link header lines written for them: `resource`, `resource/preload`
    and `exchange/response.go`, on values. */
module Packaging {
  import opened Text
  import opened HttpLink

  type Url = string

  /** A signed exchange: the URL it answers, the Link lines it carries, and everything else
      (payload, validity period, signature) as one opaque number. */
  datatype Exchange = Exchange(url: Url, links: seq<LinkLine>, seal: nat)

  /** A Link line added by `GetFullHeader`. */
  datatype LinkLine = AllowedAlt(url: Url, integrity: string) | PreloadLine(link: Link)

  datatype Res = Res(
    requestURL: Url, redirectURL: Option<Url>, physicalURL: Option<Url>, validityURL: Option<Url>,
    exchange: Option<Exchange>, integrity: string)

  datatype Preload = Preload(link: Link, resources: seq<Res>)

  function NewResource(url: Url): Res {
    Res(url, None, None, None, None, "")
  }

  /** The Link lines of one preload: an allowed-alt-sxg line per packaged resource, then the
      preload itself if one of them was packaged or non-SXG preloads are kept. */
  function AltLines(rs: seq<Res>): seq<LinkLine>
    decreases |rs|
  {
    if rs == [] then []
    else (if rs[0].integrity != "" then [AllowedAlt(rs[0].requestURL, rs[0].integrity)] else [])
         + AltLines(rs[1..])
  }

  function LinkLines(keep: bool, ps: seq<Preload>): seq<LinkLine>
    decreases |ps|
  {
    if ps == [] then []
    else
      var alt := AltLines(ps[0].resources);
      alt + (if alt != [] || keep then [PreloadLine(ps[0].link)] else []) + LinkLines(keep, ps[1..])
  }

  lemma {:induction false} AltLinesSnoc(rs: seq<Res>, r: Res)
    ensures AltLines(rs + [r]) ==
      AltLines(rs) + (if r.integrity != "" then [AllowedAlt(r.requestURL, r.integrity)] else [])
    decreases |rs|
  {
    if rs == [] {
      assert rs + [r] == [r];
    } else {
      assert (rs + [r])[1..] == rs[1..] + [r];
      AltLinesSnoc(rs[1..], r);
    }
  }

  lemma {:induction false} LinkLinesSnoc(keep: bool, ps: seq<Preload>, p: Preload)
    ensures var alt := AltLines(p.resources);
      LinkLines(keep, ps + [p]) ==
        LinkLines(keep, ps) + (alt + if alt != [] || keep then [PreloadLine(p.link)] else [])
    decreases |ps|
  {
    if ps == [] {
      assert ps + [p] == [p];
    } else {
      assert (ps + [p])[1..] == ps[1..] + [p];
      LinkLinesSnoc(keep, ps[1..], p);
    }
  }

  /** The resources of each preload are requested at the URL of its link. */
  ghost predicate OwnURLs(ps: seq<Preload>) {
    forall i, j :: 0 <= i < |ps| && 0 <= j < |ps[i].resources| ==> ps[i].resources[j].requestURL == ps[i].link.url
  }

  ghost predicate AnnouncedAt(links: seq<LinkLine>, i: nat)
    requires i < |links| && links[i].PreloadLine?
  {
    exists j :: 0 <= j < i && links[j].AllowedAlt? && links[j].url == links[i].link.url && links[j].integrity != ""
  }

  /** Every preload line comes after an allowed-alt-sxg line for its URL. */
  ghost predicate Announced(links: seq<LinkLine>) {
    forall i :: 0 <= i < |links| && links[i].PreloadLine? ==> AnnouncedAt(links, i)
  }

  lemma {:induction false} AltLinesAre(rs: seq<Res>, url: Url)
    requires forall j :: 0 <= j < |rs| ==> rs[j].requestURL == url
    ensures forall k :: 0 <= k < |AltLines(rs)| ==>
      AltLines(rs)[k].AllowedAlt? && AltLines(rs)[k].url == url && AltLines(rs)[k].integrity != ""
    decreases |rs|
  {
    if rs != [] { AltLinesAre(rs[1..], url); }
  }

  lemma {:induction false} AnnouncedConcat(a: seq<LinkLine>, b: seq<LinkLine>)
    requires Announced(a) && Announced(b)
    ensures Announced(a + b)
  {
    var c := a + b;
    forall i | 0 <= i < |c| && c[i].PreloadLine?
      ensures AnnouncedAt(c, i)
    {
      if i < |a| {
        assert AnnouncedAt(a, i);
        var j :| 0 <= j < i && a[j].AllowedAlt? && a[j].url == a[i].link.url && a[j].integrity != "";
        assert c[j] == a[j];
      } else {
        assert AnnouncedAt(b, i - |a|);
        var j :| 0 <= j < i - |a| && b[j].AllowedAlt? && b[j].url == c[i].link.url && b[j].integrity != "";
        assert c[j + |a|] == b[j];
      }
    }
  }

  /** Unless non-SXG preloads are kept, no preload is written without its allowed-alt-sxg line. */
  lemma {:induction false} LinkLinesAnnounced(ps: seq<Preload>)
    requires OwnURLs(ps)
    ensures Announced(LinkLines(false, ps))
    decreases |ps|
  {
    if ps != [] {
      var alt := AltLines(ps[0].resources);
      var own: seq<LinkLine> := if alt != [] then [PreloadLine(ps[0].link)] else [];
      AltLinesAre(ps[0].resources, ps[0].link.url);
      var both := alt + own;
      forall i | 0 <= i < |both| && both[i].PreloadLine?
        ensures AnnouncedAt(both, i)
      {
        assert both[0] == alt[0];
      }
      LinkLinesAnnounced(ps[1..]);
      AnnouncedConcat(alt + own, LinkLines(false, ps[1..]));
    }
  }
}

/** The packaging engine of `task.go` as a function of its state. The web, the processors, the
    signer and the verifier are parameters; the web and the signer may answer differently at
    every call. */
module Engine {
  import opened Text
  import opened HttpLink
  import opened Packaging

  type Headers = map<string, string>
  datatype Request = Request(url: Url, headers: Headers)

  datatype Reply =
    | NoReply
    | Reply(status: int, location: Option<Url>, body: nat)

  /** What a processor asks to preload: a link and the URLs of its resources. */
  datatype PreloadSpec = PreloadSpec(link: Link, targets: seq<Url>)

  datatype Cause =
    | ReferenceLoop | TweakFailed | FetchFailed | LocationMissing | Redirected(dest: Url)
    | ProcessFailed | ValidityFailed | BadRequest | SignFailed | VerifyFailed | HashFailed

  datatype TaskError = TaskError(url: Url, cause: Cause)

  datatype Env = Env(
    urls: set<Url>,                                            // the URLs a run may reach
    targets: set<Url>,                                         // those some page preloads
    keepNonSXG: bool,
    tweak: (Request, Option<Request>) -> Option<Headers>,      // RequestTweaker.Tweak
    fetch: (Request, nat) -> Reply,                            // FetchClient.Do
    physical: (Url, nat) -> Url,                               // PhysicalURLRule.Rewrite
    process: nat -> Option<seq<PreloadSpec>>,                  // NewResponse, Processor.Process
    validity: (Url, nat) -> Option<Url>,                       // ValidityURLRule.Apply
    requestable: Url -> bool,                                  // newGetRequest
    sign: (Url, seq<LinkLine>, nat) -> Option<nat>,            // Factory.NewExchange
    verify: Exchange -> bool,                                  // Factory.Verify at the run's date
    hash: Exchange -> Option<string>                           // DumpExchangeHeaders, SHA-256, base64
  )

  /** The web is finite and closed under preloads. */
  ghost predicate Closed(env: Env) {
    env.targets <= env.urls && forall body :: env.process(body).Some? ==> SpecsInWorld(env, env.process(body).value)
  }

  ghost predicate SpecsInWorld(env: Env, specs: seq<PreloadSpec>) {
    forall i, u :: 0 <= i < |specs| && u in specs[i].targets ==> u in env.targets
  }

  datatype Event = Fetched(url: Url) | Reused(url: Url) | Stored(url: Url, exchange: Exchange)
                 | Ran(url: Url, error: Option<Cause>)

  datatype State = State(
    active: set<Url>, errs: seq<TaskError>, cache: map<Url, Res>, clock: nat, log: seq<Event>)

  /** A `packagerTask`: its request and the packagerTask that spawned it. */
  datatype Task = Task(parent: Option<Task>, request: Request)

  function Ancestors(t: Option<Task>): set<Url>
    decreases t
  {
    match t
    case None => {}
    case Some(task) => {task.request.url} + Ancestors(task.parent)
  }

  predicate IsRedirect(status: int) {
    status == 301 || status == 302 || status == 303 || status == 307 || status == 308
  }

  /** `Resource.SetExchange`. */
  function SetExchange(env: Env, r: Res, e: Exchange): Option<Res> {
    if env.hash(e).None? then None
    else Some(r.(exchange := Some(e), integrity := "sha256-" + env.hash(e).value))
  }

  function FreshPreloads(specs: seq<PreloadSpec>): seq<Preload>
    decreases |specs|
  {
    if specs == [] then []
    else [Preload(specs[0].link, FreshResources(specs[0].targets))] + FreshPreloads(specs[1..])
  }

  function FreshResources(targets: seq<Url>): (rs: seq<Res>)
    ensures |rs| == |targets| && forall i :: 0 <= i < |rs| ==> rs[i] == NewResource(targets[i])
    decreases |targets|
  {
    if targets == [] then [] else [NewResource(targets[0])] + FreshResources(targets[1..])
  }

  ghost predicate InWorld(env: Env, ps: seq<Preload>) {
    forall i :: 0 <= i < |ps| ==> ResourcesInWorld(env, ps[i].resources)
  }

  ghost predicate ResourcesInWorld(env: Env, rs: seq<Res>) {
    forall j :: 0 <= j < |rs| ==> rs[j].requestURL in env.targets
  }

  lemma {:induction false} FreshInWorld(env: Env, specs: seq<PreloadSpec>)
    requires SpecsInWorld(env, specs)
    ensures InWorld(env, FreshPreloads(specs))
    decreases |specs|
  {
    if specs != [] {
      FreshInWorld(env, specs[1..]);
    }
  }

  // ---- The engine ----

  /** `packagerTaskRunner.run`. */
  ghost function Run(env: Env, parent: Option<Task>, s: State, req: Request, r: Res): (o: (State, Res))
    requires Closed(env) && req.url == r.requestURL && req.url in env.urls
    requires s.active == Ancestors(parent) <= env.urls
    ensures o.0.active == s.active
    decreases env.urls - s.active, 0, 0
  {
    var url := r.requestURL;
    if url in s.active then
      (Report(s, url, Some(ReferenceLoop)), r)
    else
      var (s', r', err) := RunTask(env, parent, s.(active := s.active + {url}), req, r);
      (Report(s'.(active := s'.active - {url}), url, err), r')
  }

  /** Ends a call of `run`: an error is wrapped with the URL and appended. */
  function Report(s: State, url: Url, err: Option<Cause>): State {
    s.(errs := if err.Some? then s.errs + [TaskError(url, err.value)] else s.errs,
       log := s.log + [Ran(url, err)])
  }

  /** `packagerTask.run`; `parent` is the parent of the packagerTask that runs. */
  ghost function RunTask(env: Env, parent: Option<Task>, s: State, req: Request, r: Res)
    : (o: (State, Res, Option<Cause>))
    requires Closed(env) && req.url == r.requestURL && req.url in env.urls
    requires s.active == Ancestors(parent) + {req.url} <= env.urls
    ensures o.0.active == s.active
    decreases env.urls - s.active, 5, 0
  {
    var headers := env.tweak(req, if parent.Some? then Some(parent.value.request) else None);
    if headers.None? then (s, r, Some(TweakFailed))
    else if req.url in s.cache && s.cache[req.url].exchange.Some?
            && env.verify(s.cache[req.url].exchange.value) then
      (s.(log := s.log + [Reused(req.url)]), s.cache[req.url], None)
    else
      Renew(env, Task(parent, Request(req.url, headers.value)), s, r)
  }

  /** The rest of `packagerTask.run`, when the cache has no usable entry. */
  ghost function Renew(env: Env, task: Task, s: State, r: Res): (o: (State, Res, Option<Cause>))
    requires Closed(env) && task.request.url == r.requestURL
    requires s.active == Ancestors(Some(task)) <= env.urls
    ensures o.0.active == s.active
    decreases env.urls - s.active, 4, 0
  {
    var url := r.requestURL;
    var reply := env.fetch(task.request, s.clock);
    var s1 := s.(clock := s.clock + 1, log := s.log + [Fetched(url)]);
    if reply.NoReply? then (s1, r, Some(FetchFailed))
    else if IsRedirect(reply.status) then
      if reply.location.None? then (s1, r, Some(LocationMissing))
      else (s1, r.(redirectURL := reply.location), Some(Redirected(reply.location.value)))
    else
      var r1 := r.(physicalURL := Some(env.physical(url, reply.body)));
      var (s2, r2, made) := CreateExchange(env, task, s1, r1, reply.body);
      Finish(env, s2, r2, made)
  }

  /** `SetExchange` and `ResourceCache.Store`. */
  function Finish(env: Env, s: State, r: Res, made: Made): (State, Res, Option<Cause>) {
    match made
    case Failure(cause) => (s, r, Some(cause))
    case Success(e) =>
      var r' := SetExchange(env, r, e);
      if r'.None? then (s, r, Some(HashFailed)) else (Store(s, r'.value, e), r'.value, None)
  }

  function Store(s: State, r: Res, e: Exchange): State {
    s.(cache := s.cache[r.requestURL := r], log := s.log + [Stored(r.requestURL, e)])
  }

  datatype Made = Success(exchange: Exchange) | Failure(cause: Cause)

  /** `packagerTask.createExchange`. */
  ghost function CreateExchange(env: Env, task: Task, s: State, r: Res, body: nat)
    : (o: (State, Res, Made))
    requires Closed(env) && r.physicalURL.Some?
    requires s.active == Ancestors(Some(task)) <= env.urls
    ensures o.0.active == s.active
    decreases env.urls - s.active, 3, 1
  {
    var specs := env.process(body);
    if specs.None? then (s, r, Failure(ProcessFailed))
    else
      var vu := env.validity(r.physicalURL.value, body);
      if vu.None? then (s, r, Failure(ValidityFailed))
      else
        FreshInWorld(env, specs.value);
        var (s', made) := PackagePreloads(env, task, s, FreshPreloads(specs.value));
        (s', r.(validityURL := vu), made)
  }

  /** The rest of `createExchange`: runs the preloads, then signs and verifies. */
  ghost function PackagePreloads(env: Env, task: Task, s: State, ps: seq<Preload>): (o: (State, Made))
    requires Closed(env) && InWorld(env, ps)
    requires s.active == Ancestors(Some(task)) <= env.urls
    ensures o.0.active == s.active
    decreases env.urls - s.active, 3, 0
  {
    var (s', ps', ok) := RunPreloads(env, task, s, ps);
    if !ok then (s', Failure(BadRequest))
    else
      (s'.(clock := s'.clock + 1),
       Seal(env, task.request.url, LinkLines(env.keepNonSXG, ps'), s'.clock))
  }

  /** `Factory.NewExchange`, then `Factory.Verify` at the run's date. */
  function Seal(env: Env, url: Url, links: seq<LinkLine>, clock: nat): Made {
    var seal := env.sign(url, links, clock);
    if seal.None? then Failure(SignFailed)
    else if env.verify(Exchange(url, links, seal.value)) then Success(Exchange(url, links, seal.value))
    else Failure(VerifyFailed)
  }

  /** The outer loop over the preloads; `ok` is false when no request could be made. */
  ghost function RunPreloads(env: Env, task: Task, s: State, ps: seq<Preload>)
    : (o: (State, seq<Preload>, bool))
    requires Closed(env) && InWorld(env, ps)
    requires s.active == Ancestors(Some(task)) <= env.urls
    ensures o.0.active == s.active
    decreases env.urls - s.active, 2, |ps|
  {
    if ps == [] then (s, [], true)
    else
      var (s1, rs, ok) := RunResources(env, task, s, ps[0].resources);
      var head := Preload(ps[0].link, rs);
      if !ok then (s1, [head] + ps[1..], false)
      else
        var (s2, tail, ok2) := RunPreloads(env, task, s1, ps[1..]);
        (s2, [head] + tail, ok2)
  }

  /** The inner loop over the resources of one preload. */
  ghost function RunResources(env: Env, task: Task, s: State, rs: seq<Res>)
    : (o: (State, seq<Res>, bool))
    requires Closed(env) && ResourcesInWorld(env, rs)
    requires s.active == Ancestors(Some(task)) <= env.urls
    ensures o.0.active == s.active
    decreases env.urls - s.active, 1, |rs|
  {
    if rs == [] then (s, [], true)
    else if !env.requestable(rs[0].requestURL) then (s, rs, false)
    else
      var (s1, r1) := Run(env, Some(task), s, Request(rs[0].requestURL, map[]), rs[0]);
      var (s2, tail, ok) := RunResources(env, task, s1, rs[1..]);
      (s2, [r1] + tail, ok)
  }

  // ---- Unfolding, one step at a time ----

  lemma {:induction false} RunUnfold(env: Env, parent: Option<Task>, s: State, req: Request, r: Res,
                                     s1: State, r1: Res, err: Option<Cause>)
    requires Closed(env) && req.url == r.requestURL && req.url in env.urls
    requires s.active == Ancestors(parent) <= env.urls && req.url !in s.active
    requires (s1, r1, err) == RunTask(env, parent, s.(active := s.active + {req.url}), req, r)
    ensures Run(env, parent, s, req, r) == (Report(s1.(active := s1.active - {req.url}), req.url, err), r1)
  {
  }

  lemma {:induction false} RenewUnfold(env: Env, task: Task, s: State, r: Res)
    requires Closed(env) && task.request.url == r.requestURL
    requires s.active == Ancestors(Some(task)) <= env.urls
    ensures var reply := env.fetch(task.request, s.clock);
      var s1 := s.(clock := s.clock + 1, log := s.log + [Fetched(r.requestURL)]);
      if reply.NoReply? || IsRedirect(reply.status) then Renew(env, task, s, r).0 == s1
      else
        var r1 := r.(physicalURL := Some(env.physical(r.requestURL, reply.body)));
        var (s2, r2, made) := CreateExchange(env, task, s1, r1, reply.body);
        Renew(env, task, s, r).0 == Finish(env, s2, r2, made).0
  {
  }

  lemma {:induction false} PackageUnfold(env: Env, task: Task, s: State, ps: seq<Preload>,
                                         s1: State, ps1: seq<Preload>, ok: bool)
    requires Closed(env) && InWorld(env, ps)
    requires s.active == Ancestors(Some(task)) <= env.urls
    requires (s1, ps1, ok) == RunPreloads(env, task, s, ps)
    ensures PackagePreloads(env, task, s, ps) ==
      if ok then (s1.(clock := s1.clock + 1), Seal(env, task.request.url, LinkLines(env.keepNonSXG, ps1), s1.clock))
      else (s1, Failure(BadRequest))
  {
  }

  function After<T>(done: seq<T>, o: (State, seq<T>, bool)): (State, seq<T>, bool) {
    (o.0, done + o.1, o.2)
  }

  lemma {:induction false} AfterAssoc<T>(done: seq<T>, x: T, o: (State, seq<T>, bool))
    ensures After(done, After([x], o)) == After(done + [x], o)
  {
    Assoc(done, [x], o.1);
  }

  lemma {:induction false} AfterNothing<T>(o: (State, seq<T>, bool))
    ensures After([], o) == o
  {
    assert [] + o.1 == o.1;
  }

  /** After `i` resources the run stands at `st` with the results `done`. */
  ghost predicate ResourcesAt(env: Env, task: Task, s0: State, v0: seq<Res>, i: nat, st: State, done: seq<Res>)
    requires Closed(env) && ResourcesInWorld(env, v0) && i <= |v0|
    requires s0.active == st.active == Ancestors(Some(task)) <= env.urls
  {
    RunResources(env, task, s0, v0) == After(done, RunResources(env, task, st, v0[i..]))
  }

  lemma {:induction false} ResourcesStart(env: Env, task: Task, s: State, v: seq<Res>)
    requires Closed(env) && ResourcesInWorld(env, v)
    requires s.active == Ancestors(Some(task)) <= env.urls
    ensures ResourcesAt(env, task, s, v, 0, s, [])
  {
    assert v[0..] == v;
    AfterNothing(RunResources(env, task, s, v));
  }

  lemma {:induction false} ResourcesStep(
      env: Env, task: Task, s0: State, v0: seq<Res>, i: nat, st: State, done: seq<Res>, s1: State, r1: Res)
    requires Closed(env) && ResourcesInWorld(env, v0) && i < |v0| && env.requestable(v0[i].requestURL)
    requires s0.active == st.active == Ancestors(Some(task)) <= env.urls
    requires ResourcesAt(env, task, s0, v0, i, st, done)
    requires (s1, r1) == Run(env, Some(task), st, Request(v0[i].requestURL, map[]), v0[i])
    ensures ResourcesAt(env, task, s0, v0, i + 1, s1, done + [r1])
  {
    assert v0[i..][0] == v0[i] && v0[i..][1..] == v0[i + 1..];
    AfterAssoc(done, r1, RunResources(env, task, s1, v0[i + 1..]));
  }

  /** Where the inner loop ends: at the first URL no request can be made for, or past the last. */
  lemma {:induction false} ResourcesEnd(
      env: Env, task: Task, s0: State, v0: seq<Res>, i: nat, st: State, done: seq<Res>)
    requires Closed(env) && ResourcesInWorld(env, v0) && i <= |v0|
    requires i < |v0| ==> !env.requestable(v0[i].requestURL)
    requires s0.active == st.active == Ancestors(Some(task)) <= env.urls
    requires ResourcesAt(env, task, s0, v0, i, st, done)
    ensures RunResources(env, task, s0, v0) == (st, done + v0[i..], i == |v0|)
  {
    if i < |v0| { assert v0[i..][0] == v0[i]; }
  }

  /** The same for the outer loop. */
  ghost predicate PreloadsAt(env: Env, task: Task, s0: State, v0: seq<Preload>, i: nat, st: State, done: seq<Preload>)
    requires Closed(env) && InWorld(env, v0) && i <= |v0|
    requires s0.active == st.active == Ancestors(Some(task)) <= env.urls
  {
    RunPreloads(env, task, s0, v0) == After(done, RunPreloads(env, task, st, v0[i..]))
  }

  lemma {:induction false} PreloadsStart(env: Env, task: Task, s: State, v: seq<Preload>)
    requires Closed(env) && InWorld(env, v)
    requires s.active == Ancestors(Some(task)) <= env.urls
    ensures PreloadsAt(env, task, s, v, 0, s, [])
  {
    assert v[0..] == v;
    AfterNothing(RunPreloads(env, task, s, v));
  }

  lemma {:induction false} PreloadsStep(
      env: Env, task: Task, s0: State, v0: seq<Preload>, i: nat, st: State, done: seq<Preload>,
      s1: State, rs: seq<Res>, ok: bool)
    requires Closed(env) && InWorld(env, v0) && i < |v0|
    requires s0.active == st.active == Ancestors(Some(task)) <= env.urls
    requires PreloadsAt(env, task, s0, v0, i, st, done)
    requires (s1, rs, ok) == RunResources(env, task, st, v0[i].resources)
    ensures var head := Preload(v0[i].link, rs);
      if ok then PreloadsAt(env, task, s0, v0, i + 1, s1, done + [head])
      else RunPreloads(env, task, s0, v0) == (s1, done + [head] + v0[i + 1..], false)
  {
    assert v0[i..][0] == v0[i] && v0[i..][1..] == v0[i + 1..];
    var head := Preload(v0[i].link, rs);
    if ok {
      AfterAssoc(done, head, RunPreloads(env, task, s1, v0[i + 1..]));
    } else {
      Assoc(done, [head], v0[i + 1..]);
    }
  }

  lemma {:induction false} PreloadsEnd(env: Env, task: Task, s0: State, v0: seq<Preload>, st: State, done: seq<Preload>)
    requires Closed(env) && InWorld(env, v0)
    requires s0.active == st.active == Ancestors(Some(task)) <= env.urls
    requires PreloadsAt(env, task, s0, v0, |v0|, st, done)
    ensures RunPreloads(env, task, s0, v0) == (st, done, true)
  {
    assert v0[|v0|..] == [] && done + [] == done;
  }
}
