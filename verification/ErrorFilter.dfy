/** `filterError` and the tail of `handleDocImpl` in `server/handler.go`. */
module ErrorFilter {
  import opened Text
  import opened Packaging
  import opened Engine
  import opened HttpLink
  import opened EngineTheorems

  /** An error value: a `webpackager.Error`, a `multierror.Error`, or any other error. */
  datatype Err = Tagged(error: TaskError) | Multi(errors: seq<Err>) | Foreign(id: nat)

  /** `filterError` dereferences a nil accumulator on an empty multierror. */
  predicate NonEmpty(e: Err)
    decreases e
  {
    e.Multi? ==> e.errors != [] && forall i :: 0 <= i < |e.errors| ==> NonEmpty(e.errors[i])
  }

  predicate Matches(e: Err, url: Url) {
    e.Foreign? || (e.Tagged? && e.error.url == url)
  }

  /** The matching leaves of an error tree, left to right. */
  function Kept(e: Err, url: Url): seq<Err>
    decreases e, 0
  {
    match e
    case Multi(es) => KeptAll(es, url)
    case _ => if Matches(e, url) then [e] else []
  }

  function KeptAll(es: seq<Err>, url: Url): seq<Err>
    decreases es, 1
  {
    if es == [] then [] else Kept(es[0], url) + KeptAll(es[1..], url)
  }

  /** A list of errors as one error value: none, the single one, or a multierror. */
  function Collapse(es: seq<Err>): Option<Err> {
    if es == [] then None else if |es| == 1 then Some(es[0]) else Some(Multi(es))
  }

  /** `multierror.Append`: nil adds nothing and a multierror is flattened. */
  function Append(acc: seq<Err>, e: Option<Err>): seq<Err> {
    match e
    case None => acc
    case Some(Multi(es)) => acc + es
    case Some(x) => acc + [x]
  }

  lemma {:induction false} KeptAreLeaves(e: Err, url: Url)
    ensures forall i :: 0 <= i < |Kept(e, url)| ==> !Kept(e, url)[i].Multi? && Matches(Kept(e, url)[i], url)
    decreases e, 0
  {
    if e.Multi? { KeptAllAreLeaves(e.errors, url); }
  }

  lemma {:induction false} KeptAllAreLeaves(es: seq<Err>, url: Url)
    ensures forall i :: 0 <= i < |KeptAll(es, url)| ==> !KeptAll(es, url)[i].Multi? && Matches(KeptAll(es, url)[i], url)
    decreases es, 1
  {
    if es != [] {
      KeptAreLeaves(es[0], url);
      KeptAllAreLeaves(es[1..], url);
    }
  }

  /** A leaf of the tree: not a multierror itself, and at any depth. */
  predicate Leaf(x: Err, e: Err)
    decreases e
  {
    match e
    case Multi(es) => exists i :: 0 <= i < |es| && Leaf(x, es[i])
    case _ => x == e
  }

  /** What is kept: of the errors with a URL those with this one, and all others. */
  predicate Concerns(x: Err, url: Url) {
    match x
    case Tagged(error) => error.url == url
    case Foreign(_) => true
    case Multi(_) => false
  }

  /** Exactly the leaves that concern the URL are kept. */
  lemma {:induction false} KeptExactly(e: Err, url: Url, x: Err)
    ensures x in Kept(e, url) <==> Leaf(x, e) && Concerns(x, url)
    decreases e, 0
  {
    if e.Multi? { KeptAllExactly(e.errors, url, x); }
  }

  lemma {:induction false} KeptAllExactly(es: seq<Err>, url: Url, x: Err)
    ensures x in KeptAll(es, url) <==> Concerns(x, url) && exists i :: 0 <= i < |es| && Leaf(x, es[i])
    decreases es, 1
  {
    if es != [] {
      KeptExactly(es[0], url, x);
      KeptAllExactly(es[1..], url, x);
      assert forall i :: 0 < i < |es| ==> es[i] == es[1..][i - 1];
      if exists i :: 0 <= i < |es[1..]| && Leaf(x, es[1..][i]) {
        var i :| 0 <= i < |es[1..]| && Leaf(x, es[1..][i]);
        assert Leaf(x, es[i + 1]);
      }
    }
  }

  lemma {:induction false} KeptAllSnoc(es: seq<Err>, e: Err, url: Url)
    ensures KeptAll(es + [e], url) == KeptAll(es, url) + Kept(e, url)
    decreases |es|
  {
    if es == [] {
      assert es + [e] == [e] && [e][1..] == [];
    } else {
      assert (es + [e])[1..] == es[1..] + [e];
      KeptAllSnoc(es[1..], e, url);
    }
  }

  /** `filterError`: exactly the matching leaves survive, in order. */
  method FilterError(err: Err, url: Url) returns (r: Option<Err>)
    requires NonEmpty(err)
    ensures r == Collapse(Kept(err, url))
    decreases err
  {
    match err
    case Tagged(e) =>
      r := if e.url == url then Some(err) else None;
    case Foreign(_) =>
      r := Some(err);
    case Multi(es) =>
      var acc: seq<Err> := [];
      var i := 0;
      while i < |es|
        invariant i <= |es|
        invariant acc == KeptAll(es[..i], url)
      {
        var e := FilterError(es[i], url);
        KeptAreLeaves(es[i], url);
        KeptAllSnoc(es[..i], es[i], url);
        assert es[..i + 1] == es[..i] + [es[i]];
        acc := Append(acc, e);
        i := i + 1;
      }
      assert es[..i] == es;
      r := Collapse(acc);
  }

  // ---- The error tree of a run ----

  function Tags(errs: seq<TaskError>): (es: seq<Err>)
    ensures |es| == |errs| && forall i :: 0 <= i < |errs| ==> es[i] == Tagged(errs[i])
  {
    seq(|errs|, i requires 0 <= i < |errs| => Tagged(errs[i]))
  }

  /** `runner.err()`: nil when nothing failed. */
  function RunError(s: State): Option<Err> {
    if s.errs == [] then None else Some(Multi(Tags(s.errs)))
  }

  /** What `handleDocImpl` makes of that error: nil lets it serve the exchange. */
  function HandlerError(s: State, url: Url): Option<Err> {
    if RunError(s).None? then None else Collapse(Kept(RunError(s).value, url))
  }

  lemma {:induction false} KeptTags(errs: seq<TaskError>, url: Url)
    ensures KeptAll(Tags(errs), url) == [] <==> forall i :: 0 <= i < |errs| ==> errs[i].url != url
    decreases |errs|
  {
    if errs != [] {
      KeptTags(errs[1..], url);
      assert Tags(errs)[1..] == Tags(errs[1..]);
      assert errs == [errs[0]] + errs[1..];
    }
  }

  lemma {:induction false} ErrorsFromLog(log: seq<Event>, url: Url)
    ensures (forall i :: 0 <= i < |ErrorsOf(log)| ==> ErrorsOf(log)[i].url != url)
       <==> (forall i :: 0 <= i < |log| && log[i].Ran? && log[i].url == url ==> log[i].error.None?)
    decreases |log|
  {
    if log != [] {
      var n := |log| - 1;
      ErrorsFromLog(log[..n], url);
      var a, b := ErrorsOf(log[..n]), ErrorsOf(log);
      assert |a| <= |b| && forall i :: 0 <= i < |a| ==> b[i] == a[i];
      assert |b| > |a| ==> b[|a|] == TaskError(log[n].url, log[n].error.value);
    }
  }

  /** The handler finds no error exactly when the main resource was packaged and verified and no
      subresource pointed back to it. */
  lemma {:induction false} HandlerServesExactly(env: Env, cache: map<Url, Res>, req: Request)
    requires Closed(env) && req.url in env.urls && CacheOk(env, cache)
    ensures var (t, r) := RunForRequest(env, cache, req);
      HandlerError(t, req.url).None? <==>
        Verified(env, r) && Ran(req.url, Some(ReferenceLoop)) !in t.log
  {
    RunForRequestKeeps(env, cache, req);
    var (t, r) := RunForRequest(env, cache, req);
    var n := |t.log| - 1;
    KeptTags(t.errs, req.url);
    ErrorsFromLog(t.log, req.url);
    MainLoops(env, cache, req);
    assert Verified(env, r) <==> t.log[n].error.None?;
    assert (forall i :: 0 <= i < |t.log| && t.log[i].Ran? && t.log[i].url == req.url ==> t.log[i].error.None?)
      <==> (t.log[n].error.None? && Ran(req.url, Some(ReferenceLoop)) !in t.log);
  }

  /** Nested calls on the main URL can only fail as reference loops. */
  lemma {:induction false} MainLoops(env: Env, cache: map<Url, Res>, req: Request)
    requires Closed(env) && req.url in env.urls && CacheOk(env, cache)
    ensures var log := RunForRequest(env, cache, req).0.log;
      && log != [] && log[|log| - 1].Ran? && log[|log| - 1].url == req.url
      && log[|log| - 1].error != Some(ReferenceLoop)
      && forall i :: 0 <= i < |log| - 1 && log[i].Ran? && log[i].url == req.url ==> log[i].error == Some(ReferenceLoop)
    ensures var log := RunForRequest(env, cache, req).0.log;
      forall i :: 0 <= i < |log| - 1 && log[i].Ran? ==> log[i].url in env.targets
  {
    var s0 := StartState(cache).(active := {req.url});
    var r := NewResource(req.url);
    assert Ancestors(None) == {} && {} + {req.url} == {req.url};
    assert StartState(cache).active + {req.url} == {req.url};
    RunTaskKeeps(env, None, s0, req, r);
    RunTaskNoLoop(env, None, s0, req, r);
    var (s1, r1, err) := RunTask(env, None, s0, req, r);
    assert LoopsOnly(s0.active, s0.log, s1.log);
    var t := RunForRequest(env, cache, req).0;
    assert t.log == s1.log + [Ran(req.url, err)];
  }

  /** On a web where no page preloads the main URL, the handler serves exactly the packaged main
      resources: failures of subresources never show. */
  lemma {:induction false} HandlerServesAcyclicMain(env: Env, cache: map<Url, Res>, req: Request)
    requires Closed(env) && req.url in env.urls && CacheOk(env, cache) && req.url !in env.targets
    ensures var (t, r) := RunForRequest(env, cache, req);
      HandlerError(t, req.url).None? <==> Verified(env, r)
  {
    HandlerServesExactly(env, cache, req);
    MainLoops(env, cache, req);
    var t := RunForRequest(env, cache, req).0;
    assert t.log[|t.log| - 1] != Ran(req.url, Some(ReferenceLoop));
  }

  // ---- A page that preloads itself ----

  lemma {:induction false} LoopLogged(env: Env, task: Task, s: State, rs: seq<Res>, u: Url, j: nat)
    requires Closed(env) && ResourcesInWorld(env, rs) && ResourcesNew(rs) && Requestable(env, rs)
    requires s.active == Ancestors(Some(task)) <= env.urls
    requires Inv(env, s) && u in s.active && j < |rs| && rs[j].requestURL == u
    ensures Ran(u, Some(ReferenceLoop)) in RunResources(env, task, s, rs).0.log
    decreases |rs|
  {
    var req := Request(rs[0].requestURL, map[]);
    RunKeeps(env, Some(task), s, req, rs[0]);
    var s1 := Run(env, Some(task), s, req, rs[0]).0;
    RunResourcesKeeps(env, task, s1, rs[1..]);
    var s2 := RunResources(env, task, s1, rs[1..]).0;
    if j == 0 {
      assert s1.log[|s.log|] == s2.log[|s.log|] == Ran(u, Some(ReferenceLoop));
    } else {
      LoopLogged(env, task, s1, rs[1..], u, j - 1);
    }
  }

  lemma {:induction false} LoopLoggedInPreloads(
      env: Env, task: Task, s: State, ps: seq<Preload>, u: Url, i: nat, j: nat)
    requires Closed(env) && InWorld(env, ps) && AllNew(ps)
    requires forall k :: 0 <= k < |ps| ==> Requestable(env, ps[k].resources)
    requires s.active == Ancestors(Some(task)) <= env.urls
    requires Inv(env, s) && u in s.active
    requires i < |ps| && j < |ps[i].resources| && ps[i].resources[j].requestURL == u
    ensures Ran(u, Some(ReferenceLoop)) in RunPreloads(env, task, s, ps).0.log
    decreases |ps|
  {
    ResourcesOk(env, task, s, ps[0].resources);
    RunResourcesKeeps(env, task, s, ps[0].resources);
    var s1 := RunResources(env, task, s, ps[0].resources).0;
    RunPreloadsKeeps(env, task, s1, ps[1..]);
    if i == 0 {
      LoopLogged(env, task, s, ps[0].resources, u, j);
      assert s1.log <= RunPreloads(env, task, s1, ps[1..]).0.log;
      Prefix(s1.log, RunPreloads(env, task, s1, ps[1..]).0.log, Ran(u, Some(ReferenceLoop)));
    } else {
      LoopLoggedInPreloads(env, task, s1, ps[1..], u, i - 1, j);
    }
  }

  lemma {:induction false} Prefix(l: seq<Event>, m: seq<Event>, ev: Event)
    requires l <= m && ev in l
    ensures ev in m
  {
    var i :| 0 <= i < |l| && l[i] == ev;
    assert m[i] == ev;
  }

  lemma {:induction false} FreshTargets(specs: seq<PreloadSpec>, i: nat)
    requires i < |specs|
    ensures |FreshPreloads(specs)| == |specs|
    ensures FreshPreloads(specs)[i].resources == FreshResources(specs[i].targets)
    decreases |specs|
  {
    if i > 0 { FreshTargets(specs[1..], i - 1); }
    else if |specs| > 1 { FreshTargets(specs[1..], 0); }
  }

  lemma {:induction false} SelfLoopLogged(env: Env, task: Task, s: State, r: Res, i: nat, j: nat)
    requires Closed(env) && task.request.url == r.requestURL && IsNew(r)
    requires s.active == Ancestors(Some(task)) <= env.urls && Inv(env, s)
    requires !Settled(env, s.cache, r.requestURL)
    requires var reply := env.fetch(task.request, s.clock);
      PageOk(env, r.requestURL, reply) && i < |env.process(reply.body).value|
      && j < |env.process(reply.body).value[i].targets| && env.process(reply.body).value[i].targets[j] == r.requestURL
    ensures Ran(r.requestURL, Some(ReferenceLoop)) in Renew(env, task, s, r).0.log
  {
    var url := r.requestURL;
    var reply := env.fetch(task.request, s.clock);
    var specs := env.process(reply.body).value;
    var ps := FreshPreloads(specs);
    var s1 := s.(clock := s.clock + 1, log := s.log + [Fetched(url)]);
    FetchStep(env, s, url);
    FreshInWorld(env, specs);
    FreshAreNew(specs);
    FreshRequestable(env, specs);
    FreshTargets(specs, i);
    PreloadsOk(env, task, s1, ps);
    LoopLoggedInPreloads(env, task, s1, ps, url, i, j);
    var s2 := RunPreloads(env, task, s1, ps).0;
    var r1 := r.(physicalURL := Some(env.physical(url, reply.body)));
    var (s3, r3, made) := CreateExchange(env, task, s1, r1, reply.body);
    assert s3 == PackagePreloads(env, task, s1, ps).0;
    var t := Renew(env, task, s, r).0;
    assert t == Finish(env, s3, r3, made).0;
    Prefix(s2.log, t.log, Ran(url, Some(ReferenceLoop)));
  }

  /** The main exchange of a page that lists itself is produced and verified, and yet the handler
      finds an error and does not serve it. */
  lemma {:induction false} SelfPreloadIsNotServed(env: Env, cache: map<Url, Res>, req: Request, i: nat, j: nat)
    requires Closed(env) && req.url in env.urls && CacheOk(env, cache) && Signs(env, req.url)
    requires !Settled(env, cache, req.url) && env.tweak(req, None).Some?
    requires var reply := env.fetch(Request(req.url, env.tweak(req, None).value), 0);
      PageOk(env, req.url, reply) && i < |env.process(reply.body).value|
      && j < |env.process(reply.body).value[i].targets| && env.process(reply.body).value[i].targets[j] == req.url
    ensures var (t, r) := RunForRequest(env, cache, req);
      Verified(env, r) && HandlerError(t, req.url).Some?
  {
    var url := req.url;
    var s0 := StartState(cache).(active := {url});
    var task := Task(None, Request(url, env.tweak(req, None).value));
    assert Ancestors(Some(task)) == {url} by { assert Ancestors(None) == {}; }
    assert StartState(cache).active + {url} == {url};
    SelfLoopLogged(env, task, s0, NewResource(url), i, j);
    assert Impartial(env, url);
    SubresourcesCannotFailTheirParent(env, task, s0, NewResource(url));
    var (s1, r1, err) := Renew(env, task, s0, NewResource(url));
    assert err.None?;
    assert RunTask(env, None, s0, req, NewResource(url)) == (s1, r1, err);
    var (t, r) := RunForRequest(env, cache, req);
    assert t.log == s1.log + [Ran(url, err)];
    HandlerServesExactly(env, cache, req);
    RunForRequestKeeps(env, cache, req);
  }

  /** A web of one page that lists itself. */
  function SelfPreloadingWeb(): Env {
    Env({"/"}, {"/"}, false,
        (q, p) => Some(map[]), (q, n) => Reply(200, None, 0), (u, b) => u,
        b => Some([PreloadSpec(Link("/", map[]), ["/"])]), (u, b) => Some(u),
        u => true, (u, ls, n) => Some(0), e => true, e => Some("x"))
  }

  lemma {:induction false} SelfPreloadExample()
    ensures Closed(SelfPreloadingWeb())
    ensures var (t, r) := RunForRequest(SelfPreloadingWeb(), map[], Request("/", map[]));
      Verified(SelfPreloadingWeb(), r) && HandlerError(t, "/").Some?
  {
    var env := SelfPreloadingWeb();
    var specs := [PreloadSpec(Link("/", map[]), ["/"])];
    assert SpecsInWorld(env, specs);
    SelfPreloadIsNotServed(env, map[], Request("/", map[]), 0, 0);
  }
}
