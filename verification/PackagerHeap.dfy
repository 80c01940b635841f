/** The packaging engine in its own form: Resource objects shared through pointers, a cache of
    such pointers, and a runner whose fields are updated in place. Every method is proved to
    compute what the value-level engine computes. */
module PackagerHeap {
  import opened Text
  import opened HttpLink
  import opened Packaging
  import opened Engine
  import EngineTheorems

  class Resource {
    var requestURL: Url
    var redirectURL: Option<Url>
    var physicalURL: Option<Url>
    var validityURL: Option<Url>
    var exchange: Option<Exchange>
    var integrity: string

    ghost function View(): Res
      reads this
    {
      Res(requestURL, redirectURL, physicalURL, validityURL, exchange, integrity)
    }

    constructor (url: Url)
      ensures View() == NewResource(url)
    {
      requestURL, redirectURL, physicalURL, validityURL := url, None, None, None;
      exchange, integrity := None, "";
    }

    /** Does not touch the resource when the header hash fails. */
    method SetExchange(env: Env, e: Exchange) returns (ok: bool)
      modifies this
      ensures var r := Engine.SetExchange(env, old(View()), e);
        ok == r.Some? && View() == if ok then r.value else old(View())
    {
      var h := env.hash(e);
      ok := h.Some?;
      if ok {
        exchange := Some(e);
        integrity := "sha256-" + h.value;
      }
    }

    /** `*r = *cached`. */
    method CopyFrom(cached: Resource)
      modifies this
      ensures View() == old(cached.View())
    {
      requestURL, redirectURL, physicalURL, validityURL :=
        cached.requestURL, cached.redirectURL, cached.physicalURL, cached.validityURL;
      exchange, integrity := cached.exchange, cached.integrity;
    }
  }

  datatype PreloadRef = PreloadRef(link: Link, resources: seq<Resource>)

  /** The objects hold these values. */
  ghost predicate Holds(rs: seq<Resource>, vs: seq<Res>)
    reads rs
  {
    |rs| == |vs| && forall i :: 0 <= i < |rs| ==> rs[i].View() == vs[i]
  }

  /** `refs` covers the resource objects of the preloads. */
  ghost predicate Within(ps: seq<PreloadRef>, refs: set<Resource>) {
    forall i, r :: 0 <= i < |ps| && r in ps[i].resources ==> r in refs
  }

  ghost predicate HoldsAll(ps: seq<PreloadRef>, vs: seq<Preload>, refs: set<Resource>)
    requires Within(ps, refs)
    reads refs
  {
    |ps| == |vs| && forall i :: 0 <= i < |ps| ==> HoldsPreload(ps[i], vs[i])
  }

  /** The first `i` preloads hold their results, the others their initial values. */
  ghost predicate HoldsSplit(ps: seq<PreloadRef>, done: seq<Preload>, v0: seq<Preload>, i: nat, refs: set<Resource>)
    requires Within(ps, refs)
    reads refs
  {
    |done| == i <= |ps| == |v0| && forall k :: 0 <= k < |ps| ==> HoldsPreload(ps[k], if k < i then done[k] else v0[k])
  }

  ghost predicate HoldsPreload(p: PreloadRef, v: Preload)
    reads p.resources
  {
    p.link == v.link && Holds(p.resources, v.resources)
  }

  ghost predicate Distinct(rs: seq<Resource>) {
    forall i, j :: 0 <= i < j < |rs| ==> rs[i] != rs[j]
  }

  /** No object occurs twice. */
  ghost predicate Separate(ps: seq<PreloadRef>) {
    && (forall i :: 0 <= i < |ps| ==> Distinct(ps[i].resources))
    && (forall i, j, r :: 0 <= i < j < |ps| && r in ps[i].resources ==> r !in ps[j].resources)
  }

  lemma {:induction false} Apart(ps: seq<PreloadRef>, i: nat, k: nat)
    requires Separate(ps) && i < |ps| && k < |ps| && i != k
    ensures forall r :: r in ps[k].resources ==> r !in ps[i].resources
  {
  }

  lemma {:induction false} Splice<T>(a: seq<T>, b: seq<T>)
    requires |a| <= |b|
    ensures |a + b[|a|..]| == |b|
    ensures forall k :: 0 <= k < |b| ==> (a + b[|a|..])[k] == if k < |a| then a[k] else b[k]
  {
  }

  /** One new object per target URL. */
  method NewResources(targets: seq<Url>) returns (rs: seq<Resource>, ghost refs: set<Resource>)
    ensures fresh(refs) && Distinct(rs) && forall r :: r in rs ==> r in refs
    ensures Holds(rs, FreshResources(targets))
  {
    rs, refs := [], {};
    for i := 0 to |targets|
      invariant i == |rs|
      invariant fresh(refs) && Distinct(rs) && forall r :: r in rs ==> r in refs
      invariant forall k :: 0 <= k < i ==> rs[k].View() == NewResource(targets[k])
    {
      var r := new Resource(targets[i]);
      rs, refs := rs + [r], refs + {r};
    }
  }

  method NewPreloads(specs: seq<PreloadSpec>) returns (ps: seq<PreloadRef>, ghost refs: set<Resource>)
    ensures fresh(refs) && Separate(ps) && Within(ps, refs)
    ensures HoldsAll(ps, FreshPreloads(specs), refs)
    decreases |specs|
  {
    if specs == [] {
      return [], {};
    }
    var tail, tailRefs := NewPreloads(specs[1..]);
    var rs, headRefs := NewResources(specs[0].targets);
    var p := PreloadRef(specs[0].link, rs);
    SeparateCons(p, tail, tailRefs);
    ps, refs := [p] + tail, tailRefs + headRefs;
    ghost var vs := FreshPreloads(specs);
    forall i | 0 <= i < |ps|
      ensures HoldsPreload(ps[i], vs[i])
    {
      assert i > 0 ==> ps[i] == tail[i - 1] && vs[i] == FreshPreloads(specs[1..])[i - 1];
    }
  }

  lemma {:induction false} SeparateCons(p: PreloadRef, ps: seq<PreloadRef>, refs: set<Resource>)
    requires Separate(ps) && Within(ps, refs) && Distinct(p.resources)
    requires forall r :: r in p.resources ==> r !in refs
    ensures Separate([p] + ps)
  {
  }

  /** The inner loop of `GetFullHeader`; `containsAlt` tells whether it added a line. */
  method AltLinesOf(rs: seq<Resource>, ghost vs: seq<Res>) returns (lines: seq<LinkLine>, containsAlt: bool)
    requires Holds(rs, vs)
    ensures lines == AltLines(vs) && containsAlt == (lines != [])
  {
    lines, containsAlt := [], false;
    for j := 0 to |rs|
      invariant lines == AltLines(vs[..j]) && containsAlt == (lines != [])
    {
      assert vs[..j + 1] == vs[..j] + [vs[j]];
      AltLinesSnoc(vs[..j], vs[j]);
      if rs[j].integrity != "" {
        containsAlt := true;
        lines := lines + [AllowedAlt(rs[j].requestURL, rs[j].integrity)];
      }
    }
    assert vs[..|rs|] == vs;
  }

  /** The outer loop of `GetFullHeader`. */
  method LinkLinesOf(keep: bool, ps: seq<PreloadRef>, ghost vs: seq<Preload>, ghost refs: set<Resource>)
    returns (lines: seq<LinkLine>)
    requires Within(ps, refs) && HoldsAll(ps, vs, refs)
    ensures lines == LinkLines(keep, vs)
  {
    lines := [];
    for i := 0 to |ps|
      invariant HoldsAll(ps, vs, refs)
      invariant lines == LinkLines(keep, vs[..i])
    {
      assert HoldsPreload(ps[i], vs[i]);
      var alt, containsAlt := AltLinesOf(ps[i].resources, vs[i].resources);
      assert vs[..i + 1] == vs[..i] + [vs[i]];
      LinkLinesSnoc(keep, vs[..i], vs[i]);
      lines := lines + (alt + if containsAlt || keep then [PreloadLine(ps[i].link)] else []);
    }
    assert vs[..|ps|] == vs;
  }

  class Runner {
    const env: Env
    var active: set<Url>
    var errs: seq<TaskError>
    var cache: map<Url, Resource>
    var clock: nat
    ghost var log: seq<Event>

    constructor (env: Env, cache: map<Url, Resource>)
      ensures this.env == env && this.cache == cache
      ensures active == {} && errs == [] && clock == 0 && log == []
    {
      this.env, this.cache := env, cache;
      active, errs, clock, log := {}, [], 0, [];
    }

    ghost predicate NotCached(o: Resource)
      reads this`cache
    {
      forall u :: u in cache ==> cache[u] != o
    }

    /** The entry of the URL is the object it was before the call. */
    twostate predicate WasCached(u: Url)
      reads this`cache
    {
      u in cache && u in old(cache) && cache[u] == old(cache[u])
    }

    ghost function CacheView(): map<Url, Res>
      reads this`cache, cache.Values
    {
      map u | u in cache :: cache[u].View()
    }

    ghost function View(): State
      reads this, cache.Values
    {
      State(active, errs, CacheView(), clock, log)
    }

    /** `packagerTaskRunner.run`. */
    method Run(parent: Option<Task>, req: Request, r: Resource)
      requires Closed(env) && req.url == r.requestURL && req.url in env.urls
      requires active == Ancestors(parent) <= env.urls
      requires NotCached(r)
      modifies this, r
      ensures (View(), r.View()) == Engine.Run(env, parent, old(View()), req, old(r.View()))
      ensures forall u :: u in cache ==> WasCached(u) || cache[u] == r || fresh(cache[u])
      decreases env.urls - active, 0, 0
    {
      var url := r.requestURL;
      var err: Option<Cause>;
      if url in active {
        err := Some(ReferenceLoop);
      } else {
        active := active + {url};
        assert View() == old(View()).(active := old(active) + {url});
        err := RunTask(parent, req, r);
        RunUnfold(env, parent, old(View()), req, old(r.View()), View(), r.View(), err);
        active := active - {url};
      }
      Report(url, err);
    }

    /** Records how a call ended. */
    method Report(url: Url, err: Option<Cause>)
      modifies this`errs, this`log
      ensures View() == Engine.Report(old(View()), url, err)
    {
      if err.Some? {
        errs := errs + [TaskError(url, err.value)];
      }
      log := log + [Ran(url, err)];
      assert CacheView() == old(CacheView());
    }

    /** `packagerTask.run`. */
    method RunTask(parent: Option<Task>, req: Request, r: Resource) returns (err: Option<Cause>)
      requires Closed(env) && req.url == r.requestURL && req.url in env.urls
      requires active == Ancestors(parent) + {req.url} <= env.urls
      requires NotCached(r)
      modifies this, r
      ensures (View(), r.View(), err) == Engine.RunTask(env, parent, old(View()), req, old(r.View()))
      ensures forall u :: u in cache ==> WasCached(u) || cache[u] == r || fresh(cache[u])
      decreases env.urls - active, 5, 0
    {
      var headers := env.tweak(req, if parent.Some? then Some(parent.value.request) else None);
      if headers.None? {
        return Some(TweakFailed);
      }
      var task := Task(parent, Request(req.url, headers.value));
      if req.url in cache {
        var cached := cache[req.url];
        if cached.exchange.Some? && env.verify(cached.exchange.value) {
          r.CopyFrom(cached);
          assert CacheView() == old(CacheView());
          log := log + [Reused(req.url)];
          return None;
        }
      }
      err := Renew(task, r);
    }

    /** The rest of `packagerTask.run`, after the cache lookup. */
    method Renew(task: Task, r: Resource) returns (err: Option<Cause>)
      requires Closed(env) && task.request.url == r.requestURL
      requires active == Ancestors(Some(task)) <= env.urls
      requires NotCached(r)
      modifies this, r
      ensures (View(), r.View(), err) == Engine.Renew(env, task, old(View()), old(r.View()))
      ensures forall u :: u in cache ==> WasCached(u) || cache[u] == r || fresh(cache[u])
      decreases env.urls - active, 4, 0
    {
      var url := r.requestURL;
      var reply := env.fetch(task.request, clock);
      clock, log := clock + 1, log + [Fetched(url)];
      if reply.NoReply? {
        return Some(FetchFailed);
      }
      if reply.status in {301, 302, 303, 307, 308} {
        if reply.location.None? {
          return Some(LocationMissing);
        }
        r.redirectURL := reply.location;
        return Some(Redirected(reply.location.value));
      }
      r.physicalURL := Some(env.physical(url, reply.body));
      assert CacheView() == old(CacheView());
      var made := CreateExchange(task, r, reply.body);
      err := Finish(r, made);
    }

    /** `SetExchange` and `ResourceCache.Store`: the cache keeps the pointer itself. */
    method Finish(r: Resource, made: Made) returns (err: Option<Cause>)
      requires NotCached(r)
      modifies this, r
      ensures (View(), r.View(), err) == Engine.Finish(env, old(View()), old(r.View()), made)
      ensures active == old(active)
      ensures forall u :: u in cache ==> WasCached(u) || cache[u] == r
    {
      if made.Failure? {
        return Some(made.cause);
      }
      var ok := r.SetExchange(env, made.exchange);
      assert CacheView() == old(CacheView());
      if !ok {
        return Some(HashFailed);
      }
      cache := cache[r.requestURL := r];
      assert CacheView() == old(CacheView())[r.requestURL := r.View()];
      log := log + [Stored(r.requestURL, made.exchange)];
      assert View() == Store(old(View()), r.View(), made.exchange);
      err := None;
    }

    /** `packagerTask.createExchange`. */
    method CreateExchange(task: Task, r: Resource, body: nat) returns (made: Made)
      requires Closed(env) && r.physicalURL.Some?
      requires active == Ancestors(Some(task)) <= env.urls
      requires NotCached(r)
      modifies this, r
      ensures (View(), r.View(), made) == Engine.CreateExchange(env, task, old(View()), old(r.View()), body)
      ensures forall u :: u in cache ==> WasCached(u) || fresh(cache[u])
      decreases env.urls - active, 3, 1
    {
      var specs := env.process(body);
      if specs.None? {
        return Failure(ProcessFailed);
      }
      var vu := env.validity(r.physicalURL.value, body);
      if vu.None? {
        return Failure(ValidityFailed);
      }
      r.validityURL := vu;
      assert CacheView() == old(CacheView());
      made := PackagePreloads(task, specs.value);
    }

    /** The rest of `createExchange`: runs the preloads, then signs and verifies. */
    method PackagePreloads(task: Task, specs: seq<PreloadSpec>) returns (made: Made)
      requires Closed(env) && SpecsInWorld(env, specs)
      requires active == Ancestors(Some(task)) <= env.urls
      modifies this
      ensures InWorld(env, FreshPreloads(specs))
      ensures (View(), made) == Engine.PackagePreloads(env, task, old(View()), FreshPreloads(specs))
      ensures forall u :: u in cache ==> WasCached(u) || fresh(cache[u])
      decreases env.urls - active, 3, 0
    {
      FreshInWorld(env, specs);
      var ok, links, vs := RunNewPreloads(task, specs);
      PackageUnfold(env, task, old(View()), FreshPreloads(specs), View(), vs, ok);
      if !ok {
        return Failure(BadRequest);
      }
      var url := task.request.url;
      var seal := env.sign(url, links, clock);
      clock := clock + 1;
      if seal.None? {
        return Failure(SignFailed);
      }
      var e := Exchange(url, links, seal.value);
      if !env.verify(e) {
        return Failure(VerifyFailed);
      }
      made := Success(e);
    }

    /** Creates the preloads of a response, runs them and collects their Link lines. */
    method RunNewPreloads(task: Task, specs: seq<PreloadSpec>)
      returns (ok: bool, links: seq<LinkLine>, ghost vs: seq<Preload>)
      requires Closed(env) && InWorld(env, FreshPreloads(specs))
      requires active == Ancestors(Some(task)) <= env.urls
      modifies this
      ensures (View(), vs, ok) == Engine.RunPreloads(env, task, old(View()), FreshPreloads(specs))
      ensures ok ==> links == LinkLines(env.keepNonSXG, vs)
      ensures forall u :: u in cache ==> WasCached(u) || fresh(cache[u])
      decreases env.urls - active, 2, 1
    {
      var ps, refs := NewPreloads(specs);
      assert CacheView() == old(CacheView());
      links := [];
      ok, vs := RunPreloads(task, ps, FreshPreloads(specs), refs);
      if ok {
        ghost var c := CacheView();
        links := LinkLinesOf(env.keepNonSXG, ps, vs, refs);
        assert CacheView() == c;
      }
    }

    /** The outer loop, over the preloads. */
    method RunPreloads(task: Task, ps: seq<PreloadRef>, ghost v0: seq<Preload>, ghost refs: set<Resource>)
      returns (ok: bool, ghost v1: seq<Preload>)
      requires Closed(env) && InWorld(env, v0)
      requires active == Ancestors(Some(task)) <= env.urls
      requires Within(ps, refs) && HoldsAll(ps, v0, refs) && Separate(ps) && forall o :: o in refs ==> NotCached(o)
      modifies this, refs
      ensures HoldsAll(ps, v1, refs)
      ensures (View(), v1, ok) == Engine.RunPreloads(env, task, old(View()), v0)
      ensures forall u :: u in cache ==> WasCached(u) || cache[u] in refs || fresh(cache[u])
      decreases env.urls - active, 2, 0
    {
      ghost var s0, st, done: seq<Preload> := View(), View(), [];
      PreloadsStart(env, task, s0, v0);
      for i := 0 to |ps|
        invariant st == View() && active == Ancestors(Some(task))
        invariant |done| == i && HoldsSplit(ps, done, v0, i, refs) && NoneCached(ps, i)
        invariant forall u :: u in cache ==> WasCached(u) || cache[u] in refs || fresh(cache[u])
        invariant PreloadsAt(env, task, s0, v0, i, st, done)
      {
        ghost var vs;
        ok, vs := RunPreload(task, ps, i, done, v0, refs);
        PreloadsStep(env, task, s0, v0, i, st, done, View(), vs, ok);
        done, st := done + [Preload(ps[i].link, vs)], View();
        if !ok {
          v1 := done + v0[i + 1..];
          Splice(done, v0);
          assert HoldsAll(ps, v1, refs);
          return;
        }
      }
      PreloadsEnd(env, task, s0, v0, st, done);
      ok, v1 := true, done;
    }

    /** None of the resources from the `i`-th preload on is in the cache. */
    ghost predicate NoneCached(ps: seq<PreloadRef>, i: nat)
      reads this`cache
    {
      forall k, o :: i <= k < |ps| && o in ps[k].resources ==> NotCached(o)
    }

    /** One iteration: the objects of the other preloads keep their values. */
    method RunPreload(
        task: Task, ps: seq<PreloadRef>, i: nat,
        ghost done: seq<Preload>, ghost v0: seq<Preload>, ghost refs: set<Resource>)
      returns (ok: bool, ghost vs: seq<Res>)
      requires Closed(env) && InWorld(env, v0) && i < |ps|
      requires active == Ancestors(Some(task)) <= env.urls
      requires Within(ps, refs) && Separate(ps) && HoldsSplit(ps, done, v0, i, refs) && NoneCached(ps, i)
      modifies this, ps[i].resources
      ensures HoldsSplit(ps, done + [Preload(ps[i].link, vs)], v0, i + 1, refs) && NoneCached(ps, i + 1)
      ensures (View(), vs, ok) == Engine.RunResources(env, task, old(View()), v0[i].resources)
      ensures forall u :: u in cache ==> WasCached(u) || cache[u] in ps[i].resources || fresh(cache[u])
      decreases env.urls - active, 1, 2
    {
      assert HoldsPreload(ps[i], v0[i]);
      ok, vs := RunResources(task, ps[i].resources, v0[i].resources);
      forall k | 0 <= k < |ps| && k != i
        ensures HoldsPreload(ps[k], if k < i then done[k] else v0[k])
      {
        Apart(ps, i, k);
        var rs := ps[k].resources;
        assert old(HoldsPreload(ps[k], if k < i then done[k] else v0[k]));
        forall m | 0 <= m < |rs|
          ensures rs[m].View() == old(rs[m].View())
        {
          assert rs[m] in rs && rs[m] !in ps[i].resources;
          assert unchanged(rs[m]);
        }
      }
      forall k, o | i + 1 <= k < |ps| && o in ps[k].resources
        ensures NotCached(o)
      {
        Apart(ps, i, k);
        assert old(NotCached(o));
      }
    }

    /** The inner loop, over the resources of one preload. */
    method RunResources(task: Task, rs: seq<Resource>, ghost v0: seq<Res>) returns (ok: bool, ghost v1: seq<Res>)
      requires Closed(env) && Holds(rs, v0) && ResourcesInWorld(env, v0)
      requires active == Ancestors(Some(task)) <= env.urls
      requires Distinct(rs) && forall o :: o in rs ==> NotCached(o)
      modifies this, rs
      ensures Holds(rs, v1)
      ensures (View(), v1, ok) == Engine.RunResources(env, task, old(View()), v0)
      ensures forall u :: u in cache ==> WasCached(u) || cache[u] in rs || fresh(cache[u])
      decreases env.urls - active, 1, 1
    {
      ghost var s0, st, done: seq<Res> := View(), View(), [];
      ResourcesStart(env, task, s0, v0);
      for i := 0 to |rs|
        invariant st == View() && active == Ancestors(Some(task))
        invariant |done| == i && ResourcesSplit(rs, done, v0, i)
        invariant forall u :: u in cache ==> WasCached(u) || cache[u] in rs || fresh(cache[u])
        invariant ResourcesAt(env, task, s0, v0, i, st, done)
      {
        if !env.requestable(rs[i].requestURL) {
          ResourcesEnd(env, task, s0, v0, i, st, done);
          v1 := done + v0[i..];
          Splice(done, v0);
          return false, v1;
        }
        ghost var r := RunResource(task, rs, i, done, v0);
        ResourcesStep(env, task, s0, v0, i, st, done, View(), r);
        done, st := done + [r], View();
      }
      ResourcesEnd(env, task, s0, v0, |v0|, st, done);
      assert v0[|v0|..] == [] && done + [] == done;
      ok, v1 := true, done;
    }

    /** The first `i` resources hold their results; the others are untouched and not cached. */
    ghost predicate ResourcesSplit(rs: seq<Resource>, done: seq<Res>, v0: seq<Res>, i: nat)
      reads this`cache, rs
    {
      |done| == i <= |rs| == |v0|
      && (forall k :: 0 <= k < i ==> rs[k].View() == done[k])
      && (forall k :: i <= k < |rs| ==> rs[k].View() == v0[k] && NotCached(rs[k]))
    }

    /** One iteration of the inner loop. */
    method RunResource(task: Task, rs: seq<Resource>, i: nat, ghost done: seq<Res>, ghost v0: seq<Res>)
      returns (ghost r: Res)
      requires Closed(env) && ResourcesInWorld(env, v0) && i < |rs|
      requires active == Ancestors(Some(task)) <= env.urls
      requires Distinct(rs) && ResourcesSplit(rs, done, v0, i)
      modifies this, rs[i]
      ensures ResourcesSplit(rs, done + [r], v0, i + 1)
      ensures (View(), r) == Engine.Run(env, Some(task), old(View()), Request(v0[i].requestURL, map[]), v0[i])
      ensures forall u :: u in cache ==> WasCached(u) || cache[u] == rs[i] || fresh(cache[u])
      decreases env.urls - active, 1, 0
    {
      Run(Some(task), Request(rs[i].requestURL, map[]), rs[i]);
      r := rs[i].View();
      forall k | 0 <= k < |rs| && k != i
        ensures rs[k].View() == old(rs[k].View())
        ensures k > i ==> NotCached(rs[k])
      {
        assert rs[k] != rs[i];
        assert unchanged(rs[k]);
        assert k > i ==> old(NotCached(rs[k]));
      }
    }
  }

  /** `Packager.RunForRequest`: a new runner over the packager's cache, a new Resource, one run.
      The objects end up exactly as the value-level run says, so its theorems hold of them. */
  method RunForRequest(env: Env, cache: map<Url, Resource>, req: Request) returns (runner: Runner, r: Resource)
    requires Closed(env) && req.url in env.urls
    ensures fresh(runner) && fresh(r) && runner.env == env
    ensures var start := map u | u in cache :: old(cache[u].View());
      && (runner.View(), r.View()) == EngineTheorems.RunForRequest(env, start, req)
      && (EngineTheorems.CacheOk(env, start) ==> EngineTheorems.Inv(env, runner.View()))
  {
    runner := new Runner(env, cache);
    r := new Resource(req.url);
    ghost var start := map u | u in cache :: old(cache[u].View());
    assert runner.CacheView() == start;
    runner.Run(None, req, r);
    if EngineTheorems.CacheOk(env, start) {
      EngineTheorems.RunForRequestKeeps(env, start, req);
    }
  }
}
