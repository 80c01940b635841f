/** Which Link lines the exchanges of a run carry: on a web that does not change during the run,
    every subresource that can be packaged is announced, and nothing else is. */
module WebLinks {
  import opened Text
  import opened HttpLink
  import opened Packaging
  import opened Engine
  import opened EngineTheorems
  import opened WebCycles

  // ---- Pages with their preloads ----

  /** The preloads of a page, or None when it fails before it asks for any. */
  function SpecsSeen(env: Env, url: Url, reply: Reply): Option<seq<PreloadSpec>> {
    if reply.NoReply? || IsRedirect(reply.status) then None
    else if env.validity(env.physical(url, reply.body), reply.body).None? then None
    else env.process(reply.body)
  }

  function VisitSpecs(env: Env, req: Request, parent: Option<Request>, clock: nat): Option<seq<PreloadSpec>> {
    var headers := env.tweak(req, parent);
    if headers.None? then None else SpecsSeen(env, req.url, env.fetch(Request(req.url, headers.value), clock))
  }

  /** A subresource has the same preloads, and can be requested or not, whenever and by whomever it is
      requested. */
  ghost predicate SteadySpecs(env: Env) {
    && (forall u, p, q, m, n ::
          VisitSpecs(env, Request(u, map[]), Some(p), m) == VisitSpecs(env, Request(u, map[]), Some(q), n))
    && (forall u, p, q :: env.tweak(Request(u, map[]), Some(p)).Some? == env.tweak(Request(u, map[]), Some(q)).Some?)
  }

  lemma {:induction false} VisitIs(env: Env, req: Request, parent: Option<Request>, clock: nat)
    ensures var specs := VisitSpecs(env, req, parent, clock);
      Visit(env, req, parent, clock) == if specs.Some? then Some(Asked(env, FreshPreloads(specs.value))) else None
  {
  }

  lemma {:induction false} SteadySpecsAreSteady(env: Env)
    requires SteadySpecs(env)
    ensures Steady(env)
  {
    forall u, p, q, m, n
      ensures Visit(env, Request(u, map[]), Some(p), m) == Visit(env, Request(u, map[]), Some(q), n)
    {
      VisitIs(env, Request(u, map[]), Some(p), m);
      VisitIs(env, Request(u, map[]), Some(q), n);
      assert VisitSpecs(env, Request(u, map[]), Some(p), m) == VisitSpecs(env, Request(u, map[]), Some(q), n);
    }
  }

  function PageSpecs(w: Start, u: Url): Option<seq<PreloadSpec>> {
    if u == w.req.url then VisitSpecs(w.env, w.req, None, 0)
    else VisitSpecs(w.env, Request(u, map[]), Some(w.req), 0)
  }

  /** A subresource that can be packaged: it has a usable cache entry, or its page is good. */
  ghost predicate Usable(w: Start, v: Url) {
    Good(w, v) || (Settled(w.env, w.cache, v) && v != w.req.url && w.env.tweak(Request(v, map[]), Some(w.req)).Some?)
  }

  // ---- Link lines ----

  /** An allowed-alt-sxg line for the URL and, later, the preload line of the link. */
  ghost predicate Lined(links: seq<LinkLine>, v: Url, link: Link) {
    exists a, b :: 0 <= a < b < |links| && links[a].AllowedAlt? && links[a].url == v && links[b] == PreloadLine(link)
  }

  lemma {:induction false} AltLineFor(rs: seq<Res>, j: nat) returns (a: nat)
    requires j < |rs| && rs[j].integrity != ""
    ensures a < |AltLines(rs)| && AltLines(rs)[a] == AllowedAlt(rs[j].requestURL, rs[j].integrity)
    decreases |rs|
  {
    var first := if rs[0].integrity != "" then [AllowedAlt(rs[0].requestURL, rs[0].integrity)] else [];
    assert AltLines(rs) == first + AltLines(rs[1..]);
    if j == 0 {
      a := 0;
    } else {
      var k := AltLineFor(rs[1..], j - 1);
      a := |first| + k;
    }
  }

  lemma {:induction false} LinedConcat(a: seq<LinkLine>, b: seq<LinkLine>, v: Url, link: Link)
    ensures Lined(a, v, link) || Lined(b, v, link) ==> Lined(a + b, v, link)
  {
    var c := a + b;
    if Lined(a, v, link) {
      var x, y :| 0 <= x < y < |a| && a[x].AllowedAlt? && a[x].url == v && a[y] == PreloadLine(link);
      assert c[x] == a[x] && c[y] == a[y];
    }
    if Lined(b, v, link) {
      var x, y :| 0 <= x < y < |b| && b[x].AllowedAlt? && b[x].url == v && b[y] == PreloadLine(link);
      assert c[x + |a|] == b[x] && c[y + |a|] == b[y];
    }
  }

  /** A packaged resource has its line, and its preload's line follows. */
  lemma {:induction false} LinesFor(keep: bool, ps: seq<Preload>, i: nat, j: nat)
    requires i < |ps| && j < |ps[i].resources| && ps[i].resources[j].integrity != ""
    ensures Lined(LinkLines(keep, ps), ps[i].resources[j].requestURL, ps[i].link)
    decreases |ps|
  {
    var alt := AltLines(ps[0].resources);
    var own: seq<LinkLine> := if alt != [] || keep then [PreloadLine(ps[0].link)] else [];
    var v, link := ps[i].resources[j].requestURL, ps[i].link;
    var head := alt + own;
    if i == 0 {
      var a := AltLineFor(ps[0].resources, j);
      assert head[a] == alt[a] && head[|alt|] == PreloadLine(link);
      assert Lined(head, v, link);
    } else {
      LinesFor(keep, ps[1..], i - 1, j);
    }
    LinedConcat(head, LinkLines(keep, ps[1..]), v, link);
  }

  /** Every line is one of a preload or of a resource of it. */
  ghost predicate LineOf(l: LinkLine, ps: seq<Preload>) {
    match l
    case AllowedAlt(v, _) =>
      exists i, j :: 0 <= i < |ps| && 0 <= j < |ps[i].resources| && ps[i].resources[j].requestURL == v
    case PreloadLine(link) => exists i :: 0 <= i < |ps| && ps[i].link == link
  }

  lemma {:induction false} AltLineIs(rs: seq<Res>, k: nat) returns (j: nat)
    requires k < |AltLines(rs)|
    ensures j < |rs| && AltLines(rs)[k] == AllowedAlt(rs[j].requestURL, rs[j].integrity)
    decreases |rs|
  {
    var first := if rs[0].integrity != "" then [AllowedAlt(rs[0].requestURL, rs[0].integrity)] else [];
    assert AltLines(rs) == first + AltLines(rs[1..]);
    if k < |first| {
      j := 0;
    } else {
      var i := AltLineIs(rs[1..], k - |first|);
      j := i + 1;
    }
  }

  lemma {:induction false} LineOfLater(l: LinkLine, p: Preload, ps: seq<Preload>)
    requires LineOf(l, ps)
    ensures LineOf(l, [p] + ps)
  {
    var qs := [p] + ps;
    match l
    case AllowedAlt(v, _) =>
      var i, j :| 0 <= i < |ps| && 0 <= j < |ps[i].resources| && ps[i].resources[j].requestURL == v;
      assert qs[i + 1] == ps[i];
    case PreloadLine(link) =>
      var i :| 0 <= i < |ps| && ps[i].link == link;
      assert qs[i + 1] == ps[i];
  }

  lemma {:induction false} HeadLineIs(keep: bool, p: Preload, ps: seq<Preload>, k: nat)
    requires var alt := AltLines(p.resources); k < |alt + if alt != [] || keep then [PreloadLine(p.link)] else []|
    ensures var alt := AltLines(p.resources);
      LineOf((alt + if alt != [] || keep then [PreloadLine(p.link)] else [])[k], [p] + ps)
  {
    var qs := [p] + ps;
    assert qs[0] == p;
    if k < |AltLines(p.resources)| {
      var j := AltLineIs(p.resources, k);
    }
  }

  lemma {:induction false} LinesAre(keep: bool, ps: seq<Preload>, k: nat)
    requires k < |LinkLines(keep, ps)|
    ensures LineOf(LinkLines(keep, ps)[k], ps)
    decreases |ps|
  {
    var alt := AltLines(ps[0].resources);
    var head := alt + if alt != [] || keep then [PreloadLine(ps[0].link)] else [];
    var tail := LinkLines(keep, ps[1..]);
    assert LinkLines(keep, ps) == head + tail && ps == [ps[0]] + ps[1..];
    if k < |head| {
      HeadLineIs(keep, ps[0], ps[1..], k);
    } else {
      LinesAre(keep, ps[1..], k - |head|);
      LineOfLater(tail[k - |head|], ps[0], ps[1..]);
    }
  }

  // ---- Complete exchanges ----

  predicate LoopOn(log: seq<Event>, v: Url) { Ran(v, Some(ReferenceLoop)) in log }

  /** The exchange of a page: every target that can be packaged, and was not a loop, is announced with
      its preload after it, and there is no line for anything else. */
  ghost predicate Complete(w: Start, log: seq<Event>, u: Url, e: Exchange) {
    && e.url == u && PageSpecs(w, u).Some?
    && var specs := PageSpecs(w, u).value;
    && (forall i, j :: 0 <= i < |specs| && 0 <= j < |specs[i].targets| && Usable(w, specs[i].targets[j]) ==>
          LoopOn(log, specs[i].targets[j]) || Lined(e.links, specs[i].targets[j], specs[i].link))
    && (forall k :: 0 <= k < |e.links| ==> LineOf(e.links[k], FreshPreloads(specs)))
  }

  ghost predicate AllComplete(w: Start, log: seq<Event>) {
    forall k :: 0 <= k < |log| && log[k].Stored? ==> Complete(w, log, log[k].url, log[k].exchange)
  }

  lemma {:induction false} CompleteLater(w: Start, l: seq<Event>, ev: Event, u: Url, e: Exchange)
    requires Complete(w, l, u, e)
    ensures Complete(w, l + [ev], u, e)
  {
    assert forall v :: LoopOn(l, v) ==> LoopOn(l + [ev], v);
  }

  lemma {:induction false} CompleteSnoc(w: Start, log: seq<Event>, ev: Event)
    requires AllComplete(w, log) && (ev.Stored? ==> Complete(w, log, ev.url, ev.exchange))
    ensures AllComplete(w, log + [ev])
  {
    var m := log + [ev];
    forall k | 0 <= k < |m| && m[k].Stored? ensures Complete(w, m, m[k].url, m[k].exchange) {
      CompleteLater(w, log, ev, m[k].url, m[k].exchange);
    }
  }

  /** The results hold an exchange for every resource that can be packaged and was not a loop. */
  ghost predicate Delivered(w: Start, log: seq<Event>, rs: seq<Res>) {
    forall j :: 0 <= j < |rs| && Usable(w, rs[j].requestURL) && !LoopOn(log, rs[j].requestURL) ==> rs[j].integrity != ""
  }

  lemma {:induction false} DeliveredLater(w: Start, l: seq<Event>, m: seq<Event>, rs: seq<Res>)
    requires Delivered(w, l, rs) && l <= m
    ensures Delivered(w, m, rs)
  {
    assert forall ev :: ev in l ==> ev in m;
  }

  ghost predicate AllDelivered(w: Start, log: seq<Event>, ps: seq<Preload>) {
    forall i :: 0 <= i < |ps| ==> Delivered(w, log, ps[i].resources)
  }

  lemma {:induction false} AllDeliveredCons(w: Start, log: seq<Event>, p: Preload, tail: seq<Preload>)
    requires Delivered(w, log, p.resources)
    ensures AllDelivered(w, log, tail) ==> AllDelivered(w, log, [p] + tail)
  {
  }

  // ---- The induction over the recursion ----

  ghost predicate Ground(w: Start, s: State) {
    Calm(w.env) && SteadySpecs(w.env) && Inv(w.env, s) && AllComplete(w, s.log)
  }

  lemma {:induction false} RunLinks(w: Start, parent: Option<Task>, s: State, req: Request, r: Res)
    requires Call(w, parent, s, req) && Ground(w, s) && req.url == r.requestURL && IsNew(r)
    ensures var (t, r') := Run(w.env, parent, s, req, r);
      AllComplete(w, t.log) && (parent.Some? && Usable(w, req.url) && !LoopOn(t.log, req.url) ==> r'.integrity != "")
    decreases w.env.urls - s.active, 0, 1
  {
    var url := req.url;
    if parent.Some? { ReachesNext(w, parent.value.request.url, url); } else { ReachesMain(w); }
    if url in s.active {
      CompleteSnoc(w, s.log, Ran(url, Some(ReferenceLoop)));
    } else {
      var s0 := s.(active := s.active + {url});
      RunTaskLinks(w, parent, s, req, r);
      var (s1, r1, err) := RunTask(w.env, parent, s0, req, r);
      RunTaskKeeps(w.env, parent, s0, req, r);
      CompleteSnoc(w, s1.log, Ran(url, err));
    }
  }

  lemma {:induction false} SpecsAre(w: Start, parent: Option<Task>, s: State, req: Request)
    requires Call(w, parent, s, req) && SteadySpecs(w.env) && req.url !in s.active
    ensures var p := if parent.Some? then Some(parent.value.request) else None;
      PageSpecs(w, req.url) == VisitSpecs(w.env, req, p, s.clock)
      && (parent.Some? && Usable(w, req.url) && !Good(w, req.url) ==>
           w.env.tweak(req, p).Some? && Settled(w.env, s.cache, req.url))
  {
    assert parent.Some? ==> req == Request(req.url, map[]) && req.url != w.req.url;
  }

  lemma {:induction false} RunTaskLinks(w: Start, parent: Option<Task>, s: State, req: Request, r: Res)
    requires Call(w, parent, s, req) && Ground(w, s) && req.url == r.requestURL && IsNew(r)
    requires req.url !in s.active && Reaches(w, req.url)
    ensures var (t, r', err) := RunTask(w.env, parent, s.(active := s.active + {req.url}), req, r);
      AllComplete(w, t.log) && (parent.Some? && Usable(w, req.url) ==> err.None?)
    decreases w.env.urls - s.active, 0, 0
  {
    var url := req.url;
    var s0 := s.(active := s.active + {url});
    PageIs(w, parent, s, req);
    SpecsAre(w, parent, s, req);
    var headers := w.env.tweak(req, if parent.Some? then Some(parent.value.request) else None);
    if headers.Some? {
      if Settled(w.env, s.cache, url) {
        CompleteSnoc(w, s.log, Reused(url));
      } else {
        RenewLinks(w, Task(parent, Request(url, headers.value)), s0, r);
      }
    }
  }

  lemma {:induction false} RenewLinks(w: Start, task: Task, s: State, r: Res)
    requires Sub(w, task, s) && Ground(w, s) && task.request.url == r.requestURL && IsNew(r)
    requires !Settled(w.env, s.cache, r.requestURL) && AllTried(s.log, s.active - {r.requestURL})
    requires var reply := w.env.fetch(task.request, s.clock);
      Page(w, r.requestURL) == Opened(w.env, r.requestURL, reply) && Judged(w, r.requestURL, reply)
      && PageSpecs(w, r.requestURL) == SpecsSeen(w.env, r.requestURL, reply)
    ensures var (t, r', err) := Renew(w.env, task, s, r);
      AllComplete(w, t.log) && (Good(w, r.requestURL) ==> err.None?)
    decreases w.env.urls - s.active, 4, 0
  {
    var url := r.requestURL;
    var reply := w.env.fetch(task.request, s.clock);
    var s1 := s.(clock := s.clock + 1, log := s.log + [Fetched(url)]);
    FetchTraces(w, task, s, s1);
    FetchStep(w.env, s, url);
    CompleteSnoc(w, s.log, Fetched(url));
    RenewUnfold(w.env, task, s, r);
    GoodSucceeds(w, task, s, r);
    if reply.Reply? && !IsRedirect(reply.status) {
      var r1 := r.(physicalURL := Some(w.env.physical(url, reply.body)));
      CreateExchangeLinks(w, task, s1, r1, reply);
      var (s2, r2, made) := CreateExchange(w.env, task, s1, r1, reply.body);
      CreateExchangeTraces(w, task, s1, r1, reply);
      if made.Success? { CompleteSnoc(w, s2.log, Stored(url, made.exchange)); }
    }
  }

  lemma {:induction false} GoodSucceeds(w: Start, task: Task, s: State, r: Res)
    requires Closed(w.env) && Calm(w.env) && task.request.url == r.requestURL
    requires s.active == Ancestors(Some(task)) <= w.env.urls
    requires Judged(w, r.requestURL, w.env.fetch(task.request, s.clock))
    ensures Good(w, r.requestURL) ==> Renew(w.env, task, s, r).2.None?
  {
    var url := r.requestURL;
    assert SteadySigner(w.env, url);
    assert Impartial(w.env, url);
    SubresourcesCannotFailTheirParent(w.env, task, s, r);
    var t := Renew(w.env, task, s, r).0;
    assert t.clock > 0 ==> Accepted(w.env, url, [], t.clock - 1) == Accepted(w.env, url, [], 0);
  }

  lemma {:induction false} CreateExchangeLinks(w: Start, task: Task, s: State, r: Res, reply: Reply)
    requires Sub(w, task, s) && Ground(w, s) && AllTried(s.log, s.active)
    requires !Settled(w.env, s.cache, task.request.url) && reply.Reply? && !IsRedirect(reply.status)
    requires r.requestURL == task.request.url
    requires r.physicalURL == Some(w.env.physical(task.request.url, reply.body))
    requires Page(w, task.request.url) == Opened(w.env, task.request.url, reply)
    requires PageSpecs(w, task.request.url) == SpecsSeen(w.env, task.request.url, reply)
    ensures var (t, r', made) := CreateExchange(w.env, task, s, r, reply.body);
      AllComplete(w, t.log) && (made.Success? ==> Complete(w, t.log, task.request.url, made.exchange))
    decreases w.env.urls - s.active, 3, 1
  {
    var specs := w.env.process(reply.body);
    if Page(w, task.request.url).Some? {
      FreshInWorld(w.env, specs.value);
      PackageLinks(w, task, s, specs.value);
    }
  }

  lemma {:induction false} FreshIs(specs: seq<PreloadSpec>)
    ensures |FreshPreloads(specs)| == |specs|
    ensures forall i :: 0 <= i < |specs| ==>
      FreshPreloads(specs)[i] == Preload(specs[i].link, FreshResources(specs[i].targets))
    decreases |specs|
  {
    if specs != [] { FreshIs(specs[1..]); }
  }

  lemma {:induction false} PackageLinks(w: Start, task: Task, s: State, specs: seq<PreloadSpec>)
    requires Sub(w, task, s) && Ground(w, s) && AllTried(s.log, s.active)
    requires InWorld(w.env, FreshPreloads(specs)) && Open(w, task.request.url)
    requires Asked(w.env, FreshPreloads(specs)) == Page(w, task.request.url).value
    requires PageSpecs(w, task.request.url) == Some(specs)
    ensures var (t, made) := PackagePreloads(w.env, task, s, FreshPreloads(specs));
      AllComplete(w, t.log) && (made.Success? ==> Complete(w, t.log, task.request.url, made.exchange))
    decreases w.env.urls - s.active, 3, 0
  {
    var ps := FreshPreloads(specs);
    FreshAreNew(specs);
    RunPreloadsLinks(w, task, s, ps);
    RunPreloadsKeeps(w.env, task, s, ps);
    var (t, ps', ok) := RunPreloads(w.env, task, s, ps);
    PackageUnfold(w.env, task, s, ps, t, ps', ok);
    var made := PackagePreloads(w.env, task, s, ps).1;
    if made.Success? {
      CompleteLinks(w, t.log, task.request.url, specs, ps', made.exchange);
    }
  }

  lemma {:induction false} CompleteLinks(
      w: Start, log: seq<Event>, u: Url, specs: seq<PreloadSpec>, ps: seq<Preload>, e: Exchange)
    requires PageSpecs(w, u) == Some(specs) && SameURLs(FreshPreloads(specs), ps)
    requires AllDelivered(w, log, ps)
    requires e.url == u && e.links == LinkLines(w.env.keepNonSXG, ps)
    ensures Complete(w, log, u, e)
  {
    FreshIs(specs);
    forall i, j | 0 <= i < |specs| && 0 <= j < |specs[i].targets| && Usable(w, specs[i].targets[j])
      ensures LoopOn(log, specs[i].targets[j]) || Lined(e.links, specs[i].targets[j], specs[i].link)
    {
      var v := specs[i].targets[j];
      assert FreshResources(specs[i].targets)[j] == NewResource(v);
      assert ps[i].resources[j].requestURL == v && ps[i].link == specs[i].link;
      if !LoopOn(log, v) { LinesFor(w.env.keepNonSXG, ps, i, j); }
    }
    forall k | 0 <= k < |e.links| ensures LineOf(e.links[k], FreshPreloads(specs)) {
      LinesAre(w.env.keepNonSXG, ps, k);
      SameLine(e.links[k], FreshPreloads(specs), ps);
    }
  }

  lemma {:induction false} SameLine(l: LinkLine, ps: seq<Preload>, qs: seq<Preload>)
    requires SameURLs(ps, qs) && LineOf(l, qs)
    ensures LineOf(l, ps)
  {
    match l
    case AllowedAlt(v, _) =>
      var i, j :| 0 <= i < |qs| && 0 <= j < |qs[i].resources| && qs[i].resources[j].requestURL == v;
      assert ps[i].resources[j].requestURL == v;
    case PreloadLine(link) =>
      var i :| 0 <= i < |qs| && qs[i].link == link;
      assert ps[i].link == link;
  }

  /** The next iteration of the outer loop starts where the first did. */
  lemma {:induction false} AfterResources(w: Start, task: Task, s: State, rs: seq<Res>)
    requires Sub(w, task, s) && Ground(w, s) && AllTried(s.log, s.active)
    requires ResourcesInWorld(w.env, rs) && ResourcesNew(rs)
    requires Open(w, task.request.url) && AskedIn(w.env, rs) <= Page(w, task.request.url).value
    ensures var (t, rs', ok) := RunResources(w.env, task, s, rs);
      Sub(w, task, t) && Ground(w, t) && AllTried(t.log, t.active) && (ok ==> Delivered(w, t.log, rs'))
    decreases w.env.urls - s.active, 1, |rs| + 1
  {
    RunResourcesLinks(w, task, s, rs);
    RunResourcesTraces(w, task, s, rs);
    RunResourcesKeeps(w.env, task, s, rs);
    TriedLater(s.log, RunResources(w.env, task, s, rs).0.log, s.active);
  }

  lemma {:induction false} RunPreloadsLinks(w: Start, task: Task, s: State, ps: seq<Preload>)
    requires Sub(w, task, s) && Ground(w, s) && AllTried(s.log, s.active) && InWorld(w.env, ps) && AllNew(ps)
    requires Open(w, task.request.url) && Asked(w.env, ps) <= Page(w, task.request.url).value
    ensures var (t, ps', ok) := RunPreloads(w.env, task, s, ps);
      AllComplete(w, t.log) && (ok ==> AllDelivered(w, t.log, ps'))
    decreases w.env.urls - s.active, 2, |ps|
  {
    if ps != [] {
      var rs := ps[0].resources;
      AfterResources(w, task, s, rs);
      ResourcesOk(w.env, task, s, rs);
      var (s1, rs', ok) := RunResources(w.env, task, s, rs);
      if ok {
        RunPreloadsLinks(w, task, s1, ps[1..]);
        RunPreloadsTraces(w, task, s1, ps[1..]);
        var (s2, tail, ok2) := RunPreloads(w.env, task, s1, ps[1..]);
        DeliveredLater(w, s1.log, s2.log, rs');
        AllDeliveredCons(w, s2.log, Preload(ps[0].link, rs'), tail);
      }
    }
  }

  /** And the next iteration of the inner loop. */
  lemma {:induction false} AfterRun(w: Start, task: Task, s: State, r: Res)
    requires Sub(w, task, s) && Ground(w, s) && AllTried(s.log, s.active)
    requires r.requestURL in w.env.urls && IsNew(r) && Leads(w, task.request.url, r.requestURL)
    ensures var (t, r') := Run(w.env, Some(task), s, Request(r.requestURL, map[]), r);
      Sub(w, task, t) && Ground(w, t) && AllTried(t.log, t.active) && Delivered(w, t.log, [r'])
    decreases w.env.urls - s.active, 1, 0
  {
    var req := Request(r.requestURL, map[]);
    RunLinks(w, Some(task), s, req, r);
    RunTraces(w, Some(task), s, req, r);
    RunKeeps(w.env, Some(task), s, req, r);
    TriedLater(s.log, Run(w.env, Some(task), s, req, r).0.log, s.active);
  }

  lemma {:induction false} RunResourcesLinks(w: Start, task: Task, s: State, rs: seq<Res>)
    requires Sub(w, task, s) && Ground(w, s) && AllTried(s.log, s.active)
    requires ResourcesInWorld(w.env, rs) && ResourcesNew(rs)
    requires Open(w, task.request.url) && AskedIn(w.env, rs) <= Page(w, task.request.url).value
    ensures var (t, rs', ok) := RunResources(w.env, task, s, rs);
      AllComplete(w, t.log) && (ok ==> Delivered(w, t.log, rs'))
    decreases w.env.urls - s.active, 1, |rs|
  {
    if rs != [] && w.env.requestable(rs[0].requestURL) {
      var v := rs[0].requestURL;
      assert v in AskedIn(w.env, rs);
      AfterRun(w, task, s, rs[0]);
      var (s1, r1) := Run(w.env, Some(task), s, Request(v, map[]), rs[0]);
      RunResourcesLinks(w, task, s1, rs[1..]);
      RunResourcesTraces(w, task, s1, rs[1..]);
      var (s2, tail, ok) := RunResources(w.env, task, s1, rs[1..]);
      DeliveredLater(w, s1.log, s2.log, [r1]);
      DeliveredCons(w, s2.log, r1, tail);
    }
  }

  lemma {:induction false} DeliveredCons(w: Start, log: seq<Event>, r: Res, tail: seq<Res>)
    requires Delivered(w, log, [r])
    ensures Delivered(w, log, tail) ==> Delivered(w, log, [r] + tail)
  {
    assert [r][0] == r;
  }

  // ---- Whole runs ----

  /** The Link lines of every exchange stored in a run: each target of its page that has a usable entry
      or a good page, and never came up as a loop, is announced with the integrity that the cache holds
      for it at the end, followed by the line of its preload; and there is no line for anything but
      the page's own preloads and their targets. */
  lemma {:induction false} LinksComplete(w: Start, k: nat)
    requires Closed(w.env) && SteadySpecs(w.env) && Calm(w.env) && w.req.url in w.env.urls && CacheOk(w.env, w.cache)
    requires var log := RunForRequest(w.env, w.cache, w.req).0.log; k < |log| && log[k].Stored?
    ensures var t := RunForRequest(w.env, w.cache, w.req).0;
      var u, e := t.log[k].url, t.log[k].exchange;
      && e.url == u && PageSpecs(w, u).Some?
      && var specs := PageSpecs(w, u).value;
      && (forall i, j :: 0 <= i < |specs| && 0 <= j < |specs[i].targets| ==>
            var v := specs[i].targets[j];
            Usable(w, v) && !LoopOn(t.log, v) ==> v in t.cache && Announcing(e.links, t.cache[v], specs[i].link))
      && (forall n :: 0 <= n < |e.links| ==> LineOf(e.links[n], FreshPreloads(specs)))
  {
    SteadySpecsAreSteady(w.env);
    var s := StartState(w.cache);
    assert Trace(w, s.cache, s.log, s.active);
    RunLinks(w, None, s, w.req, NewResource(w.req.url));
    RunForRequestKeeps(w.env, w.cache, w.req);
    var t := RunForRequest(w.env, w.cache, w.req).0;
    var e := t.log[k].exchange;
    assert EventOk(w.env, t.cache, t.log[k]);
    forall v, link | Lined(e.links, v, link)
      ensures v in t.cache && Announcing(e.links, t.cache[v], link)
    {
      var a, b :| 0 <= a < b < |e.links| && e.links[a].AllowedAlt? && e.links[a].url == v
        && e.links[b] == PreloadLine(link);
      assert LineCoherent(w.env, t.cache, e.links[a]);
    }
  }

  /** The line of the cached resource, and the preload line after it. */
  ghost predicate Announcing(links: seq<LinkLine>, r: Res, link: Link) {
    exists a, b :: 0 <= a < b < |links|
      && links[a] == AllowedAlt(r.requestURL, r.integrity) && links[b] == PreloadLine(link)
  }
}
