/** Slash-separated paths: Go's `path.Clean`, `path.Split` and `path.Join` by their documented
    rules, and `internal/urlutil` on top of them. */
module Paths {
  import opened Text

  /** The parts between the slashes; there is always at least one. */
  function Segs(p: string): (r: seq<string>)
    ensures |r| >= 1
    decreases |p|
  {
    if p == [] then [[]]
    else
      var r := Segs(p[1..]);
      if p[0] == '/' then [[]] + r else [[p[0]] + r[0]] + r[1..]
  }

  predicate NoSlash(s: string) { forall i :: 0 <= i < |s| ==> s[i] != '/' }

  predicate AllNoSlash(segs: seq<string>) { forall i :: 0 <= i < |segs| ==> NoSlash(segs[i]) }

  /** One segment of the path applied to the segments kept so far. */
  function Push(rooted: bool, st: seq<string>, seg: string): seq<string> {
    if seg == "" || seg == "." then st
    else if seg != ".." then st + [seg]
    else if st != [] && st[|st| - 1] != ".." then st[..|st| - 1]
    else if rooted then st
    else st + [seg]
  }

  function Resolve(rooted: bool, st: seq<string>, segs: seq<string>): seq<string>
    decreases |segs|
  {
    if segs == [] then st else Resolve(rooted, Push(rooted, st, segs[0]), segs[1..])
  }

  predicate Rooted(p: string) { p != [] && p[0] == '/' }

  /** The segments of the cleaned path. */
  function Stack(p: string): seq<string> { Resolve(Rooted(p), [], Segs(p)) }

  /** The path with these segments. */
  function Render(rooted: bool, st: seq<string>): string {
    if rooted then "/" + Join(st, "/") else if st == [] then "." else Join(st, "/")
  }

  /** `path.Clean`. */
  function Clean(p: string): string {
    if p == "" then "." else Render(Rooted(p), Stack(p))
  }

  /** The second result of `path.Split`: what follows the last slash. */
  function Last(p: string): string { Segs(p)[|Segs(p)| - 1] }

  predicate DirName(seg: string) { seg == "" || seg == "." || seg == ".." }

  /** `urlutil.IsDir`. */
  predicate IsDir(p: string) { DirName(Last(p)) }

  /** `urlutil.GetCleanPath`. */
  function GetCleanPath(p: string): string {
    var c := Clean(p);
    if c == "." || c == "/" then "/" else if IsDir(p) then c + "/" else c
  }

  /** `path.Join` of two elements. */
  function Join2(a: string, b: string): string {
    if a != "" then Clean(a + "/" + b) else if b != "" then Clean(b) else ""
  }

  // ---- Segments ----

  lemma {:induction false} SegsNoSlash(p: string)
    ensures AllNoSlash(Segs(p))
    decreases |p|
  {
    if p != [] { SegsNoSlash(p[1..]); }
  }

  lemma {:induction false} SegsOne(s: string)
    requires NoSlash(s)
    ensures Segs(s) == [s]
    decreases |s|
  {
    if s != [] {
      SegsOne(s[1..]);
      assert [s[0]] + s[1..] == s;
    }
  }

  /** Splitting a concatenation at a slash. */
  lemma {:induction false} SegsSlash(x: string, y: string)
    ensures Segs(x + ("/" + y)) == Segs(x) + Segs(y)
    decreases |x|
  {
    if x == [] {
      assert x + ("/" + y) == "/" + y;
      ConsTail('/', y);
    } else {
      assert (x + ("/" + y))[1..] == x[1..] + ("/" + y);
      SegsSlash(x[1..], y);
      var r := Segs(x[1..]);
      assert (r + Segs(y))[0] == r[0] && (r + Segs(y))[1..] == r[1..] + Segs(y);
      Assoc([[x[0]] + r[0]], r[1..], Segs(y));
    }
  }

  /** Joining segments and splitting again. */
  lemma {:induction false} SegsJoin(segs: seq<string>)
    requires segs != [] && AllNoSlash(segs)
    ensures Segs(Join(segs, "/")) == segs
    decreases |segs|
  {
    SegsOne(segs[0]);
    if |segs| > 1 {
      SegsJoin(segs[1..]);
      var rest := Join(segs[1..], "/");
      Assoc(segs[0], "/", rest);
      SegsSlash(segs[0], rest);
      assert [segs[0]] + segs[1..] == segs;
    }
  }

  lemma {:induction false} SegsRooted(x: string)
    ensures Segs("/" + x) == [""] + Segs(x)
  {
    ConsTail('/', x);
  }

  lemma {:induction false} JoinSnoc(segs: seq<string>, s: string)
    requires segs != []
    ensures Join(segs + [s], "/") == Join(segs, "/") + ("/" + s)
    decreases |segs|
  {
    if |segs| == 1 {
      assert (segs + [s])[1..] == [s];
      Assoc(segs[0], "/", s);
    } else {
      assert (segs + [s])[1..] == segs[1..] + [s];
      JoinSnoc(segs[1..], s);
      Assoc(segs[0] + "/", Join(segs[1..], "/"), "/" + s);
    }
  }

  lemma {:induction false} JoinConcat(a: seq<string>, b: seq<string>)
    requires a != [] && b != []
    ensures Join(a + b, "/") == Join(a, "/") + ("/" + Join(b, "/"))
    decreases |a|
  {
    if |a| == 1 {
      assert (a + b)[1..] == b;
      Assoc(a[0], "/", Join(b, "/"));
    } else {
      assert (a + b)[1..] == a[1..] + b;
      JoinConcat(a[1..], b);
      Assoc(a[0] + "/", Join(a[1..], "/"), "/" + Join(b, "/"));
    }
  }

  // ---- Resolving ----

  /** A segment that names something. */
  predicate Name(s: string) { NoSlash(s) && s != "" && s != "." && s != ".." }

  /** The shape of a cleaned path: names, after leading ".." segments if it is not rooted. */
  predicate Normal(rooted: bool, st: seq<string>) {
    && (forall i :: 0 <= i < |st| ==> Name(st[i]) || (!rooted && st[i] == ".."))
    && (forall i, j :: 0 <= i < j < |st| && st[j] == ".." ==> st[i] == "..")
  }

  lemma {:induction false} NormalSegs(rooted: bool, st: seq<string>)
    requires Normal(rooted, st) && st != []
    ensures AllNoSlash(st) && st[0] != "" && Join(st, "/") != "" && Join(st, "/")[0] == st[0][0] != '/'
  {
    assert NoSlash("..");
    assert NoSlash(st[0]);
  }

  lemma {:induction false} PushNormal(rooted: bool, st: seq<string>, seg: string)
    requires Normal(rooted, st) && NoSlash(seg)
    ensures Normal(rooted, Push(rooted, st, seg))
  {
  }

  lemma {:induction false} ResolveNormal(rooted: bool, st: seq<string>, segs: seq<string>)
    requires Normal(rooted, st) && AllNoSlash(segs)
    ensures Normal(rooted, Resolve(rooted, st, segs))
    decreases |segs|
  {
    if segs != [] {
      PushNormal(rooted, st, segs[0]);
      ResolveNormal(rooted, Push(rooted, st, segs[0]), segs[1..]);
    }
  }

  lemma {:induction false} ResolveConcat(rooted: bool, st: seq<string>, a: seq<string>, b: seq<string>)
    ensures Resolve(rooted, st, a + b) == Resolve(rooted, Resolve(rooted, st, a), b)
    decreases |a|
  {
    if a == [] {
      assert a + b == b;
    } else {
      assert (a + b)[1..] == a[1..] + b;
      ResolveConcat(rooted, Push(rooted, st, a[0]), a[1..], b);
    }
  }

  /** Normal segments are kept as they are. */
  lemma {:induction false} ResolveKeeps(rooted: bool, st: seq<string>, segs: seq<string>)
    requires Normal(rooted, st + segs)
    ensures Resolve(rooted, st, segs) == st + segs
    decreases |segs|
  {
    if segs == [] {
      assert st + segs == st;
    } else {
      assert (st + segs)[|st|] == segs[0];
      assert |st| > 0 ==> (st + segs)[|st| - 1] == st[|st| - 1];
      assert Push(rooted, st, segs[0]) == st + [segs[0]];
      assert st + [segs[0]] + segs[1..] == st + segs;
      ResolveKeeps(rooted, st + [segs[0]], segs[1..]);
    }
  }

  lemma {:induction false} StackNormal(p: string)
    ensures Normal(Rooted(p), Stack(p))
  {
    SegsNoSlash(p);
    ResolveNormal(Rooted(p), [], Segs(p));
  }

  /** Cleaning a rendered normal stack gives the stack back. */
  lemma {:induction false} RenderStack(rooted: bool, st: seq<string>)
    requires Normal(rooted, st) && (rooted || st != [])
    ensures Rooted(Render(rooted, st)) == rooted
    ensures Stack(Render(rooted, st)) == st
  {
    assert [] + st == st;
    ResolveKeeps(rooted, [], st);
    if st != [] {
      NormalSegs(rooted, st);
      SegsJoin(st);
    }
    if rooted {
      SegsRooted(Join(st, "/"));
      SkipEmpty(true, [], Segs(Join(st, "/")));
      if st == [] {
        SegsOne("");
        SkipEmpty(true, [], []);
        assert [""] + [] == [""];
      }
    }
  }

  lemma {:induction false} SkipEmpty(rooted: bool, st: seq<string>, segs: seq<string>)
    ensures Resolve(rooted, st, [""] + segs) == Resolve(rooted, st, segs)
  {
    ConsTail("", segs);
  }

  lemma {:induction false} DotIsClean()
    ensures Clean(".") == "." && Stack(".") == []
  {
    SegsOne(".");
    assert Resolve(false, [], ["."]) == Resolve(false, [], []);
  }

  /** `path.Clean` is idempotent on every string. */
  lemma {:induction false} CleanIdempotent(p: string)
    ensures Clean(Clean(p)) == Clean(p)
  {
    StackNormal(p);
    if p != "" && (Rooted(p) || Stack(p) != []) {
      RenderStack(Rooted(p), Stack(p));
    } else {
      DotIsClean();
    }
  }

  // ---- Directories ----

  /** A name at the end of a path survives cleaning as the last segment. */
  lemma {:induction false} LastKept(p: string)
    requires !IsDir(p)
    ensures Stack(p) != [] && Stack(p)[|Stack(p)| - 1] == Last(p)
  {
    var segs := Segs(p);
    var n := |segs| - 1;
    ResolveConcat(Rooted(p), [], segs[..n], [segs[n]]);
    assert segs[..n] + [segs[n]] == segs;
    assert Resolve(Rooted(p), Resolve(Rooted(p), [], segs[..n]), [segs[n]])
        == Push(Rooted(p), Resolve(Rooted(p), [], segs[..n]), segs[n]);
  }

  lemma {:induction false} LastOfRender(rooted: bool, st: seq<string>)
    requires Normal(rooted, st) && st != []
    ensures Last(Render(rooted, st)) == st[|st| - 1]
    ensures Render(rooted, st) != "/" && Render(rooted, st) != ""
  {
    NormalSegs(rooted, st);
    SegsJoin(st);
    if rooted {
      SegsRooted(Join(st, "/"));
    }
  }

  lemma {:induction false} TrailingSlash(p: string)
    requires p != ""
    ensures Rooted(p + "/") == Rooted(p) && Stack(p + "/") == Stack(p) && Last(p + "/") == ""
  {
    SegsSlash(p, "");
    assert p + ("/" + "") == p + "/";
    SegsOne("");
    ResolveConcat(Rooted(p), [], Segs(p), [""]);
    assert Resolve(Rooted(p), Stack(p), [""]) == Stack(p);
  }

  /** The three shapes of `GetCleanPath`: the root, a directory with its slash, a file. */
  lemma {:induction false} CleanPathShape(p: string)
    ensures var st := Stack(p); var q := GetCleanPath(p);
      if p == "" || st == [] then q == "/" && IsDir(p)
      else q == Render(Rooted(p), st) + (if IsDir(p) then "/" else "")
           && Normal(Rooted(p), st) && Render(Rooted(p), st) != "" && Clean(p) == Render(Rooted(p), st)
  {
    StackNormal(p);
    var st := Stack(p);
    if p == "" {
      SegsOne("");
    } else if st == [] {
      if !IsDir(p) { LastKept(p); }
    } else {
      LastOfRender(Rooted(p), st);
      var c := Render(Rooted(p), st);
      assert c != "." by {
        DotIsClean();
        RenderStack(Rooted(p), st);
      }
      assert c + "" == c;
    }
  }

  /** `GetCleanPath` is idempotent and keeps the directory verdict, on every string. */
  lemma {:induction false} CleanPathLaws(p: string)
    ensures GetCleanPath(GetCleanPath(p)) == GetCleanPath(p)
    ensures IsDir(GetCleanPath(p)) == IsDir(p)
    ensures GetCleanPath(p) != "" && (p == "" || Rooted(p) ==> Rooted(GetCleanPath(p)))
  {
    CleanPathShape(p);
    var st, q := Stack(p), GetCleanPath(p);
    if p == "" || st == [] {
      RootIsClean();
    } else {
      var c := Render(Rooted(p), st);
      RenderStack(Rooted(p), st);
      LastOfRender(Rooted(p), st);
      if IsDir(p) {
        TrailingSlash(c);
      } else {
        assert q == c;
        LastKept(p);
      }
      CleanPathShape(q);
    }
  }

  lemma {:induction false} RootIsClean()
    ensures Clean("/") == "/" && IsDir("/") && GetCleanPath("/") == "/" && Stack("/") == []
  {
    SegsRooted("");
    SegsOne("");
    assert "/" + "" == "/";
    assert [""] + [""] == ["", ""];
    assert Segs("/") == ["", ""];
    assert Resolve(true, [], ["", ""]) == Resolve(true, [], [""]) by { ConsTail("", [""]); }
  }

  // ---- Serving paths ----

  datatype PathError = Empty | NotNormalized

  function TrimSlash(v: string): string {
    if v != "" && v[|v| - 1] == '/' then v[..|v| - 1] else v
  }

  /** `verifyServePath` in `server/tomlconfig/verify.go`. */
  function VerifyServePath(value: string): Option<PathError> {
    if value == "" then Some(Empty)
    else
      var v := if value != "/" && value != "//" then TrimSlash(value) else value;
      if v != Clean(v) || !Rooted(v) then Some(NotNormalized) else None
  }

  lemma {:induction false} TrimmedClean(value: string)
    requires Rooted(value) && value != "/" && value[|value| - 1] == '/'
    ensures Clean(value) == Clean(TrimSlash(value)) && Rooted(TrimSlash(value)) && value == TrimSlash(value) + "/"
  {
    var v := TrimSlash(value);
    assert value == v + "/";
    TrailingSlash(v);
  }

  /** A path is accepted exactly when it is rooted and clean up to one trailing slash, and then the
      `path.Clean` of `NewHandler` removes just that slash. */
  lemma {:induction false} ServePathExact(value: string)
    ensures VerifyServePath(value).None? <==>
      Rooted(value) && (value == Clean(value) || (value == Clean(value) + "/" && Clean(value) != "/"))
    ensures VerifyServePath(value) == Some(Empty) <==> value == ""
    ensures VerifyServePath(value).None? ==> Clean(value) == if value == "/" then "/" else TrimSlash(value)
  {
    RootIsClean();
    if Rooted(value) && value != "/" && value[|value| - 1] == '/' {
      TrimmedClean(value);
      CleanHasNoSlash(value);
    }
  }

  /** A cleaned rooted path other than the root does not end in a slash. */
  lemma {:induction false} CleanHasNoSlash(p: string)
    requires Rooted(p)
    ensures Clean(p) == "/" || Clean(p)[|Clean(p)| - 1] != '/'
  {
    StackNormal(p);
    var st := Stack(p);
    if st != [] {
      LastOfRender(true, st);
      NameEnds(Clean(p));
    }
  }

  lemma {:induction false} NameEnds(c: string)
    requires c != "" && c != "/" && Last(c) != ""
    ensures c[|c| - 1] != '/'
  {
    var d := c[..|c| - 1];
    if c[|c| - 1] == '/' {
      assert c == d + "/";
      TrailingSlash(d);
    }
  }
}
