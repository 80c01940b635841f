/** From request paths to files: `urlrewrite`, `resource/cache/filewrite/mapping.go` and
    `validity/append_ext.go`. */
module PathPipeline {
  import opened Text
  import opened Paths

  // ---- URL rewriting ----

  datatype Rule = CleanPathRule | IndexRule(file: string)

  function Rewritten(rule: Rule, p: string): string {
    match rule
    case CleanPathRule => GetCleanPath(p)
    case IndexRule(file) => if IsDir(p) then Join2(p, file) else p
  }

  function RewrittenAll(rules: seq<Rule>, p: string): string
    decreases |rules|
  {
    if rules == [] then p else RewrittenAll(rules[1..], Rewritten(rules[0], p))
  }

  class URL {
    var path: string

    constructor (path: string)
      ensures this.path == path
    {
      this.path := path;
    }

    method Rewrite(rule: Rule)
      modifies this
      ensures path == Rewritten(rule, old(path))
    {
      match rule
      case CleanPathRule =>
        path := GetCleanPath(path);
      case IndexRule(file) =>
        if IsDir(path) {
          path := Join2(path, file);
        }
    }

    /** `RuleSequence.Rewrite`. */
    method RewriteAll(rules: seq<Rule>)
      modifies this
      ensures path == RewrittenAll(rules, old(path))
    {
      for i := 0 to |rules|
        invariant RewrittenAll(rules, old(path)) == RewrittenAll(rules[i..], path)
      {
        assert rules[i..][0] == rules[i] && rules[i..][1..] == rules[i + 1..];
        Rewrite(rules[i]);
      }
    }
  }

  /** `urlrewrite.DefaultRules`, with the index file as a parameter. */
  function DefaultRules(index: string): seq<Rule> { [CleanPathRule, IndexRule(index)] }

  function PhysicalPath(index: string, p: string): string { RewrittenAll(DefaultRules(index), p) }

  /** Rooted, clean, and naming a file. */
  predicate FilePath(q: string) {
    Rooted(q) && Clean(q) == q && GetCleanPath(q) == q && !IsDir(q)
  }

  lemma {:induction false} FilePathOfStack(st: seq<string>)
    requires Normal(true, st) && st != []
    ensures FilePath(Render(true, st)) && Stack(Render(true, st)) == st
  {
    RenderStack(true, st);
    LastOfRender(true, st);
    assert st[|st| - 1] != "..";
  }

  lemma {:induction false} FilePathStack(q: string)
    requires FilePath(q)
    ensures Normal(true, Stack(q)) && Stack(q) != [] && q == Render(true, Stack(q))
  {
    StackNormal(q);
    LastKept(q);
  }

  /** Joining a name to a rooted path pushes one segment. */
  lemma {:induction false} JoinName(p: string, f: string)
    requires Rooted(p) && Name(f)
    ensures Join2(p, f) == Render(true, Stack(p) + [f]) && Normal(true, Stack(p) + [f])
  {
    StackNormal(p);
    Assoc(p, "/", f);
    SegsSlash(p, f);
    SegsOne(f);
    ResolveConcat(true, [], Segs(p), [f]);
    assert Resolve(true, Stack(p), [f]) == Stack(p) + [f];
  }

  /** The default rules turn every empty or rooted path into a file path: the path itself, cleaned,
      if it names a file, and the index file of the directory otherwise. */
  lemma {:induction false} PhysicalPathIsFile(index: string, p: string)
    requires (p == "" || Rooted(p)) && Name(index)
    ensures FilePath(PhysicalPath(index, p))
    ensures PhysicalPath(index, p) == Clean(if IsDir(p) then p + "/" + index else p)
    ensures Stack(PhysicalPath(index, p)) == if IsDir(p) then Stack(p) + [index] else Stack(p)
  {
    if IsDir(p) { IndexPath(p, index); }
    CleanPathLaws(p);
    CleanPathShape(p);
    StackNormal(p);
    var q := GetCleanPath(p);
    UnfoldDefault(index, p);
    if IsDir(p) {
      CleanedStack(p);
      JoinName(q, index);
      FilePathOfStack(Stack(q) + [index]);
    } else {
      FilePathOfStack(Stack(p));
      assert q == Render(true, Stack(p));
    }
  }

  lemma {:induction false} IndexPath(p: string, f: string)
    requires (p == "" || Rooted(p)) && Name(f)
    ensures Clean(p + "/" + f) == Render(true, Stack(p) + [f])
  {
    if p != "" {
      JoinName(p, f);
    } else {
      SegsOne("");
      assert Resolve(false, [], [""]) == [];
      FilePathOfStack([f]);
      assert Join([f], "/") == f by { assert [f][1..] == []; }
      assert p + "/" + f == Render(true, [f]) && [] + [f] == [f];
    }
  }

  lemma {:induction false} UnfoldDefault(index: string, p: string)
    ensures PhysicalPath(index, p) == Rewritten(IndexRule(index), GetCleanPath(p))
  {
    var rules, q := DefaultRules(index), GetCleanPath(p);
    assert rules[0] == CleanPathRule && rules[1..] == [IndexRule(index)];
    assert RewrittenAll([IndexRule(index)], q) == RewrittenAll([], Rewritten(IndexRule(index), q)) by {
      assert [IndexRule(index)][1..] == [];
    }
  }

  lemma {:induction false} CleanedStack(p: string)
    requires p == "" || Rooted(p)
    ensures Stack(GetCleanPath(p)) == Stack(p)
  {
    CleanPathShape(p);
    RootIsClean();
    if p == "" {
      SegsOne("");
      assert Resolve(false, [], [""]) == [];
    } else if Stack(p) != [] {
      RenderStack(true, Stack(p));
      TrailingSlash(Render(true, Stack(p)));
      assert Render(true, Stack(p)) + "" == Render(true, Stack(p));
    }
  }

  // ---- Mapping to files ----

  datatype Mapping = PhysicalURLPath | AppendExt(base: Mapping, ext: string) | AddBaseDir(base: Mapping, dir: string)

  /** `Map` of the mapping rules; None is an error. `AppendExt` and `AddBaseDir` with an empty
      argument are the rule they wrap. */
  function MapPath(m: Mapping, q: string): Option<string> {
    match m
    case PhysicalURLPath => if IsDir(q) || q != GetCleanPath(q) then None else Some(q[1..])
    case AppendExt(base, ext) =>
      var r := MapPath(base, q);
      if ext == "" || r.None? || r.value == "" then r else Some(r.value + ext)
    case AddBaseDir(base, dir) =>
      var r := MapPath(base, q);
      if dir == "" || r.None? || r.value == "" then r else Some(Join2(dir, r.value))
  }

  /** The mapping the command-line tools build. */
  function FileMapping(dir: string, ext: string): Mapping { AddBaseDir(AppendExt(PhysicalURLPath, ext), dir) }

  /** The directory part as a prefix. */
  function DirPrefix(dir: string): string {
    if dir == "" || Clean(dir) == "." then "" else if Clean(dir) == "/" then "/" else Clean(dir) + "/"
  }

  lemma {:induction false} NameWithExt(f: string, ext: string)
    requires Name(f) && NoSlash(ext)
    ensures Name(f + ext)
  {
    var g := f + ext;
    assert g[0] == f[0] && (|f| >= 2 ==> g[1] == f[1]);
    assert |f| == 1 ==> f == [f[0]];
    assert |f| == 2 ==> f == [f[0], f[1]];
  }

  /** Appending the extension changes only the last segment. */
  lemma {:induction false} ExtOnLast(st: seq<string>, ext: string)
    requires Normal(true, st) && st != [] && NoSlash(ext)
    ensures var st' := st[..|st| - 1] + [st[|st| - 1] + ext];
      Normal(true, st') && Join(st, "/") + ext == Join(st', "/")
  {
    var n := |st| - 1;
    NameWithExt(st[n], ext);
    var st' := st[..n] + [st[n] + ext];
    if n > 0 {
      JoinSnoc(st[..n], st[n]);
      JoinSnoc(st[..n], st[n] + ext);
      assert st == st[..n] + [st[n]];
      var a := Join(st[..n], "/");
      Assoc(a, "/" + st[n], ext);
      Assoc("/", st[n], ext);
    } else {
      assert st == [st[0]] && st' == [st[0] + ext];
    }
  }

  /** Joining a relative file path to a directory only puts the directory in front. */
  lemma {:induction false} JoinUnder(dir: string, st: seq<string>)
    requires dir != "" && Normal(true, st) && st != []
    ensures Join2(dir, Join(st, "/")) == DirPrefix(dir) + Join(st, "/")
  {
    var rel := Join(st, "/");
    var rooted, base := Rooted(dir), Stack(dir);
    StackNormal(dir);
    NormalSegs(true, st);
    Assoc(dir, "/", rel);
    SegsSlash(dir, rel);
    SegsJoin(st);
    ResolveConcat(rooted, [], Segs(dir), st);
    NamesAfter(rooted, base, st);
    ResolveKeeps(rooted, base, st);
    assert Stack(dir + "/" + rel) == base + st;
    RenderUnder(rooted, base, st);
    if base != [] || rooted { RenderStack(rooted, base); }
    if base != [] {
      LastOfRender(rooted, base);
      DotIsClean();
    }
  }

  lemma {:induction false} NamesAfter(rooted: bool, base: seq<string>, st: seq<string>)
    requires Normal(rooted, base) && Normal(true, st)
    ensures Normal(rooted, base + st)
  {
    var s := base + st;
    assert forall j :: |base| <= j < |s| ==> s[j] == st[j - |base|] && Name(s[j]);
  }

  lemma {:induction false} RenderUnder(rooted: bool, base: seq<string>, st: seq<string>)
    requires st != []
    ensures Render(rooted, base + st) ==
      if base != [] then Render(rooted, base) + ("/" + Join(st, "/"))
      else (if rooted then "/" else "") + Join(st, "/")
  {
    if base == [] {
      assert base + st == st;
      assert "" + Join(st, "/") == Join(st, "/");
    } else {
      JoinConcat(base, st);
      if rooted { Assoc("/", Join(base, "/"), "/" + Join(st, "/")); }
    }
  }

  /** Every file path maps to the base directory followed by its segments, with the extension on
      the last one; none of these segments is empty, "." or "..". */
  lemma {:induction false} MappedFile(dir: string, ext: string, q: string)
    requires FilePath(q) && NoSlash(ext)
    ensures MapPath(FileMapping(dir, ext), q) == Some(DirPrefix(dir) + (q[1..] + ext))
    ensures AllNames(Segs(q[1..] + ext))
  {
    FilePathStack(q);
    var st := Stack(q);
    NormalSegs(true, st);
    assert q[1..] == Join(st, "/");
    ExtOnLast(st, ext);
    var st' := st[..|st| - 1] + [st[|st| - 1] + ext];
    NormalSegs(true, st');
    SegsJoin(st');
    assert MapPath(PhysicalURLPath, q) == Some(q[1..]);
    assert MapPath(AppendExt(PhysicalURLPath, ext), q) == Some(q[1..] + ext) by {
      assert ext == "" ==> q[1..] + ext == q[1..];
    }
    if dir != "" {
      JoinUnder(dir, st');
    } else {
      assert "" + (q[1..] + ext) == q[1..] + ext;
    }
  }

  /** Of the rooted paths exactly those that are clean and name a file are mapped. */
  lemma {:induction false} MappedExactly(dir: string, ext: string, q: string)
    requires Rooted(q) && NoSlash(ext)
    ensures MapPath(FileMapping(dir, ext), q).Some? <==> FilePath(q)
  {
    CleanPathShape(q);
    CleanIdempotent(q);
    assert FilePath(q) <==> !IsDir(q) && q == GetCleanPath(q);
    assert MapPath(PhysicalURLPath, q).Some? <==> FilePath(q);
    assert MapPath(AppendExt(PhysicalURLPath, ext), q).Some? <==> FilePath(q);
  }

  predicate AllNames(segs: seq<string>) { forall i :: 0 <= i < |segs| ==> Name(segs[i]) }

  /** Different physical paths are written to different files. */
  lemma {:induction false} MappingInjective(dir: string, ext: string, p: string, q: string)
    requires FilePath(p) && FilePath(q) && NoSlash(ext)
    requires MapPath(FileMapping(dir, ext), p) == MapPath(FileMapping(dir, ext), q)
    ensures p == q
  {
    MappedFile(dir, ext, p);
    MappedFile(dir, ext, q);
    var d := DirPrefix(dir);
    assert p[1..] + ext == (d + (p[1..] + ext))[|d|..];
    assert q[1..] + ext == (d + (q[1..] + ext))[|d|..];
    CutExt(p[1..], q[1..], ext);
    assert p == ['/'] + p[1..] && q == ['/'] + q[1..];
  }

  lemma {:induction false} CutExt(a: string, b: string, ext: string)
    requires a + ext == b + ext
    ensures a == b
  {
    assert |a| == |b|;
    assert a == (a + ext)[..|a|] && b == (b + ext)[..|b|];
  }

  /** The whole pipeline is total on request paths and two requests share a file exactly when they
      have the same physical path. */
  lemma {:induction false} PipelineTotalInjective(index: string, dir: string, ext: string, p: string, q: string)
    requires (p == "" || Rooted(p)) && (q == "" || Rooted(q)) && Name(index) && NoSlash(ext)
    ensures MapPath(FileMapping(dir, ext), PhysicalPath(index, p)).Some?
    ensures var m, a, b := FileMapping(dir, ext), PhysicalPath(index, p), PhysicalPath(index, q);
      MapPath(m, a) == MapPath(m, b) <==> a == b
  {
    PhysicalPathIsFile(index, p);
    PhysicalPathIsFile(index, q);
    MappedFile(dir, ext, PhysicalPath(index, p));
    var m := FileMapping(dir, ext);
    if MapPath(m, PhysicalPath(index, p)) == MapPath(m, PhysicalPath(index, q)) {
      MappingInjective(dir, ext, PhysicalPath(index, p), PhysicalPath(index, q));
    }
  }

  // ---- Validity URLs ----

  function Digits(n: nat): (s: string)
    ensures s != "" && forall i :: 0 <= i < |s| ==> '0' <= s[i] <= '9'
  {
    if n < 10 then [(('0' as int) + n) as char] else Digits(n / 10) + [(('0' as int) + n % 10) as char]
  }

  /** `%d`. */
  function Decimal(n: int): string { if n < 0 then "-" + Digits(-n) else Digits(n) }

  function Value(s: string): nat
    decreases |s|
  {
    if s == [] then 0
    else
      var c := s[|s| - 1] as int - '0' as int;
      10 * Value(s[..|s| - 1]) + if 0 <= c <= 9 then c else 0
  }

  lemma {:induction false} DigitsValue(n: nat)
    ensures Value(Digits(n)) == n
  {
    if n < 10 {
      assert Digits(n)[..0] == [];
    } else {
      DigitsValue(n / 10);
      var s := Digits(n);
      assert s[..|s| - 1] == Digits(n / 10);
    }
  }

  lemma {:induction false} DecimalSign(m: int)
    ensures Decimal(m) != ""
    ensures m < 0 ==> Decimal(m)[0] == '-' && Decimal(m)[1..] == Digits(-m)
    ensures m >= 0 ==> Decimal(m)[0] != '-' && Decimal(m) == Digits(m)
  {
    if m < 0 { ConsTail('-', Digits(-m)); }
  }

  lemma {:induction false} DecimalInjective(m: int, n: int)
    requires Decimal(m) == Decimal(n)
    ensures m == n
  {
    DecimalSign(m);
    DecimalSign(n);
    DigitsValue(if m < 0 then -m else m);
    DigitsValue(if n < 0 then -n else n);
  }

  /** The path of `toValidityURL`; None when the physical path looks like a directory. */
  function ValidityPath(q: string, ext: string, unix: int): Option<string> {
    if IsDir(q) then None else Some(q + (ext + ("." + Decimal(unix))))
  }

  predicate NoDot(s: string) { forall i :: 0 <= i < |s| ==> s[i] != '.' }

  lemma {:induction false} DecimalNoDot(n: int)
    ensures NoDot(Decimal(n))
  {
  }

  lemma {:induction false} SplitAtLastDot(a: string, x: string, b: string, y: string)
    requires NoDot(x) && NoDot(y) && a + ("." + x) == b + ("." + y)
    ensures a == b && x == y
  {
    var s := a + ("." + x);
    assert s[|a|] == '.' && s[|b|] == '.';
    assert forall k :: |a| < k < |s| ==> s[k] == x[k - |a| - 1] && s[k] != '.';
    assert forall k :: |b| < k < |s| ==> s[k] == y[k - |b| - 1] && s[k] != '.';
    assert a == s[..|a|] && b == s[..|b|];
    assert x == s[|a| + 1..] && y == s[|b| + 1..];
  }

  /** Validity URLs exist for every physical path of the default rules and tell both the path and
      the time apart. */
  lemma {:induction false} ValidityInjective(index: string, ext: string, p: string, t: int, q: string, u: int)
    requires (p == "" || Rooted(p)) && (q == "" || Rooted(q)) && Name(index)
    ensures ValidityPath(PhysicalPath(index, p), ext, t) == Some(PhysicalPath(index, p) + ext + "." + Decimal(t))
    ensures ValidityPath(PhysicalPath(index, p), ext, t) == ValidityPath(PhysicalPath(index, q), ext, u)
       <==> PhysicalPath(index, p) == PhysicalPath(index, q) && t == u
  {
    PhysicalPathIsFile(index, p);
    PhysicalPathIsFile(index, q);
    var a, b := PhysicalPath(index, p), PhysicalPath(index, q);
    Assoc(a + ext, ".", Decimal(t));
    Assoc(a, ext, "." + Decimal(t));
    if a + (ext + ("." + Decimal(t))) == b + (ext + ("." + Decimal(u))) {
      Assoc(a, ext, "." + Decimal(t));
      Assoc(b, ext, "." + Decimal(u));
      DecimalNoDot(t);
      DecimalNoDot(u);
      SplitAtLastDot(a + ext, Decimal(t), b + ext, Decimal(u));
      DecimalInjective(t, u);
      CutExt(a, b, ext);
    }
  }
}
