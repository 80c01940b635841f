/** The documented rewriting rules of Go's `path.Clean`, as equations on strings that hold in every
    context, and what the directory test means on strings. */
module PathRules {
  import opened Text
  import opened Paths

  /** The stack of a path in three parts. */
  lemma {:induction false} StackOfThree(x: string, m: string, y: string)
    ensures var p := x + ("/" + (m + ("/" + y))); var rooted := x == "" || Rooted(x);
      p != "" && Rooted(p) == rooted
      && Stack(p) == Resolve(rooted, Resolve(rooted, Resolve(rooted, [], Segs(x)), Segs(m)), Segs(y))
  {
    var rest := m + ("/" + y);
    var p := x + ("/" + rest);
    var rooted := x == "" || Rooted(x);
    assert x == "" ==> p == "/" + rest;
    assert x != "" ==> p[0] == x[0];
    SegsSlash(x, rest);
    SegsSlash(m, y);
    ResolveConcat(rooted, [], Segs(x), Segs(m) + Segs(y));
    ResolveConcat(rooted, Resolve(rooted, [], Segs(x)), Segs(m), Segs(y));
  }

  lemma {:induction false} StackOfTwo(x: string, y: string)
    ensures var p := x + ("/" + y); var rooted := x == "" || Rooted(x);
      p != "" && Rooted(p) == rooted && Stack(p) == Resolve(rooted, Resolve(rooted, [], Segs(x)), Segs(y))
  {
    var p := x + ("/" + y);
    var rooted := x == "" || Rooted(x);
    assert x == "" ==> p == "/" + y;
    assert x != "" ==> p[0] == x[0];
    SegsSlash(x, y);
    ResolveConcat(rooted, [], Segs(x), Segs(y));
  }

  /** A part that leaves every stack alone can be taken out. */
  lemma {:induction false} Removable(x: string, m: string, y: string)
    requires forall rooted, st :: Resolve(rooted, st, Segs(m)) == st
    ensures Clean(x + ("/" + (m + ("/" + y)))) == Clean(x + ("/" + y))
  {
    StackOfThree(x, m, y);
    StackOfTwo(x, y);
  }

  lemma {:induction false} ResolveTwo(rooted: bool, st: seq<string>, a: string, b: string)
    ensures Resolve(rooted, st, [a, b]) == Push(rooted, Push(rooted, st, a), b)
  {
    assert [a, b][1..] == [b] && [b][1..] == [];
    assert Resolve(rooted, st, [a, b]) == Resolve(rooted, Push(rooted, st, a), [b]);
    assert Resolve(rooted, Push(rooted, st, a), [b]) == Resolve(rooted, Push(rooted, Push(rooted, st, a), b), []);
  }

  lemma {:induction false} ResolveOne(rooted: bool, st: seq<string>, a: string)
    ensures Resolve(rooted, st, [a]) == Push(rooted, st, a)
  {
    assert [a][1..] == [];
    assert Resolve(rooted, st, [a]) == Resolve(rooted, Push(rooted, st, a), []);
  }

  /** Rule 1: multiple slashes become one. */
  lemma {:induction false} DoubleSlash(x: string, y: string)
    ensures Clean(x + "//" + y) == Clean(x + "/" + y)
  {
    SegsOne("");
    forall rooted, st ensures Resolve(rooted, st, Segs("")) == st { ResolveOne(rooted, st, ""); }
    Removable(x, "", y);
    assert x + "//" + y == x + ("/" + ("" + ("/" + y)));
    Assoc(x, "/", y);
  }

  /** Rule 2: a "." element goes. */
  lemma {:induction false} DotElement(x: string, y: string)
    ensures Clean(x + "/./" + y) == Clean(x + "/" + y)
  {
    SegsOne(".");
    forall rooted, st ensures Resolve(rooted, st, Segs(".")) == st { ResolveOne(rooted, st, "."); }
    Removable(x, ".", y);
    assert x + "/./" + y == x + ("/" + ("." + ("/" + y)));
    Assoc(x, "/", y);
  }

  lemma {:induction false} UpFromName(s: string)
    requires Name(s)
    ensures Segs(s + "/..") == [s, ".."]
    ensures forall rooted, st :: Resolve(rooted, st, [s, ".."]) == st
  {
    SegsSlash(s, "..");
    SegsOne(s);
    SegsOne("..");
    assert s + ("/" + "..") == s + "/..";
    assert [s] + [".."] == [s, ".."];
    forall rooted, st ensures Resolve(rooted, st, [s, ".."]) == st {
      ResolveTwo(rooted, st, s, "..");
      assert Push(rooted, st, s) == st + [s];
      assert (st + [s])[..|st|] == st;
    }
  }

  /** Rule 3: a ".." element goes together with the name in front of it. */
  lemma {:induction false} UpElement(x: string, s: string, y: string)
    requires Name(s)
    ensures Clean(x + "/" + s + "/../" + y) == Clean(x + "/" + y)
  {
    UpFromName(s);
    var m := s + "/..";
    Removable(x, m, y);
    assert x + "/" + s + "/../" + y == x + ("/" + (m + ("/" + y)));
    Assoc(x, "/", y);
  }

  /** The same at the end of the path. */
  lemma {:induction false} UpAtEnd(p: string, s: string)
    requires p != "" && Name(s)
    ensures Clean(p + "/" + s + "/..") == Clean(p)
  {
    UpFromName(s);
    StackOfTwo(p, s + "/..");
    assert p + "/" + s + "/.." == p + ("/" + (s + "/.."));
  }

  /** And at the start of a relative one. */
  lemma {:induction false} UpAtStart(s: string, y: string)
    requires Name(s) && !Rooted(y)
    ensures Clean(s + "/../" + y) == Clean(y)
  {
    UpFromName(s);
    StackOfTwo(s + "/..", y);
    var p := s + "/../" + y;
    assert p == s + "/.." + ("/" + y);
    assert !Rooted(s + "/..") by { assert (s + "/..")[0] == s[0]; }
    if y == "" {
      SegsOne("");
      ResolveOne(false, [], "");
    }
  }

  lemma {:induction false} DotAtStart(y: string)
    requires !Rooted(y)
    ensures Clean("./" + y) == Clean(y)
  {
    SegsOne(".");
    ResolveOne(false, [], ".");
    StackOfTwo(".", y);
    assert "./" + y == "." + ("/" + y);
    if y == "" {
      SegsOne("");
      ResolveOne(false, [], "");
    }
  }

  /** Rule 4: ".." at the start of a rooted path goes. */
  lemma {:induction false} UpFromRoot(y: string)
    ensures Clean("/../" + y) == Clean("/" + y)
  {
    SegsOne("");
    SegsOne("..");
    ResolveOne(true, [], "");
    ResolveOne(true, [], "..");
    StackOfThree("", "..", y);
    StackOfTwo("", y);
    assert "/../" + y == "" + ("/" + (".." + ("/" + y)));
    assert "/" + y == "" + ("/" + y);
  }

  /** A trailing slash goes, except from the root. */
  lemma {:induction false} SlashAtEnd(p: string)
    requires p != ""
    ensures Clean(p + "/") == Clean(p)
  {
    TrailingSlash(p);
  }

  /** What none of the rules applies to is left alone: names, after ".." elements if relative. */
  lemma {:induction false} CleanFixes(ups: nat, names: seq<string>)
    requires forall i :: 0 <= i < |names| ==> Name(names[i])
    ensures Clean("/" + Join(names, "/")) == "/" + Join(names, "/")
    ensures var st := seq(ups, i => "..") + names; st != [] ==> Clean(Join(st, "/")) == Join(st, "/")
    ensures Clean("") == "."
  {
    assert Normal(true, names);
    RenderStack(true, names);
    var st := seq(ups, i => "..") + names;
    assert Normal(false, st);
    if st != [] {
      RenderStack(false, st);
      NormalSegs(false, st);
    }
  }

  // ---- The directory test ----

  predicate EndsIn(p: string, suffix: string) { |p| >= |suffix| && p[|p| - |suffix|..] == suffix }

  /** The last element and what is in front of it. */
  lemma {:induction false} LastSplits(p: string)
    ensures |Last(p)| <= |p| && p[|p| - |Last(p)|..] == Last(p) && NoSlash(Last(p))
    ensures |Last(p)| < |p| ==> p[|p| - |Last(p)| - 1] == '/'
    decreases |p|
  {
    SegsNoSlash(p);
    if p != "" {
      var q := p[1..];
      LastSplits(q);
      LastOfTail(p);
    }
  }

  lemma {:induction false} LastOfTail(p: string)
    requires p != ""
    ensures Last(p) == if NoSlash(p) then p else Last(p[1..])
  {
    if NoSlash(p) {
      SegsOne(p);
    } else {
      var q := p[1..];
      assert p == [p[0]] + q;
      if p[0] == '/' {
        SegsRooted(q);
      } else {
        assert !NoSlash(q);
        LongSegs(q);
      }
    }
  }

  lemma {:induction false} LongSegs(p: string)
    requires !NoSlash(p)
    ensures |Segs(p)| >= 2
    decreases |p|
  {
    var q := p[1..];
    if p[0] != '/' {
      var i :| 0 <= i < |p| && p[i] == '/';
      assert q[i - 1] == '/';
      LongSegs(q);
    }
  }

  /** Ends in the element, which is all of the path or follows a slash. */
  predicate EndsInElement(p: string, l: string) { p == l || EndsIn(p, "/" + l) }

  lemma {:induction false} LastExactly(p: string, l: string)
    requires NoSlash(l)
    ensures Last(p) == l <==> EndsInElement(p, l)
  {
    LastSplits(p);
    if p == l { SegsOne(p); }
    if EndsIn(p, "/" + l) { LastAfter(p, l); }
    var n := |p| - |Last(p)|;
    if Last(p) == l {
      if n == 0 {
        assert p == p[0..];
      } else {
        assert p[n - 1..] == [p[n - 1]] + p[n..];
      }
    }
  }

  /** `IsDir` as its documentation says it: nothing or a slash, ".", or ".." at the end. */
  lemma {:induction false} IsDirExactly(p: string)
    ensures IsDir(p) <==> EndsInElement(p, "") || EndsInElement(p, ".") || EndsInElement(p, "..")
  {
    LastExactly(p, "");
    LastExactly(p, ".");
    LastExactly(p, "..");
  }

  lemma {:induction false} LastAfter(p: string, l: string)
    requires EndsIn(p, "/" + l) && NoSlash(l)
    ensures Last(p) == l
  {
    var x := p[..|p| - |l| - 1];
    assert p == x + ("/" + l);
    SegsSlash(x, l);
    SegsOne(l);
  }
}
