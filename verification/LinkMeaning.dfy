/** What a Link header means, read off its derivation, and the proof that `Parse` computes it. */
module LinkMeaning {
  import opened Text
  import opened HttpLink
  import opened LinkGrammar
  import R = LinkRoundTrip

  function ValText(v: Val): string {
    match v
    case TokenVal(text) => text
    case QuotedVal(body) => DropBackslashes(body)
  }

  function Assigned(t: ParamTree): string { if t.val.None? then "" else ValText(t.val.value) }

  /** The parameters set one after the other, later ones winning. */
  function Meaning(p: LinkParams, ps: seq<ParamTree>): LinkParams
    decreases |ps|
  {
    if ps == [] then p else Meaning(SetParam(p, ps[0].key, Assigned(ps[0])), ps[1..])
  }

  // ---- One parameter ----

  predicate Core(c: string) { c != [] && !IsSpace(c[0]) && !IsSpace(c[|c| - 1]) }

  lemma {:induction false} TrimTail(c: string, b: string)
    requires Core(c) && AllIn(ReSpace, b)
    ensures TrimRight(c + b) == c
    decreases |b|
  {
    if b == [] {
      assert c + b == c;
    } else {
      var b' := b[..|b| - 1];
      assert (c + b)[..|c + b| - 1] == c + b';
      assert In(ReSpace, b[|b| - 1]);
      TrimTail(c, b');
    }
  }

  lemma {:induction false} TrimCore(a: string, c: string, b: string)
    requires AllIn(ReSpace, a) && Core(c) && AllIn(ReSpace, b)
    ensures TrimSpace(a + (c + b)) == c
  {
    assert (c + b)[0] == c[0];
    DropStops(GoSpace, a, c + b);
    TrimTail(c, b);
  }

  lemma {:induction false} TrimKey(key: string, sp: string)
    requires key != "" && AllIn(Token, key) && AllIn(ReSpace, sp)
    ensures TrimSpace(key + sp) == key
  {
    assert Core(key);
    TrimCore([], key, sp);
    assert [] + (key + sp) == key + sp;
  }

  lemma {:induction false} SetLower(p: LinkParams, key: string, val: string)
    ensures SetParam(p, ToLower(key), val) == SetParam(p, key, val)
  {
    R.LowerIdempotent(key);
  }

  lemma {:induction false} NoEquals(key: string, sp: string)
    requires AllIn(Token, key) && AllIn(ReSpace, sp)
    ensures AllIn(NonEquals, key + sp)
  {
  }

  lemma {:induction false} BareBody(p: LinkParams, key: string, sp: string)
    requires key != "" && AllIn(Token, key) && AllIn(ReSpace, sp)
    ensures AddParam(p, key + sp) == SetParam(p, key, "")
  {
    var m := key + sp;
    NoEquals(key, sp);
    DropStops(NonEquals, m, []);
    assert m + [] == m;
    assert Before(m, []) == m;
    TrimKey(key, sp);
    SetLower(p, key, "");
  }

  lemma {:induction false} ValUnquoted(v: Val)
    requires ValOk(v)
    ensures Core(ValYield(v)) && Unquoted(ValYield(v)) == ValText(v)
  {
    var y := ValYield(v);
    if v.QuotedVal? {
      assert y[0] == '"' && y[|y| - 1] == '"';
      assert y[1..|y| - 1] == v.body;
    }
  }

  lemma {:induction false} ValuedBody(p: LinkParams, key: string, sp: string, gap: string, v: Val)
    requires key != "" && AllIn(Token, key) && AllIn(ReSpace, sp) && AllIn(ReSpace, gap) && ValOk(v)
    ensures AddParam(p, key + sp + ("=" + (gap + ValYield(v)))) == SetParam(p, key, ValText(v))
  {
    var h, y := key + sp, ValYield(v);
    var r := "=" + (gap + y);
    NoEquals(key, sp);
    DropStops(NonEquals, h, r);
    BeforeConcat(h, r);
    TrimKey(key, sp);
    ConsTail('=', gap + y);
    ValUnquoted(v);
    TrimCore(gap, y, []);
    assert y + [] == y;
    SetLower(p, key, ValText(v));
  }

  /** What the parser takes as the text of a parameter means that parameter. */
  lemma {:induction false} BodyMeans(p: LinkParams, t: ParamTree, tail: string)
    requires ParamOk(t)
    ensures var x := t.key + AssignYield(t, tail);
      |Stop(t, tail)| <= |x| && AddParam(p, Before(x, Stop(t, tail))) == SetParam(p, t.key, Assigned(t))
  {
    var x := t.key + AssignYield(t, tail);
    if t.val.None? {
      var g := SplitDrop(ReSpace, tail);
      var d := Drop(ReSpace, tail);
      assert x == t.key + (t.sp + g) + d;
      BeforeConcat(t.key + (t.sp + g), d);
      BareBody(p, t.key, t.sp + g);
    } else {
      var r := "=" + (t.valGap + ValYield(t.val.value));
      assert x == t.key + t.sp + r + tail;
      BeforeConcat(t.key + t.sp + r, tail);
      ValuedBody(p, t.key, t.sp, t.valGap, t.val.value);
    }
  }

  // ---- All parameters of a link ----

  lemma {:induction false} FindSkips(sp: string, t: string)
    requires AllIn(ReSpace, sp)
    ensures FindParams(sp + t) == FindParams(t)
    decreases |sp|
  {
    if sp == [] {
      assert sp + t == t;
    } else {
      assert In(ReSpace, sp[0]);
      assert (sp + t)[1..] == sp[1..] + t;
      FindSkips(sp[1..], t);
    }
  }

  lemma {:induction false} FindStop(t: ParamTree, tail: string)
    ensures FindParams(Stop(t, tail)) == FindParams(tail)
  {
    var g := SplitDrop(ReSpace, tail);
    FindSkips(g, Drop(ReSpace, tail));
  }

  lemma {:induction false} FindFirst(t: ParamTree, tail: string)
    requires ParamOk(t) && Ends(tail)
    ensures var x := t.key + AssignYield(t, tail);
      |Stop(t, tail)| <= |x| && FindParams(ParamYield(t, tail)) == [Before(x, Stop(t, tail))] + FindParams(tail)
  {
    var x := t.key + AssignYield(t, tail);
    var y := t.gap + x;
    KeyScans(t, tail);
    DropStops(ReSpace, t.gap, x);
    ConsTail(';', y);
    FindSkips(t.lead, ";" + y);
    FindStop(t, tail);
  }

  lemma {:induction false} FindAll(q: LinkParams, ps: seq<ParamTree>, trail: string)
    requires AllOk(ps) && AllIn(ReSpace, trail)
    ensures AddParams(q, FindParams(ParamsYield(ps, trail))) == Meaning(q, ps)
    decreases |ps|
  {
    if ps == [] {
      FindSkips(trail, []);
      assert trail + [] == trail;
    } else {
      var t, tail := ps[0], ParamsYield(ps[1..], trail);
      DropStops(ReSpace, trail, []);
      assert trail + [] == trail;
      ParamsEnds(ps[1..], trail);
      FindFirst(t, tail);
      BodyMeans(q, t, tail);
      ConsTail(Before(t.key + AssignYield(t, tail), Stop(t, tail)), FindParams(tail));
      FindAll(SetParam(q, t.key, Assigned(t)), ps[1..], trail);
    }
  }

  // ---- One link ----

  lemma {:induction false} ParamYieldConcat(p: ParamTree, a: string, b: string)
    ensures ParamYield(p, a + b) == ParamYield(p, a) + b
  {
    assert AssignYield(p, a + b) == AssignYield(p, a) + b;
    var c := AssignYield(p, a);
    Assoc(p.key, c, b);
    Assoc(p.gap, p.key + c, b);
    Assoc(";", p.gap + (p.key + c), b);
    Assoc(p.lead, ";" + (p.gap + (p.key + c)), b);
  }

  lemma {:induction false} YieldConcat(ps: seq<ParamTree>, a: string, b: string)
    ensures ParamsYield(ps, a + b) == ParamsYield(ps, a) + b
    decreases |ps|
  {
    if ps != [] {
      YieldConcat(ps[1..], a, b);
      ParamYieldConcat(ps[0], ParamsYield(ps[1..], a), b);
    }
  }

  lemma {:induction false} BracketsConcat(u: string, z: string, e: string)
    ensures "<" + (u + (">" + (z + e))) == "<" + u + ">" + z + e
  {
  }

  /** The captured link is the URI in brackets with the parameters and perhaps the spaces after. */
  lemma {:induction false} RawIs(v: ValueTree, rest: string) returns (sp: string)
    requires ValueOk(v, rest)
    ensures AllIn(ReSpace, sp) && (sp == "" || sp == v.trail) && MatchValue(ValueYield(v, rest)).Some?
    ensures MatchValue(ValueYield(v, rest)).value.raw == "<" + v.uri + ">" + ParamsYield(v.params, sp)
  {
    var t := Tail(v, rest);
    var d := if v.comma then "," + rest else rest;
    DropStops(ReSpace, v.trail, d);
    ParamsScan(v.params, t);
    Complete(v, rest);
    var w := ParamsYield(v.params, t);
    var e := ParamsRest(w);
    var z: string;
    if e == t {
      sp := "";
      assert sp + t == t;
    } else {
      sp := v.trail;
    }
    z := ParamsYield(v.params, sp);
    YieldConcat(v.params, sp, e);
    BracketsConcat(v.uri, z, e);
    BeforeConcat("<" + v.uri + ">" + z, e);
    RawUnfold(v, w, ValueYield(v, rest));
  }

  lemma {:induction false} RawUnfold(v: ValueTree, w: string, s: string)
    requires AllIn(ReSpace, v.lead) && AllIn(UriText, v.uri) && s == v.lead + ("<" + (v.uri + (">" + w)))
    ensures |ParamsRest(w)| <= |"<" + (v.uri + (">" + w))|
    ensures MatchValue(s).Some? ==> MatchValue(s).value.raw == Before("<" + (v.uri + (">" + w)), ParamsRest(w))
  {
    var x := v.uri + (">" + w);
    DropStops(ReSpace, v.lead, "<" + x);
    ConsTail('<', x);
    DropStops(UriText, v.uri, ">" + w);
    ConsTail('>', w);
  }

  /** The URI opens no quoted string that the parameters after it close. */
  predicate Tidy(v: ValueTree) { !R.Spills(v.uri, ">" + ParamsYield(v.params, v.trail)) }

  lemma {:induction false} SpillsMore(u: string, y: string, z: string)
    ensures R.Spills(u, y) ==> R.Spills(u, y + z)
    decreases |u|
  {
    if u == [] {
    } else if u[0] != ';' {
      SpillsMore(u[1..], y, z);
    } else {
      var b := Drop(ReSpace, u[1..]);
      if ParamRest(b).None? {
        SpillsMore(u[1..], y, z);
      } else if R.SpillsAt(b, y) {
        var q := R.Opening(b).value;
        R.QuotedRestBefore(q + y, z);
        Assoc(q, y, z);
      } else {
        SpillsMore(ParamRest(b).value, y, z);
      }
    }
  }

  lemma {:induction false} TidyEitherWay(v: ValueTree, sp: string)
    requires Tidy(v) && (sp == "" || sp == v.trail)
    ensures !R.Spills(v.uri, ">" + ParamsYield(v.params, sp))
  {
    var y := ParamsYield(v.params, "");
    SpillsMore(v.uri, ">" + y, v.trail);
    Assoc(">", y, v.trail);
    YieldConcat(v.params, "", v.trail);
    assert "" + v.trail == v.trail;
  }

  /** The parameters of a link are those of its derivation, set on top of any found in its URI. */
  lemma {:induction false} ValueMeans(v: ValueTree, rest: string)
    requires ValueOk(v, rest) && Tidy(v)
    ensures MatchValue(ValueYield(v, rest)).Some?
    ensures AddParams(map[], FindParams(MatchValue(ValueYield(v, rest)).value.raw))
         == Meaning(R.UriParams(v.uri), v.params)
  {
    var sp := RawIs(v, rest);
    var w := ParamsYield(v.params, sp);
    TidyEitherWay(v, sp);
    R.FindsInLink(v.uri, w);
    R.AddParamsConcat(map[], FindParams(v.uri), FindParams(w));
    FindAll(R.UriParams(v.uri), v.params, sp);
  }

  // ---- Headers ----

  function HeaderYield(vs: seq<ValueTree>): string
    decreases |vs|
  {
    if vs == [] then "" else ValueYield(vs[0], HeaderYield(vs[1..]))
  }

  predicate HeaderOk(vs: seq<ValueTree>)
    decreases |vs|
  {
    vs == [] || (ValueOk(vs[0], HeaderYield(vs[1..])) && HeaderOk(vs[1..]))
  }

  /** The links a header denotes, or the error of its first bad URI. */
  function Denotes(parseURL: string -> Option<string>, vs: seq<ValueTree>): ParseResult
    decreases |vs|
  {
    if vs == [] then Parsed([])
    else
      var u := parseURL(vs[0].uri);
      if u.None? then Failed(InvalidURL)
      else Prefixed([Link(u.value, Meaning(R.UriParams(vs[0].uri), vs[0].params))], Denotes(parseURL, vs[1..]))
  }

  predicate GoodURIs(parseURL: string -> Option<string>, vs: seq<ValueTree>) {
    forall i :: 0 <= i < |vs| ==> parseURL(vs[i].uri).Some?
  }

  lemma {:induction false} YieldNotEmpty(v: ValueTree, rest: string)
    ensures ValueYield(v, rest) != []
  {
    assert |ValueYield(v, rest)| > 0;
  }

  lemma {:induction false} DenotesStep(
      parseURL: string -> Option<string>, s: string, v: ValueTree, rest: string, more: ParseResult)
    requires s != [] && MatchValue(s).Some? && MatchValue(s).value.uri == v.uri && MatchValue(s).value.rest == rest
    requires AddParams(map[], FindParams(MatchValue(s).value.raw)) == Meaning(R.UriParams(v.uri), v.params)
    requires ParseText(parseURL, rest) == more
    ensures ParseText(parseURL, s) == var u := parseURL(v.uri);
      if u.None? then Failed(InvalidURL)
      else Prefixed([Link(u.value, Meaning(R.UriParams(v.uri), v.params))], more)
  {
    var u := parseURL(v.uri);
    if u.Some? {
      ParseOne(parseURL, s, Link(u.value, Meaning(R.UriParams(v.uri), v.params)));
    }
  }

  /** Every header of the grammar parses to what it denotes. */
  lemma {:induction false} ParseDenotes(parseURL: string -> Option<string>, vs: seq<ValueTree>)
    requires HeaderOk(vs) && forall i :: 0 <= i < |vs| ==> Tidy(vs[i])
    ensures ParseText(parseURL, HeaderYield(vs)) == Denotes(parseURL, vs)
    decreases |vs|
  {
    if vs != [] {
      var v, rest := vs[0], HeaderYield(vs[1..]);
      YieldNotEmpty(v, rest);
      Complete(v, rest);
      ValueMeans(v, rest);
      ParseDenotes(parseURL, vs[1..]);
      DenotesStep(parseURL, ValueYield(v, rest), v, rest, Denotes(parseURL, vs[1..]));
    }
  }

  /** A header that parses is one of the grammar. */
  lemma {:induction false} ParseDerives(parseURL: string -> Option<string>, s: string) returns (vs: seq<ValueTree>)
    requires ParseText(parseURL, s).Parsed?
    ensures HeaderOk(vs) && s == HeaderYield(vs)
    ensures GoodURIs(parseURL, vs)
    decreases |s|
  {
    if s == [] {
      vs := [];
    } else {
      var v := Sound(s);
      var more := ParseDerives(parseURL, MatchValue(s).value.rest);
      vs := [v] + more;
      ConsTail(v, more);
    }
  }

  lemma {:induction false} ParseAccepts(parseURL: string -> Option<string>, vs: seq<ValueTree>)
    requires HeaderOk(vs) && GoodURIs(parseURL, vs)
    ensures ParseText(parseURL, HeaderYield(vs)).Parsed?
    decreases |vs|
  {
    if vs != [] {
      YieldNotEmpty(vs[0], HeaderYield(vs[1..]));
      Complete(vs[0], HeaderYield(vs[1..]));
      ParseAccepts(parseURL, vs[1..]);
    }
  }

  /** `Parse` succeeds exactly on the headers of the grammar whose URIs are all valid. */
  lemma {:induction false} ParseExact(parseURL: string -> Option<string>, s: string)
    ensures ParseText(parseURL, s).Parsed? <==>
      exists vs :: HeaderOk(vs) && s == HeaderYield(vs) && GoodURIs(parseURL, vs)
  {
    if ParseText(parseURL, s).Parsed? {
      var vs := ParseDerives(parseURL, s);
      assert HeaderOk(vs) && s == HeaderYield(vs);
    }
    forall vs | HeaderOk(vs) && s == HeaderYield(vs) && GoodURIs(parseURL, vs)
      ensures ParseText(parseURL, s).Parsed?
    {
      ParseAccepts(parseURL, vs);
    }
  }
}
