/** The language of the regular expressions in `resource/httplink/parse.go`, as derivation trees,
    and the proof that the scanner recognises exactly it. */
module LinkGrammar {
  import opened Text
  import opened HttpLink

  /** A token, or the inside of a quoted string. */
  datatype Val = TokenVal(text: string) | QuotedVal(body: string)

  /** `\s*;\s*token\s*(?:=\s*(?:token|quoted))?`, piece by piece. */
  datatype ParamTree = ParamTree(lead: string, gap: string, key: string, sp: string, val: Option<Val>, valGap: string)

  /** A match of `^\s*(<uri>params)\s*(?:,|$)`. */
  datatype ValueTree = ValueTree(lead: string, uri: string, params: seq<ParamTree>, trail: string, comma: bool)

  predicate AllIn(k: CharClass, s: string) { forall i :: 0 <= i < |s| ==> In(k, s[i]) }

  /** `(?:[^"\\]|\\.)*`. */
  predicate QuotedBody(s: string)
    decreases |s|
  {
    s == [] || (s[0] != '"' && s[0] != '\\' && QuotedBody(s[1..]))
    || (s[0] == '\\' && |s| >= 2 && s[1] != '\n' && QuotedBody(s[2..]))
  }

  predicate ValOk(v: Val) {
    match v
    case TokenVal(text) => text != "" && AllIn(Token, text)
    case QuotedVal(body) => QuotedBody(body)
  }

  function ValYield(v: Val): string {
    match v
    case TokenVal(text) => text
    case QuotedVal(body) => "\"" + (body + "\"")
  }

  predicate ParamOk(p: ParamTree) {
    && AllIn(ReSpace, p.lead) && AllIn(ReSpace, p.gap) && AllIn(ReSpace, p.sp) && AllIn(ReSpace, p.valGap)
    && p.key != "" && AllIn(Token, p.key) && (p.val.Some? ==> ValOk(p.val.value))
  }

  /** The text after the key of a parameter, followed by `tail`. */
  function AssignYield(p: ParamTree, tail: string): string {
    if p.val.None? then p.sp + tail else p.sp + ("=" + (p.valGap + (ValYield(p.val.value) + tail)))
  }

  function ParamYield(p: ParamTree, tail: string): string {
    p.lead + (";" + (p.gap + (p.key + AssignYield(p, tail))))
  }

  function ParamsYield(ps: seq<ParamTree>, tail: string): string
    decreases |ps|
  {
    if ps == [] then tail else ParamYield(ps[0], ParamsYield(ps[1..], tail))
  }

  predicate AllOk(ps: seq<ParamTree>) { forall i :: 0 <= i < |ps| ==> ParamOk(ps[i]) }

  predicate ValueOk(v: ValueTree, rest: string) {
    AllIn(ReSpace, v.lead) && AllIn(UriText, v.uri) && AllOk(v.params) && AllIn(ReSpace, v.trail)
    && (v.comma || rest == "")
  }

  /** What follows the parameters. */
  function Tail(v: ValueTree, rest: string): string { v.trail + if v.comma then "," + rest else rest }

  /** The text of a match followed by the text after it. */
  function ValueYield(v: ValueTree, rest: string): string {
    v.lead + ("<" + (v.uri + (">" + ParamsYield(v.params, Tail(v, rest)))))
  }

  // ---- Complete: the scanner accepts every derivation ----

  /** After optional spaces comes a delimiter or the end. */
  predicate Ends(t: string) {
    var d := Drop(ReSpace, t);
    d == [] || d[0] == ';' || d[0] == ','
  }

  lemma {:induction false} DropTwice(sp: string, t: string)
    requires AllIn(ReSpace, sp)
    ensures Drop(ReSpace, sp + t) == Drop(ReSpace, t)
    decreases |sp|
  {
    if sp == [] {
      assert sp + t == t;
    } else {
      assert (sp + t)[1..] == sp[1..] + t;
      DropTwice(sp[1..], t);
    }
  }

  lemma {:induction false} DropAgain(t: string)
    ensures Drop(ReSpace, Drop(ReSpace, t)) == Drop(ReSpace, t)
  {
  }

  lemma {:induction false} EndsHead(t: string)
    requires Ends(t)
    ensures t == [] || (!In(Token, t[0]) && t[0] != '=')
  {
    if t != [] && In(ReSpace, t[0]) {
    }
  }

  lemma {:induction false} BodyScans(body: string, rest: string)
    requires QuotedBody(body)
    ensures QuotedRest(body + ("\"" + rest)) == Some(rest)
    decreases |body|
  {
    var s := body + ("\"" + rest);
    if body == [] {
      assert s == "\"" + rest;
      ConsTail('"', rest);
    } else if body[0] != '\\' {
      assert s[1..] == body[1..] + ("\"" + rest);
      BodyScans(body[1..], rest);
    } else {
      assert s[2..] == body[2..] + ("\"" + rest);
      BodyScans(body[2..], rest);
    }
  }

  lemma {:induction false} ValScans(v: Val, tail: string)
    requires ValOk(v) && (tail == [] || !In(Token, tail[0]))
    ensures ValueRest(ValYield(v) + tail) == Some(tail)
    ensures !In(ReSpace, (ValYield(v) + tail)[0])
  {
    var s := ValYield(v) + tail;
    match v
    case TokenVal(text) =>
      assert s[0] == text[0];
      assert s[1..] == text[1..] + tail;
      DropStops(Token, text[1..], tail);
    case QuotedVal(body) =>
      Assoc("\"", body + "\"", tail);
      Assoc(body, "\"", tail);
      ConsTail('"', body + ("\"" + tail));
      BodyScans(body, tail);
  }

  /** Where the scanner stops after a parameter: a bare key takes the spaces after it along. */
  function Stop(p: ParamTree, tail: string): string { if p.val.None? then Drop(ReSpace, tail) else tail }

  lemma {:induction false} AssignScans(p: ParamTree, tail: string)
    requires ParamOk(p) && Ends(tail)
    ensures AssignRest(Drop(ReSpace, AssignYield(p, tail))) == Stop(p, tail)
  {
    EndsHead(tail);
    if p.val.None? {
      DropTwice(p.sp, tail);
    } else {
      var x := ValYield(p.val.value) + tail;
      ValScans(p.val.value, tail);
      DropStops(ReSpace, p.valGap, x);
      ConsTail('=', p.valGap + x);
      DropStops(ReSpace, p.sp, "=" + (p.valGap + x));
    }
  }

  lemma {:induction false} KeyScans(p: ParamTree, tail: string)
    requires ParamOk(p) && Ends(tail)
    ensures ParamRest(p.key + AssignYield(p, tail)) == Some(Stop(p, tail))
    ensures !In(ReSpace, (p.key + AssignYield(p, tail))[0])
  {
    var a := AssignYield(p, tail);
    EndsHead(tail);
    assert a == [] || !In(Token, a[0]) by {
      if p.sp != [] { assert a[0] == p.sp[0]; }
      else if p.val.None? { assert a == tail; }
      else { assert a[0] == '='; }
    }
    var s := p.key + a;
    assert s[0] == p.key[0];
    assert s[1..] == p.key[1..] + a;
    DropStops(Token, p.key[1..], a);
    AssignScans(p, tail);
  }

  lemma {:induction false} ParamsEnds(ps: seq<ParamTree>, tail: string)
    requires AllOk(ps) && Ends(tail)
    ensures Ends(ParamsYield(ps, tail))
  {
    if ps != [] {
      var rest := ps[0].gap + (ps[0].key + AssignYield(ps[0], ParamsYield(ps[1..], tail)));
      DropTwice(ps[0].lead, ";" + rest);
    }
  }

  /** One iteration of the parameter loop, from the text with or without its leading spaces. */
  lemma {:induction false} ParamScans(p: ParamTree, tail: string)
    requires ParamOk(p) && Ends(tail)
    ensures var s := ParamYield(p, tail);
      ParamsRest(s) == ParamsRest(Stop(p, tail)) && ParamsRest(Drop(ReSpace, s)) == ParamsRest(s)
  {
    var x := p.key + AssignYield(p, tail);
    var y := p.gap + x;
    var s := ParamYield(p, tail);
    KeyScans(p, tail);
    DropStops(ReSpace, p.gap, x);
    DropStops(ReSpace, p.lead, ";" + y);
    ConsTail(';', y);
    DropAgain(s);
  }

  /** The tail, with or without the spaces in front of it. */
  predicate IsTail(r: string, tail: string) { r == tail || r == Drop(ReSpace, tail) }

  lemma {:induction false} ParamsScan(ps: seq<ParamTree>, tail: string)
    requires AllOk(ps) && Ends(tail) && (Drop(ReSpace, tail) == [] || Drop(ReSpace, tail)[0] == ',')
    ensures IsTail(ParamsRest(ParamsYield(ps, tail)), tail)
    ensures IsTail(ParamsRest(Drop(ReSpace, ParamsYield(ps, tail))), tail)
    decreases |ps|
  {
    if ps == [] {
      DropAgain(tail);
    } else {
      var next := ParamsYield(ps[1..], tail);
      ParamsEnds(ps[1..], tail);
      ParamScans(ps[0], next);
      ParamsScan(ps[1..], tail);
    }
  }

  /** Every derivation is accepted, with its URI and with what follows it. */
  lemma {:induction false} Complete(v: ValueTree, rest: string)
    requires ValueOk(v, rest)
    ensures var m := MatchValue(ValueYield(v, rest)); m.Some? && m.value.uri == v.uri && m.value.rest == rest
  {
    var t := Tail(v, rest);
    var d := if v.comma then "," + rest else rest;
    DropStops(ReSpace, v.trail, d);
    ParamsScan(v.params, t);
    DropAgain(t);
    var w := ParamsYield(v.params, t);
    var x := v.uri + (">" + w);
    DropStops(ReSpace, v.lead, "<" + x);
    ConsTail('<', x);
    DropStops(UriText, v.uri, ">" + w);
    ConsTail('>', w);
    BeforeConcat(v.uri, ">" + w);
    if v.comma { ConsTail(',', rest); }
  }

  // ---- Sound: what the scanner accepts has a derivation ----

  lemma {:induction false} SplitDrop(k: CharClass, s: string) returns (p: string)
    ensures s == p + Drop(k, s) && AllIn(k, p) && p == Before(s, Drop(k, s))
    decreases |s|
  {
    if s != [] && In(k, s[0]) {
      var q := SplitDrop(k, s[1..]);
      p := [s[0]] + q;
      assert s == [s[0]] + s[1..];
      Assoc([s[0]], q, Drop(k, s));
      BeforeConcat(p, Drop(k, s));
    } else {
      p := [];
      assert [] + s == s;
    }
  }

  lemma {:induction false} BodyOf(s: string) returns (body: string)
    requires QuotedRest(s).Some?
    ensures QuotedBody(body) && s == body + ("\"" + QuotedRest(s).value)
    decreases |s|
  {
    if s[0] == '"' {
      body := [];
      assert s == "\"" + s[1..];
      assert [] + s == s;
    } else if s[0] != '\\' {
      var b := BodyOf(s[1..]);
      body := [s[0]] + b;
      ConsTail(s[0], b);
      assert s == [s[0]] + s[1..];
      Assoc([s[0]], b, "\"" + QuotedRest(s).value);
    } else {
      var b := BodyOf(s[2..]);
      body := [s[0], s[1]] + b;
      assert body[2..] == b;
      assert s == [s[0], s[1]] + s[2..];
      Assoc([s[0], s[1]], b, "\"" + QuotedRest(s).value);
    }
  }

  lemma {:induction false} ValOf(s: string) returns (v: Val)
    requires ValueRest(s).Some?
    ensures ValOk(v) && s == ValYield(v) + ValueRest(s).value
  {
    var r := ValueRest(s).value;
    assert s == [s[0]] + s[1..];
    if s[0] == '"' {
      var body := BodyOf(s[1..]);
      v := QuotedVal(body);
      Assoc("\"", body + "\"", r);
      Assoc(body, "\"", r);
    } else {
      var p := SplitDrop(Token, s[1..]);
      v := TokenVal([s[0]] + p);
      Assoc([s[0]], p, r);
    }
  }

  lemma {:induction false} KeyOf(s: string) returns (key: string, a: string)
    requires s != [] && In(Token, s[0])
    ensures s == key + a && key != "" && AllIn(Token, key) && a == Drop(Token, s[1..])
  {
    a := Drop(Token, s[1..]);
    var k := SplitDrop(Token, s[1..]);
    key := [s[0]] + k;
    assert s == [s[0]] + s[1..];
    Assoc([s[0]], k, a);
  }

  lemma {:induction false} ParamOf(lead: string, gap: string, s: string) returns (p: ParamTree)
    requires ParamRest(s).Some? && AllIn(ReSpace, lead) && AllIn(ReSpace, gap)
    ensures ParamOk(p) && p.lead == lead && p.gap == gap
    ensures s == p.key + AssignYield(p, ParamRest(s).value)
  {
    var key, a := KeyOf(s);
    var sp := SplitDrop(ReSpace, a);
    var b := Drop(ReSpace, a);
    if b != [] && b[0] == '=' && ValueRest(Drop(ReSpace, b[1..])).Some? {
      var gap2 := SplitDrop(ReSpace, b[1..]);
      var v := ValOf(Drop(ReSpace, b[1..]));
      p := ParamTree(lead, gap, key, sp, Some(v), gap2);
      Headed('=', b);
    } else {
      p := ParamTree(lead, gap, key, sp, None, "");
    }
  }

  lemma {:induction false} Headed(c: char, s: string)
    requires s != [] && s[0] == c
    ensures s == [c] + s[1..]
  {
    assert s == s[..1] + s[1..];
    assert s[..1] == [c];
  }

  /** The parameter at the start of `s`, when there is one. */
  lemma {:induction false} FirstParam(s: string) returns (p: ParamTree, rest: string)
    requires var t := Drop(ReSpace, s); t != [] && t[0] == ';' && ParamRest(Drop(ReSpace, t[1..])).Some?
    ensures ParamOk(p) && s == ParamYield(p, rest)
    ensures rest == ParamRest(Drop(ReSpace, Drop(ReSpace, s)[1..])).value
  {
    var t := Drop(ReSpace, s);
    var x := Drop(ReSpace, t[1..]);
    rest := ParamRest(x).value;
    var lead := SplitDrop(ReSpace, s);
    var gap := SplitDrop(ReSpace, t[1..]);
    p := ParamOf(lead, gap, x);
    Headed(';', t);
  }

  lemma {:induction false} ParamsOf(s: string) returns (ps: seq<ParamTree>)
    ensures AllOk(ps) && s == ParamsYield(ps, ParamsRest(s))
    decreases |s|
  {
    var t := Drop(ReSpace, s);
    if t == [] || t[0] != ';' || ParamRest(Drop(ReSpace, t[1..])).None? {
      ps := [];
    } else {
      var p, rest := FirstParam(s);
      var more := ParamsOf(rest);
      ps := [p] + more;
      ConsTail(p, more);
    }
  }

  /** The end of a match: optional spaces, then a comma or nothing. */
  lemma {:induction false} TailOf(e: string) returns (trail: string, comma: bool, rest: string)
    requires var d := Drop(ReSpace, e); d == [] || d[0] == ','
    ensures AllIn(ReSpace, trail) && (comma || rest == "")
    ensures e == trail + if comma then "," + rest else rest
    ensures rest == if Drop(ReSpace, e) == [] then [] else Drop(ReSpace, e)[1..]
  {
    var d := Drop(ReSpace, e);
    trail := SplitDrop(ReSpace, e);
    comma := d != [];
    rest := if comma then d[1..] else [];
    if comma { Headed(',', d); }
  }

  /** Every accepted text is a derivation, with that URI and that rest. */
  lemma {:induction false} Sound(s: string) returns (v: ValueTree)
    requires MatchValue(s).Some?
    ensures var m := MatchValue(s).value; ValueOk(v, m.rest) && v.uri == m.uri && s == ValueYield(v, m.rest)
  {
    var t := Drop(ReSpace, s);
    var u := Drop(UriText, t[1..]);
    var lead := SplitDrop(ReSpace, s);
    var uri := SplitDrop(UriText, t[1..]);
    var ps := ParamsOf(u[1..]);
    var trail, comma, rest := TailOf(ParamsRest(u[1..]));
    v := ValueTree(lead, uri, ps, trail, comma);
    Headed('<', t);
    Headed('>', u);
  }

  /** The scanner accepts a text exactly when the grammar derives a match at its start, and then the
      URI and the remaining text are those of every such derivation. */
  lemma {:induction false} ScannerExact(s: string)
    ensures MatchValue(s).Some? <==> exists v, rest :: ValueOk(v, rest) && s == ValueYield(v, rest)
    ensures forall v, rest :: ValueOk(v, rest) && s == ValueYield(v, rest) ==>
      MatchValue(s).Some? && MatchValue(s).value.uri == v.uri && MatchValue(s).value.rest == rest
  {
    forall v, rest | ValueOk(v, rest) && s == ValueYield(v, rest)
      ensures MatchValue(s).Some? && MatchValue(s).value.uri == v.uri && MatchValue(s).value.rest == rest
    {
      Complete(v, rest);
    }
    if MatchValue(s).Some? {
      var v := Sound(s);
      assert ValueOk(v, MatchValue(s).value.rest) && s == ValueYield(v, MatchValue(s).value.rest);
    }
  }
}
