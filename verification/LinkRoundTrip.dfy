/** Printing links and parsing the text back. */
module LinkRoundTrip {
  import opened Text
  import opened HttpLink

  predicate Ascii(s: string) { forall i :: 0 <= i < |s| ==> s[i] as int < 128 }

  /** A character that survives quoting and the removal of backslashes. */
  predicate Plain(c: char) { ' ' <= c < '\U{7f}' && c != '\\' }
  predicate AllPlain(s: string) { forall i :: 0 <= i < |s| ==> Plain(s[i]) }

  predicate LowerToken(k: string) {
    k != [] && forall i :: 0 <= i < |k| ==> In(Token, k[i]) && !('A' <= k[i] <= 'Z')
  }

  predicate Has(s: string, c: char) { exists i :: 0 <= i < |s| && s[i] == c }

  /** What the printer assumes of a link: parameter names are lower-case tokens, values are
      ASCII, and the URL neither ends its angle brackets nor opens a quoted string that the
      printed parameters close. */
  ghost predicate Printable(l: Link) {
    Lexical(l) && NoBrackets(l.url) && !Spills(l.url, ">" + ParamsOf(l))
  }

  predicate NoBrackets(u: string) { !Has(u, '<') && !Has(u, '>') }

  ghost predicate Lexical(l: Link) { forall k :: k in l.params ==> LowerToken(k) && Ascii(l.params[k]) }

  /** What the parser makes of a printed value. */
  function Reparsed(key: string, val: string): string {
    NormalizeValue(key, if ShouldElide(key, val) then "" else DropBackslashes(Escape(val)))
  }

  // ---- Quoting ----

  lemma {:induction false} OrdinaryScans(c: char, s: string)
    requires c != '"' && c != '\\'
    ensures QuotedRest([c] + s) == QuotedRest(s)
  {
    assert ([c] + s)[1..] == s;
  }

  lemma {:induction false} EscapedScans(c: char, s: string)
    requires c != '\n'
    ensures QuotedRest(['\\', c] + s) == QuotedRest(s)
  {
    assert (['\\', c] + s)[2..] == s;
  }

  lemma {:induction false} HexScans(h: char, l: char, s: string)
    requires h != '"' && h != '\\' && l != '"' && l != '\\'
    ensures QuotedRest(['\\', 'x', h, l] + s) == QuotedRest(s)
  {
    var t := [h] + ([l] + s);
    EscapedScans('x', t);
    OrdinaryScans(h, [l] + s);
    OrdinaryScans(l, s);
    assert ['\\', 'x', h, l] + s == ['\\', 'x'] + t;
  }

  lemma {:induction false} EscapedCharScans(c: char, s: string)
    ensures QuotedRest(EscapeChar(c) + s) == QuotedRest(s)
  {
    var e := EscapeChar(c);
    if EscapeLetter(c).Some? {
      EscapedScans(e[1], s);
    } else if |e| == 4 {
      HexScans(e[2], e[3], s);
    } else {
      OrdinaryScans(c, s);
    }
  }

  /** A printed value is scanned to exactly its closing quote, whatever follows. */
  lemma {:induction false} QuoteScans(v: string, rest: string)
    ensures QuotedRest(Escape(v) + ("\"" + rest)) == Some(rest)
    decreases |v|
  {
    if v == [] {
      assert Escape(v) + ("\"" + rest) == "\"" + rest;
    } else {
      QuoteScans(v[1..], rest);
      assert Escape(v) + ("\"" + rest) == EscapeChar(v[0]) + (Escape(v[1..]) + ("\"" + rest));
      EscapedCharScans(v[0], Escape(v[1..]) + ("\"" + rest));
    }
  }

  lemma {:induction false} DropConcat(a: string, b: string)
    ensures DropBackslashes(a + b) == DropBackslashes(a) + DropBackslashes(b)
    decreases |a|
  {
    if a == [] {
      assert a + b == b;
    } else {
      DropConcat(a[1..], b);
      assert (a + b)[1..] == a[1..] + b;
    }
  }

  lemma {:induction false} DropChar(c: char)
    requires c as int < 128
    ensures Plain(c) ==> DropBackslashes(EscapeChar(c)) == [c]
    ensures AllPlain(DropBackslashes(EscapeChar(c)))
  {
    var e := EscapeChar(c);
    if |e| == 4 {
      DropConcat(e[..2], e[2..]);
      assert e == e[..2] + e[2..];
      DropConcat([e[2]], [e[3]]);
      assert e[2..] == [e[2]] + [e[3]];
    } else if |e| == 2 {
      DropConcat([e[0]], [e[1]]);
      assert e == [e[0]] + [e[1]];
    }
  }

  /** Quoting and dropping backslashes keeps plain text and always yields plain text. */
  lemma {:induction false} DropEscape(v: string)
    requires Ascii(v)
    ensures AllPlain(DropBackslashes(Escape(v)))
    ensures AllPlain(v) ==> DropBackslashes(Escape(v)) == v
    decreases |v|
  {
    if v != [] {
      var c, w := v[0], v[1..];
      assert v == [c] + w;
      DropEscape(w);
      DropChar(c);
      DropConcat(EscapeChar(c), Escape(w));
      PlainConcat([c], w);
      PlainConcat(DropBackslashes(EscapeChar(c)), DropBackslashes(Escape(w)));
    }
  }

  lemma {:induction false} PlainConcat(a: string, b: string)
    ensures AllPlain(a + b) <==> AllPlain(a) && AllPlain(b)
  {
    var s := a + b;
    assert forall i :: 0 <= i < |a| ==> s[i] == a[i];
    assert forall i :: 0 <= i < |b| ==> s[i + |a|] == b[i];
  }

  // ---- Normalisation ----

  lemma {:induction false} LowerIdempotent(s: string)
    ensures ToLower(ToLower(s)) == ToLower(s)
  {
  }

  lemma {:induction false} FieldsSkip(s: string)
    ensures Fields(" " + s) == Fields(s)
  {
    assert (" " + s)[1..] == s;
  }

  lemma {:induction false} FieldsCons(f: string, rest: string)
    requires Word(f)
    requires rest == [] || IsSpace(rest[0])
    ensures Fields(f + rest) == [f] + Fields(rest)
  {
    var s := f + rest;
    assert s[0] == f[0];
    DropStops(NonSpace, f, rest);
    BeforeConcat(f, rest);
    assert s[1..] == f[1..] + rest;
    DropStops(NonSpace, f[1..], rest);
  }

  lemma {:induction false} FieldsWord(s: string, i: nat)
    requires i < |Fields(s)|
    ensures Word(Fields(s)[i])
    decreases |s|
  {
    var t := Drop(GoSpace, s);
    if i == 0 {
      var w := Before(t, Drop(NonSpace, t));
      forall j | 0 <= j < |w| ensures !IsSpace(w[j]) { DroppedIn(NonSpace, t, j); }
    } else {
      FieldsWord(Drop(NonSpace, t[1..]), i - 1);
    }
  }

  /** Splitting the joined words gives the words back. */
  lemma {:induction false} FieldsJoin(fs: seq<string>)
    requires forall i :: 0 <= i < |fs| ==> Word(fs[i])
    ensures Fields(Join(fs, " ")) == fs
    decreases |fs|
  {
    if |fs| == 1 {
      FieldsCons(fs[0], []);
      assert fs[0] + [] == fs[0];
    } else if |fs| > 1 {
      var t := Join(fs[1..], " ");
      FieldsJoin(fs[1..]);
      FieldsCons(fs[0], " " + t);
      FieldsSkip(t);
      assert Join(fs, " ") == fs[0] + (" " + t);
      assert fs == [fs[0]] + fs[1..];
    }
  }

  lemma {:induction false} LowerWord(f: string)
    requires Word(f)
    ensures Word(ToLower(f))
  {
  }

  /** Every value stored through `Set` is a fixed point of the normalisation. */
  lemma {:induction false} NormalizeIdempotent(key: string, val: string)
    ensures NormalizeValue(key, NormalizeValue(key, val)) == NormalizeValue(key, val)
  {
    if key == REL {
      RelIdempotent(val);
    } else {
      LowerIdempotent(val);
    }
  }

  lemma {:induction false} RelIdempotent(val: string)
    ensures NormalizeValue(REL, NormalizeValue(REL, val)) == NormalizeValue(REL, val)
  {
    var words := Fields(val);
    var fs := LowerAll(words);
    forall i | 0 <= i < |fs|
      ensures Word(fs[i]) && ToLower(fs[i]) == fs[i]
    {
      FieldsWord(val, i);
      LowerWord(words[i]);
      LowerIdempotent(words[i]);
    }
    FieldsJoin(fs);
    assert LowerAll(fs) == fs;
  }

  lemma {:induction false} DropPlain(k: CharClass, s: string)
    requires AllPlain(s)
    ensures AllPlain(Drop(k, s))
    decreases |s|
  {
    if s != [] { DropPlain(k, s[1..]); }
  }

  lemma {:induction false} FieldsPlain(s: string, i: nat)
    requires AllPlain(s) && i < |Fields(s)|
    ensures AllPlain(Fields(s)[i])
    decreases |s|
  {
    DropPlain(GoSpace, s);
    var t := Drop(GoSpace, s);
    DropPlain(NonSpace, t[1..]);
    if i > 0 { FieldsPlain(Drop(NonSpace, t[1..]), i - 1); }
  }

  lemma {:induction false} JoinPlain(fs: seq<string>)
    requires forall i :: 0 <= i < |fs| ==> AllPlain(fs[i])
    ensures AllPlain(Join(fs, " "))
    decreases |fs|
  {
    if |fs| > 1 {
      JoinPlain(fs[1..]);
    }
  }

  lemma {:induction false} NormalizePlain(key: string, val: string)
    requires AllPlain(val)
    ensures AllPlain(NormalizeValue(key, val))
  {
    if key == REL {
      var fs := LowerAll(Fields(val));
      forall i | 0 <= i < |fs| ensures AllPlain(fs[i]) { FieldsPlain(val, i); }
      JoinPlain(fs);
    }
  }

  /** A printed value comes back unchanged exactly when it was plain and normalised. */
  lemma {:induction false} ValueRoundTrip(key: string, val: string)
    requires Ascii(val)
    ensures Reparsed(key, val) == val <==> AllPlain(val) && NormalizeValue(key, val) == val
  {
    DropEscape(val);
    if !ShouldElide(key, val) {
      NormalizePlain(key, DropBackslashes(Escape(val)));
    }
  }

  // ---- Scanning printed text ----

  predicate Delimited(rest: string) { rest == [] || rest[0] == ';' || rest[0] == ',' }

  lemma {:induction false} AssignmentScans(val: string, rest: string)
    ensures AssignRest("=" + Quote(val) + rest) == rest
  {
    var x := Escape(val) + ("\"" + rest);
    assert "=" + Quote(val) + rest == "=" + ("\"" + x) by {
      Assoc("=", Quote(val), rest);
      Assoc("\"", Escape(val) + "\"", rest);
      Assoc(Escape(val), "\"", rest);
    }
    ConsTail('=', "\"" + x);
    ConsTail('"', x);
    QuoteScans(val, rest);
  }

  lemma {:induction false} TokenScans(key: string, a: string)
    requires LowerToken(key) && (a == [] || (!In(Token, a[0]) && !In(ReSpace, a[0])))
    ensures ParamRest(key + a) == Some(AssignRest(a))
  {
    ConsTail(key[0], key[1..] + a);
    assert key + a == [key[0]] + (key[1..] + a);
    DropStops(Token, key[1..], a);
  }

  lemma {:induction false} TextScans(key: string, elide: bool, val: string, rest: string)
    requires LowerToken(key) && Delimited(rest)
    ensures ParamRest(key + (Assignment(elide, val) + rest)) == Some(rest)
  {
    var a := Assignment(elide, val) + rest;
    if elide {
      assert a == rest;
    } else {
      AssignmentScans(val, rest);
      assert a[0] == '=';
    }
    TokenScans(key, a);
  }

  /** A printed parameter is scanned to exactly its end. */
  lemma {:induction false} ParamTextScans(key: string, val: string, rest: string)
    requires LowerToken(key) && Delimited(rest)
    ensures ParamRest(ParamText(key, val) + rest) == Some(rest)
    ensures Drop(ReSpace, ParamText(key, val) + rest) == ParamText(key, val) + rest
  {
    TextScans(key, ShouldElide(key, val), val, rest);
    Assoc(key, Assignment(ShouldElide(key, val), val), rest);
    assert (ParamText(key, val) + rest)[0] == key[0];
  }

  lemma {:induction false} ParamsTextStep(keys: seq<string>, p: LinkParams, rest: string)
    requires keys != [] && forall k :: k in keys ==> k in p
    ensures ParamsText(keys, p) + rest
         == ";" + (ParamText(keys[0], p[keys[0]]) + (ParamsText(keys[1..], p) + rest))
    ensures (rest == [] || rest[0] == ',') ==> Delimited(ParamsText(keys[1..], p) + rest)
  {
    var a, b := ParamText(keys[0], p[keys[0]]), ParamsText(keys[1..], p);
    Assoc(";", a + b, rest);
    Assoc(a, b, rest);
  }

  lemma {:induction false} ParamsScan(keys: seq<string>, p: LinkParams, rest: string)
    requires forall k :: k in keys ==> k in p && LowerToken(k)
    requires rest == [] || rest[0] == ','
    ensures ParamsRest(ParamsText(keys, p) + rest) == rest
    decreases |keys|
  {
    var s := ParamsText(keys, p) + rest;
    if keys == [] {
      assert s == rest;
    } else {
      var b := ParamText(keys[0], p[keys[0]]);
      var tail := ParamsText(keys[1..], p) + rest;
      ParamsTextStep(keys, p, rest);
      assert s[1..] == b + tail;
      ParamTextScans(keys[0], p[keys[0]], tail);
      ParamsScan(keys[1..], p, rest);
    }
  }

  function Bodies(keys: seq<string>, p: LinkParams): seq<string>
    requires forall k :: k in keys ==> k in p
    decreases |keys|
  {
    if keys == [] then [] else [ParamText(keys[0], p[keys[0]])] + Bodies(keys[1..], p)
  }

  /** In the printed parameters the parser finds each of them once, in order. */
  lemma {:induction false} FindsPrinted(keys: seq<string>, p: LinkParams)
    requires forall k :: k in keys ==> k in p && LowerToken(k)
    ensures FindParams(ParamsText(keys, p)) == Bodies(keys, p)
    decreases |keys|
  {
    if keys != [] {
      var s := ParamsText(keys, p);
      var b := ParamText(keys[0], p[keys[0]]);
      var tail := ParamsText(keys[1..], p);
      ParamsTextStep(keys, p, []);
      assert s + [] == s && tail + [] == tail;
      assert s[1..] == b + tail;
      ParamTextScans(keys[0], p[keys[0]], tail);
      BeforeConcat(b, tail);
      FindsPrinted(keys[1..], p);
    }
  }

  /** `y` closes the angle bracket: no scan inside the URL crosses it. */
  predicate Closes(y: string) { y != [] && y[0] == '>' }

  lemma {:induction false} HasSuffix(s: string, n: nat, c: char)
    requires n <= |s| && !Has(s, c)
    ensures !Has(s[n..], c)
  {
  }

  /** The text after the quote that the parameter at the start of `b` opens. */
  function Opening(b: string): Option<string> {
    if b == [] || !In(Token, b[0]) then None
    else
      var x := Drop(ReSpace, Drop(Token, b[1..]));
      if x == [] || x[0] != '=' then None
      else
        var v := Drop(ReSpace, x[1..]);
        if v == [] || v[0] != '"' then None else Some(v[1..])
  }

  /** The parameter at the start of `b` opens a quoted string that only `y` closes. */
  predicate SpillsAt(b: string, y: string) {
    Opening(b).Some? && QuotedRest(Opening(b).value).None? && QuotedRest(Opening(b).value + y).Some?
  }

  /** So does some parameter that the parser finds in `u`. */
  predicate Spills(u: string, y: string)
    decreases |u|
  {
    if u == [] then false
    else if u[0] != ';' then Spills(u[1..], y)
    else
      var b := Drop(ReSpace, u[1..]);
      if ParamRest(b).None? then Spills(u[1..], y)
      else SpillsAt(b, y) || Spills(ParamRest(b).value, y)
  }

  lemma {:induction false} QuotedRestBefore(q: string, y: string)
    requires QuotedRest(q).Some?
    ensures QuotedRest(q + y) == Some(QuotedRest(q).value + y)
    decreases |q|
  {
    var s := q + y;
    assert s[0] == q[0] && s[1..] == q[1..] + y;
    if q[0] != '"' {
      if q[0] != '\\' {
        QuotedRestBefore(q[1..], y);
      } else {
        assert s[1] == q[1] && s[2..] == q[2..] + y;
        QuotedRestBefore(q[2..], y);
      }
    }
  }

  lemma {:induction false} ValueRestBefore(x: string, y: string)
    requires Closes(y)
    requires x != [] && x[0] == '"' && QuotedRest(x[1..]).None? ==> QuotedRest(x[1..] + y).None?
    ensures ValueRest(x + y) == if ValueRest(x).Some? then Some(ValueRest(x).value + y) else None
  {
    if x == [] {
      assert x + y == y;
    } else {
      assert (x + y)[0] == x[0] && (x + y)[1..] == x[1..] + y;
      if x[0] == '"' {
        if QuotedRest(x[1..]).Some? { QuotedRestBefore(x[1..], y); }
      } else if In(Token, x[0]) {
        DropBefore(Token, x[1..], y);
      }
    }
  }

  lemma {:induction false} AssignRestBefore(x: string, y: string)
    requires Closes(y)
    requires x != [] && x[0] == '=' ==>
      var v := Drop(ReSpace, x[1..]);
      v != [] && v[0] == '"' && QuotedRest(v[1..]).None? ==> QuotedRest(v[1..] + y).None?
    ensures AssignRest(x + y) == AssignRest(x) + y
  {
    if x == [] {
      assert x + y == y;
    } else {
      assert (x + y)[0] == x[0] && (x + y)[1..] == x[1..] + y;
      if x[0] == '=' {
        DropBefore(ReSpace, x[1..], y);
        ValueRestBefore(Drop(ReSpace, x[1..]), y);
      }
    }
  }

  /** The scan up to the assignment. */
  lemma {:induction false} KeyBefore(x: string, y: string)
    requires Closes(y) && x != [] && In(Token, x[0])
    ensures Drop(ReSpace, Drop(Token, (x + y)[1..])) == Drop(ReSpace, Drop(Token, x[1..])) + y
    ensures (x + y)[0] == x[0]
  {
    assert (x + y)[1..] == x[1..] + y;
    DropBefore(Token, x[1..], y);
    DropBefore(ReSpace, Drop(Token, x[1..]), y);
  }

  lemma {:induction false} ParamRestBefore(x: string, y: string)
    requires Closes(y) && !SpillsAt(x, y)
    ensures ParamRest(x + y) == if ParamRest(x).Some? then Some(ParamRest(x).value + y) else None
  {
    if x == [] {
      assert x + y == y;
    } else if In(Token, x[0]) {
      KeyBefore(x, y);
      AssignRestBefore(Drop(ReSpace, Drop(Token, x[1..])), y);
    } else {
      assert (x + y)[0] == x[0];
    }
  }

  /** A parameter that spills is read longer with `y` than without. */
  lemma {:induction false} SpillReadsMore(x: string, y: string)
    requires Closes(y) && SpillsAt(x, y)
    ensures ParamRest(x).Some? && ParamRest(x + y).Some?
    ensures |ParamRest(x + y).value| < |ParamRest(x).value| + |y|
  {
    KeyBefore(x, y);
    AssignSpills(Drop(ReSpace, Drop(Token, x[1..])), y);
  }

  lemma {:induction false} AssignSpills(z: string, y: string)
    requires Closes(y) && z != [] && z[0] == '='
    requires var v := Drop(ReSpace, z[1..]);
      v != [] && v[0] == '"' && QuotedRest(v[1..]).None? && QuotedRest(v[1..] + y).Some?
    ensures AssignRest(z) == z && |AssignRest(z + y)| < |z| + |y|
  {
    var v := Drop(ReSpace, z[1..]);
    assert (z + y)[0] == '=' && (z + y)[1..] == z[1..] + y;
    DropBefore(ReSpace, z[1..], y);
    assert (v + y)[0] == '"' && (v + y)[1..] == v[1..] + y;
  }

  lemma {:induction false} BeforeExtend(b: string, r: string, y: string)
    requires |r| <= |b|
    ensures Before(b + y, r + y) == Before(b, r)
  {
  }

  /** What the parser finds in the URL does not depend on what follows the closing bracket, exactly
      when no quoted string that it sees in the URL is closed only there. */
  lemma {:induction false} FindsUri(u: string, y: string)
    requires Closes(y)
    ensures FindParams(u + y) == FindParams(u) + FindParams(y) <==> !Spills(u, y)
    decreases |u|
  {
    if u == [] {
      assert u + y == y;
    } else {
      assert (u + y)[0] == u[0] && (u + y)[1..] == u[1..] + y;
      if u[0] != ';' {
        FindsUri(u[1..], y);
      } else {
        FindsUriParam(u, y);
      }
    }
  }

  lemma {:induction false} FindsUriParam(u: string, y: string)
    requires Closes(y) && u != [] && u[0] == ';'
    ensures FindParams(u + y) == FindParams(u) + FindParams(y) <==> !Spills(u, y)
    decreases |u|, 0
  {
    assert (u + y)[0] == u[0] && (u + y)[1..] == u[1..] + y;
    var b := Drop(ReSpace, u[1..]);
    DropBefore(ReSpace, u[1..], y);
    if SpillsAt(b, y) {
      SpillReadsMore(b, y);
      var r, r' := ParamRest(b).value, ParamRest(b + y).value;
      assert |Before(b + y, r')| > |Before(b, r)|;
      assert FindParams(u + y)[0] == Before(b + y, r') && (FindParams(u) + FindParams(y))[0] == Before(b, r);
    } else {
      ParamRestBefore(b, y);
      if ParamRest(b).None? {
        FindsUri(u[1..], y);
      } else {
        var r := ParamRest(b).value;
        BeforeExtend(b, r, y);
        FindsUri(r, y);
        SameTail(Before(b, r), FindParams(r + y), FindParams(r), FindParams(y));
      }
    }
  }

  lemma {:induction false} SameTail(x: string, whole: seq<string>, a: seq<string>, b: seq<string>)
    ensures [x] + whole == [x] + a + b <==> whole == a + b
  {
    Assoc([x], a, b);
    ConsTail(x, whole);
    ConsTail(x, a + b);
  }

  /** A URL without a quoted string in its parameters spills nothing. */
  lemma {:induction false} NoQuoteNoSpill(u: string, y: string)
    requires Has(u, ';') ==> !Has(u, '"')
    ensures !Spills(u, y)
    decreases |u|
  {
    if u != [] {
      HasSuffix(u, 1, if Has(u, ';') then '"' else ';');
      if u[0] != ';' || ParamRest(Drop(ReSpace, u[1..])).None? {
        NoQuoteNoSpill(u[1..], y);
      } else {
        assert Has(u, ';');
        var b := Drop(ReSpace, u[1..]);
        DropKeepsOut(ReSpace, u[1..], '"');
        NoQuoteInParam(b);
        NoQuoteNoSpill(ParamRest(b).value, y);
      }
    }
  }

  lemma {:induction false} NoQuoteInParam(b: string)
    requires !Has(b, '"') && ParamRest(b).Some?
    ensures Opening(b).None? && !Has(ParamRest(b).value, '"')
  {
    HasSuffix(b, 1, '"');
    DropKeepsOut(Token, b[1..], '"');
    var x := Drop(ReSpace, Drop(Token, b[1..]));
    DropKeepsOut(ReSpace, Drop(Token, b[1..]), '"');
    if x != [] && x[0] == '=' {
      HasSuffix(x, 1, '"');
      DropKeepsOut(ReSpace, x[1..], '"');
      var v := Drop(ReSpace, x[1..]);
      if v != [] {
        assert v[0] != '"';
        HasSuffix(v, 1, '"');
        DropKeepsOut(Token, v[1..], '"');
      }
    }
  }

  lemma {:induction false} DropKeepsOut(k: CharClass, s: string, c: char)
    requires !Has(s, c)
    ensures !Has(Drop(k, s), c)
    decreases |s|
  {
    if s != [] && In(k, s[0]) {
      HasSuffix(s, 1, c);
      DropKeepsOut(k, s[1..], c);
    }
  }

  // ---- Rebuilding the map ----

  lemma {:induction false} TokenLower(k: string)
    requires LowerToken(k)
    ensures ToLower(k) == k && TrimSpace(k) == k
  {
  }

  lemma {:induction false} QuoteUnquoted(val: string)
    ensures Unquoted(TrimSpace(Quote(val))) == DropBackslashes(Escape(val))
  {
    var q := Quote(val);
    assert q[0] == '"' && q[|q| - 1] == '"';
    assert q[1..|q| - 1] == Escape(val);
  }

  lemma {:induction false} AddBody(p: LinkParams, key: string, val: string)
    requires LowerToken(key)
    ensures AddParam(p, ParamText(key, val)) == p[key := Reparsed(key, val)]
  {
    var a := Assignment(ShouldElide(key, val), val);
    DropStops(NonEquals, key, a);
    if a == [] {
      AddSplit(p, key, a, "");
    } else {
      QuoteUnquoted(val);
      assert a[1..] == Quote(val);
      AddSplit(p, key, a, DropBackslashes(Escape(val)));
    }
  }

  lemma {:induction false} AddSplit(p: LinkParams, key: string, a: string, v: string)
    requires LowerToken(key) && Drop(NonEquals, key + a) == a
    requires if a == [] then v == "" else Unquoted(TrimSpace(a[1..])) == v
    ensures AddParam(p, key + a) == p[key := NormalizeValue(key, v)]
  {
    TokenLower(key);
    BeforeConcat(key, a);
  }

  lemma {:induction false} AddBodies(p: LinkParams, keys: seq<string>, q: LinkParams)
    requires forall k :: k in keys ==> k in q && LowerToken(k)
    ensures AddParams(p, Bodies(keys, q)) == p + ReparsedParams(keys, q)
    decreases |keys|
  {
    if keys == [] {
      assert p + ReparsedParams(keys, q) == p;
    } else {
      var key := keys[0];
      var p' := p[key := Reparsed(key, q[key])];
      AddBody(p, key, q[key]);
      ConsTail(ParamText(key, q[key]), Bodies(keys[1..], q));
      AddBodies(p', keys[1..], q);
      assert forall k :: k in keys <==> k == key || k in keys[1..];
      MergeStep(p, key, Reparsed(key, q[key]), ReparsedParams(keys[1..], q), ReparsedParams(keys, q));
    }
  }

  lemma {:induction false} MergeStep(p: LinkParams, key: string, val: string, tail: LinkParams, whole: LinkParams)
    requires whole.Keys == {key} + tail.Keys && whole[key] == val
    requires forall k :: k in tail ==> whole[k] == tail[k]
    ensures p[key := val] + tail == p + whole
  {
  }

  function ReparsedParams(keys: seq<string>, q: LinkParams): LinkParams
    requires forall k :: k in keys ==> k in q
  {
    map k | k in keys :: Reparsed(k, q[k])
  }

  lemma {:induction false} AddParamsConcat(p: LinkParams, a: seq<string>, b: seq<string>)
    ensures AddParams(p, a + b) == AddParams(AddParams(p, a), b)
    decreases |a|
  {
    if a == [] {
      assert a + b == b;
    } else {
      assert (a + b)[1..] == a[1..] + b;
      AddParamsConcat(AddParam(p, a[0]), a[1..], b);
    }
  }

  // ---- The round trip ----

  /** Parameters the parser reads out of the URL itself. */
  function UriParams(url: string): LinkParams { AddParams(map[], FindParams(url)) }

  /** The link that parsing a printed link yields. */
  function ReparsedLink(l: Link): Link {
    Link(l.url, UriParams(l.url) + map k | k in l.params :: Reparsed(k, l.params[k]))
  }

  /** In a printed link the parser finds the parameters of the URL and then exactly the printed
      ones, if and only if the URL spills nothing into them. */
  lemma {:induction false} FoundExactly(l: Link)
    requires Lexical(l)
    ensures FindParams(LinkText(l)) == FindParams(l.url) + Bodies(Canonical(l.params.Keys), l.params)
       <==> !Spills(l.url, ">" + ParamsOf(l))
  {
    FindsInLink(l.url, ParamsOf(l));
    FindsPrinted(Canonical(l.params.Keys), l.params);
  }

  lemma {:induction false} ParamsFound(l: Link)
    requires Lexical(l) && !Spills(l.url, ">" + ParamsOf(l))
    ensures AddParams(map[], FindParams(LinkText(l))) == ReparsedLink(l).params
  {
    var keys := Canonical(l.params.Keys);
    FoundExactly(l);
    AddParamsConcat(map[], FindParams(l.url), Bodies(keys, l.params));
    AddBodies(UriParams(l.url), keys, l.params);
    assert ReparsedParams(keys, l.params) == map k | k in l.params :: Reparsed(k, l.params[k]);
  }

  lemma {:induction false} FindsInLink(url: string, w: string)
    ensures FindParams("<" + url + ">" + w) == FindParams(url) + FindParams(w) <==> !Spills(url, ">" + w)
  {
    assert "<" + url + ">" + w == "<" + (url + (">" + w)) by {
      Assoc("<", url, ">");
      Assoc("<", url + ">", w);
      Assoc(url, ">", w);
    }
    ConsTail('<', url + (">" + w));
    FindsUri(url, ">" + w);
    ConsTail('>', w);
  }

  lemma {:induction false} LinkMatches(l: Link, rest: string)
    requires Lexical(l) && NoBrackets(l.url) && (rest == [] || rest[0] == ',')
    ensures MatchValue(LinkText(l) + rest)
         == Some(ValueMatch(LinkText(l), l.url, if rest == [] then [] else rest[1..]))
  {
    var w := ParamsOf(l);
    ParamsScan(Canonical(l.params.Keys), l.params, rest);
    BracketsMatch(l.url, w, rest);
  }

  lemma {:induction false} BracketsMatch(url: string, w: string, rest: string)
    requires NoBrackets(url) && (rest == [] || rest[0] == ',')
    requires ParamsRest(w + rest) == rest
    ensures var text := "<" + url + ">" + w;
      MatchValue(text + rest) == Some(ValueMatch(text, url, if rest == [] then [] else rest[1..]))
  {
    var text := "<" + url + ">" + w;
    var u := ">" + (w + rest);
    assert text + rest == "<" + (url + u) by {
      Assoc("<", url, ">");
      Assoc("<" + (url + ">"), w, rest);
      Assoc("<", url + ">", w + rest);
      Assoc(url, ">", w + rest);
    }
    DropStops(UriText, url, u);
    MatchUnfold(url + u, w + rest, rest);
    BeforeConcat(text, rest);
    BeforeConcat(url, u);
  }

  lemma {:induction false} MatchUnfold(x: string, y: string, rest: string)
    requires Drop(UriText, x) == ">" + y && ParamsRest(y) == rest && (rest == [] || rest[0] == ',')
    ensures |rest| <= |"<" + x| && |">" + y| <= |x|
    ensures MatchValue("<" + x) == Some(ValueMatch(
      Before("<" + x, rest), Before(x, ">" + y), if rest == [] then [] else rest[1..]))
  {
    ConsTail('<', x);
    ConsTail('>', y);
  }

  ghost function Texts(links: seq<Link>): seq<string>
    decreases |links|
  {
    if links == [] then [] else [LinkText(links[0])] + Texts(links[1..])
  }

  /** The link as the parser reads it back. */
  ghost function Scanned(l: Link): Link { Link(l.url, AddParams(map[], FindParams(LinkText(l)))) }

  ghost function ScannedAll(links: seq<Link>): (r: seq<Link>)
    ensures |r| == |links|
    ensures forall i :: 0 <= i < |links| ==> r[i] == Scanned(links[i])
    decreases |links|
  {
    if links == [] then [] else [Scanned(links[0])] + ScannedAll(links[1..])
  }

  /** What follows the first link of a printed list. */
  ghost function Rest(more: seq<Link>): string { if more == [] then [] else "," + Join(Texts(more), ",") }

  /** The parser reads the first link back and goes on with the others. */
  lemma {:induction false} FirstParses(parseURL: string -> Option<string>, l: Link, more: seq<Link>)
    requires Lexical(l) && NoBrackets(l.url) && parseURL(l.url) == Some(l.url)
    ensures ParseText(parseURL, Join(Texts([l] + more), ","))
         == Prefixed([Scanned(l)], ParseText(parseURL, Join(Texts(more), ",")))
  {
    JoinCons(l, more);
    LinkMatches(l, Rest(more));
    assert more != [] ==> Rest(more)[1..] == Join(Texts(more), ",");
    ParseOne(parseURL, LinkText(l) + Rest(more), Scanned(l));
  }

  /** A comma-joined list of printed links parses link for link. */
  lemma {:induction false} JoinedLinksParse(parseURL: string -> Option<string>, links: seq<Link>)
    requires forall l :: l in links ==> Lexical(l) && NoBrackets(l.url) && parseURL(l.url) == Some(l.url)
    ensures ParseText(parseURL, Join(Texts(links), ",")) == Parsed(ScannedAll(links))
    decreases |links|
  {
    if links != [] {
      assert links[0] in links && links == [links[0]] + links[1..];
      JoinedLinksParse(parseURL, links[1..]);
      FirstParses(parseURL, links[0], links[1..]);
    }
  }

  lemma {:induction false} JoinCons(l: Link, more: seq<Link>)
    ensures Join(Texts([l] + more), ",")
         == LinkText(l) + Rest(more)
  {
    ConsTail(l, more);
    ConsTail(LinkText(l), Texts(more));
    if more != [] {
      Assoc(LinkText(l), ",", Join(Texts(more), ","));
    }
  }

  /** What a caller can check of a link before printing it: every parameter hidden in its URL
      is also a parameter of its own, and its values are plain and normalised. */
  ghost predicate Faithful(l: Link) {
    && UriParams(l.url).Keys <= l.params.Keys
    && forall k :: k in l.params ==> AllPlain(l.params[k]) && NormalizeValue(k, l.params[k]) == l.params[k]
  }

  lemma {:induction false} LinkRoundTripExact(l: Link)
    requires Lexical(l)
    ensures ReparsedLink(l) == l <==> Faithful(l)
  {
    var p := ReparsedLink(l).params;
    assert p.Keys == UriParams(l.url).Keys + l.params.Keys;
    forall k | k in l.params
      ensures p[k] == l.params[k] <==> AllPlain(l.params[k]) && NormalizeValue(k, l.params[k]) == l.params[k]
    {
      ValueRoundTrip(k, l.params[k]);
    }
    if Faithful(l) {
      assert p == l.params;
    }
    if p == l.params {
      assert UriParams(l.url).Keys <= l.params.Keys;
    }
  }

  // ---- Brackets ----

  lemma {:induction false} DropStopped(k: CharClass, x: string, y: string)
    requires Drop(k, x) != []
    ensures Drop(k, x + y) == Drop(k, x) + y
    decreases |x|
  {
    assert (x + y)[0] == x[0];
    if In(k, x[0]) {
      assert (x + y)[1..] == x[1..] + y;
      DropStopped(k, x[1..], y);
    }
  }

  lemma {:induction false} BracketStops(u: string)
    requires !NoBrackets(u)
    ensures Drop(UriText, u) != []
    decreases |u|
  {
    if In(UriText, u[0]) {
      var i :| 0 <= i < |u| && !In(UriText, u[i]);
      assert u[1..][i - 1] == u[i];
      BracketStops(u[1..]);
    }
  }

  /** A match of a printed link whose URL has a bracket does not return that URL. */
  lemma {:induction false} BracketMisread(l: Link, rest: string)
    requires !NoBrackets(l.url)
    ensures var m := MatchValue(LinkText(l) + rest); m.Some? ==> m.value.uri != l.url
  {
    var z := ">" + (ParamsOf(l) + rest);
    var x := l.url + z;
    assert LinkText(l) + rest == "<" + x by {
      Assoc("<", l.url, ">");
      Assoc("<" + (l.url + ">"), ParamsOf(l), rest);
      Assoc("<", l.url + ">", ParamsOf(l) + rest);
      Assoc(l.url, ">", ParamsOf(l) + rest);
    }
    ConsTail('<', x);
    BracketStops(l.url);
    DropStopped(UriText, l.url, z);
  }

  /** The URL is what no other text parses to. */
  ghost predicate Own(parseURL: string -> Option<string>, url: string) {
    forall u :: parseURL(u) == Some(url) ==> u == url
  }

  lemma {:induction false} BracketBreaks(parseURL: string -> Option<string>, links: seq<Link>, i: nat)
    requires i < |links| && !NoBrackets(links[i].url) && Own(parseURL, links[i].url)
    requires forall j :: 0 <= j < i ==>
      Lexical(links[j]) && NoBrackets(links[j].url) && parseURL(links[j].url) == Some(links[j].url)
    ensures ParseText(parseURL, Join(Texts(links), ",")) != Parsed(links)
    decreases i
  {
    var l, more := links[0], links[1..];
    assert links == [l] + more;
    if i == 0 {
      JoinCons(l, more);
      BracketMisread(l, Rest(more));
      MisreadBreaks(parseURL, LinkText(l) + Rest(more), l, more);
    } else {
      BracketBreaks(parseURL, more, i - 1);
      FirstParses(parseURL, l, more);
      ConsTail(l, more);
      var r := ParseText(parseURL, Join(Texts(more), ","));
      if r.Parsed? { ConsTail(Scanned(l), r.links); }
    }
  }

  lemma {:induction false} MisreadBreaks(parseURL: string -> Option<string>, s: string, l: Link, more: seq<Link>)
    requires s != [] && Own(parseURL, l.url) && (MatchValue(s).Some? ==> MatchValue(s).value.uri != l.url)
    ensures ParseText(parseURL, s) != Parsed([l] + more)
  {
    ConsTail(l, more);
    if MatchValue(s).Some? {
      var m := MatchValue(s).value;
      var u := parseURL(m.uri);
      if u.Some? {
        var first := Link(u.value, AddParams(map[], FindParams(m.raw)));
        ParseOne(parseURL, s, first);
        assert first != l;
        var r := ParseText(parseURL, m.rest);
        if r.Parsed? { ConsTail(first, r.links); }
      }
    }
  }

  /** What it takes of a link to come back: no bracket in its URL, and, unless its URL opens a
      quote that the printed parameters close, that it is faithful. */
  ghost predicate Survives(l: Link) {
    NoBrackets(l.url) && if Spills(l.url, ">" + ParamsOf(l)) then Scanned(l) == l else Faithful(l)
  }

  lemma {:induction false} SurvivesExactly(l: Link)
    requires Lexical(l) && NoBrackets(l.url)
    ensures Scanned(l) == l <==> Survives(l)
  {
    if !Spills(l.url, ">" + ParamsOf(l)) {
      ParamsFound(l);
      LinkRoundTripExact(l);
    }
  }

  /** Parsing the comma-joined links returns the same list exactly when each link survives. */
  lemma {:induction false} ListRoundTrip(parseURL: string -> Option<string>, links: seq<Link>)
    requires forall l :: l in links ==> Lexical(l) && parseURL(l.url) == Some(l.url)
    requires forall l :: l in links && !NoBrackets(l.url) ==> Own(parseURL, l.url)
    ensures ParseText(parseURL, Join(Texts(links), ",")) == Parsed(links)
       <==> forall l :: l in links ==> Survives(l)
  {
    if forall l :: l in links ==> NoBrackets(l.url) {
      JoinedLinksParse(parseURL, links);
      ScannedExactly(links);
    } else {
      var i := FirstBracket(links);
      assert forall j :: 0 <= j < i ==> links[j] in links;
      assert links[i] in links;
      BracketBreaks(parseURL, links, i);
      assert !Survives(links[i]);
    }
  }

  lemma {:induction false} FirstBracket(links: seq<Link>) returns (i: nat)
    requires exists l :: l in links && !NoBrackets(l.url)
    ensures i < |links| && !NoBrackets(links[i].url) && forall j :: 0 <= j < i ==> NoBrackets(links[j].url)
    decreases |links|
  {
    if !NoBrackets(links[0].url) {
      i := 0;
    } else {
      var l :| l in links && !NoBrackets(l.url);
      assert l in links[1..];
      var k := FirstBracket(links[1..]);
      i := k + 1;
      assert forall j :: 0 <= j < i ==> j == 0 || links[j] == links[1..][j - 1];
    }
  }

  lemma {:induction false} ScannedExactly(links: seq<Link>)
    requires forall l :: l in links ==> Lexical(l) && NoBrackets(l.url)
    ensures ScannedAll(links) == links <==> forall l :: l in links ==> Survives(l)
  {
    forall l | l in links ensures Scanned(l) == l <==> Survives(l) { SurvivesExactly(l); }
    var r := ScannedAll(links);
    assert (forall l :: l in links ==> Scanned(l) == l) ==> r == links;
    if r == links {
      forall l | l in links ensures Scanned(l) == l {
        var i :| 0 <= i < |links| && links[i] == l;
        assert r[i] == Scanned(l);
      }
    }
  }

  lemma {:induction false} NoSemicolonNoParams(url: string)
    requires !Has(url, ';')
    ensures FindParams(url) == []
    decreases |url|
  {
    if url != [] {
      HasSuffix(url, 1, ';');
      NoSemicolonNoParams(url[1..]);
    }
  }

  /** The everyday case: no semicolon in the URLs. */
  lemma {:induction false} PlainListRoundTrip(parseURL: string -> Option<string>, links: seq<Link>)
    requires forall l :: l in links ==>
      Lexical(l) && NoBrackets(l.url) && !Has(l.url, ';') && parseURL(l.url) == Some(l.url)
    requires forall l, k :: l in links && k in l.params ==>
      AllPlain(l.params[k]) && NormalizeValue(k, l.params[k]) == l.params[k]
    ensures ParseText(parseURL, Join(Texts(links), ",")) == Parsed(links)
  {
    forall l | l in links ensures Survives(l) {
      NoSemicolonNoParams(l.url);
      NoQuoteNoSpill(l.url, ">" + ParamsOf(l));
    }
    ListRoundTrip(parseURL, links);
  }

  /** A backslash does not survive: it is printed escaped, and every backslash is dropped on parsing. */
  lemma {:induction false} BackslashIsLost(l: Link, k: string)
    requires Printable(l) && k in l.params && Has(l.params[k], '\\')
    ensures ReparsedLink(l) != l
  {
    var v := l.params[k];
    var i :| 0 <= i < |v| && v[i] == '\\';
    assert !Plain(v[i]);
    LinkRoundTripExact(l);
  }

  lemma {:induction false} BackslashExample()
    ensures var l := Link("/", map["k" := "\\"]); Printable(l) && ReparsedLink(l) != l
  {
    var l := Link("/", map["k" := "\\"]);
    var v := l.params["k"];
    assert v[0] == '\\';
    BackslashIsLost(l, "k");
  }

  /** A parameter of the URL's path comes back as a parameter of the link. */
  lemma {:induction false} SemicolonExample()
    ensures var l := Link("/;b", map[]); Printable(l) && "b" in ReparsedLink(l).params
  {
    var u := "/;b";
    var v, b := u[1..], u[2..];
    assert v == ";b" && b == "b" && v[1..] == b && b[1..] == [];
    assert u[0] == '/' && v[0] == ';' && In(Token, b[0]);
    OneParam(v, b);
    assert FindParams(u) == FindParams(v);
    assert Drop(NonEquals, b) == [];
    TokenLower(b);
  }

  lemma {:induction false} OneParam(s: string, b: string)
    requires |s| == 2 && s[0] == ';' && s[1..] == b && In(Token, b[0])
    ensures FindParams(s) == [b]
  {
    assert b[1..] == [];
    assert ParamRest(b) == Some([]);
    assert Before(b, []) == b;
  }

  lemma {:induction false} QuoteFound(y: string)
    requires Has(y, '"') && !Has(y, '\\')
    ensures QuotedRest(y).Some?
    decreases |y|
  {
    if y[0] != '"' {
      HasSuffix(y, 1, '\\');
      var i :| 0 <= i < |y| && y[i] == '"';
      assert y[1..][i - 1] == '"';
      QuoteFound(y[1..]);
    }
  }

  /** A URL whose parameter opens a quote swallows the beginning of what is printed after it. */
  lemma {:induction false} SpillExample()
    ensures var l := Link(";b=\"", map["k" := "v"]);
      Lexical(l) && FindParams(LinkText(l)) != FindParams(l.url) + Bodies(Canonical(l.params.Keys), l.params)
  {
    var key, val := "k", "v";
    var l := Link(";b=\"", map[key := val]);
    assert SortedKeys([key], l.params.Keys);
    SortedKeysUnique(Canonical(l.params.Keys), [key], l.params.Keys);
    var y := ">" + ParamsOf(l);
    PlainText(key, val, l.params);
    QuoteFound(y);
    OpenSpills(l.url, y);
    FoundExactly(l);
  }

  lemma {:induction false} OpenSpills(u: string, y: string)
    requires |u| == 4 && u[0] == ';' && In(Token, u[1]) && u[2] == '=' && u[3] == '"' && QuotedRest(y).Some?
    ensures Spills(u, y)
  {
    var b := u[1..];
    assert Drop(ReSpace, b) == b;
    var x := b[1..];
    assert Drop(Token, x) == x && Drop(ReSpace, x) == x;
    var v := x[1..];
    assert Drop(ReSpace, v) == v && v[1..] == [];
    assert Opening(b) == Some([]) && [] + y == y;
  }

  lemma {:induction false} PlainText(key: string, val: string, p: LinkParams)
    requires |key| == 1 && |val| == 1 && p == map[key := val] && key[0] != '\\' && 'a' <= val[0] <= 'z'
    ensures var y := ">" + ParamsText([key], p); Has(y, '"') && !Has(y, '\\')
  {
    assert val[1..] == [] && EscapeChar(val[0]) == val && Escape(val) == val;
    assert [key][1..] == [];
    assert ParamText(key, val) == key + ("=" + ("\"" + (val + "\"")));
    var y := ">" + ParamsText([key], p);
    assert ParamsText([key], p) == ";" + (ParamText(key, val) + []);
    assert key == [key[0]] && val == [val[0]];
    assert y == ['>', ';', key[0], '=', '"', val[0], '"'];
    assert y[4] == '"';
  }
}
