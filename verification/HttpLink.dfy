/** Text helpers shared by the models: an optional value and the ASCII part of Go's `strings`. */
module Text {
  datatype Option<+T> = None | Some(value: T)

  function LowerChar(c: char): char {
    if 'A' <= c <= 'Z' then (c as int + 32) as char else c
  }

  function ToLower(s: string): (r: string)
    ensures |r| == |s|
    ensures forall i :: 0 <= i < |s| ==> r[i] == LowerChar(s[i])
  {
    seq(|s|, i requires 0 <= i < |s| => LowerChar(s[i]))
  }

  /** Equal up to the case of ASCII letters. */
  predicate SameFold(a: string, b: string) {
    |a| == |b| && forall i :: 0 <= i < |a| ==> a[i] == b[i] || OtherCase(a[i], b[i]) || OtherCase(b[i], a[i])
  }

  predicate OtherCase(upper: char, lower: char) {
    'A' <= upper <= 'Z' && lower as int == upper as int + 32
  }

  lemma {:induction false} FoldExactly(a: string, b: string)
    ensures ToLower(a) == ToLower(b) <==> SameFold(a, b)
  {
    if ToLower(a) == ToLower(b) {
      assert |ToLower(a)| == |a| && |ToLower(b)| == |b|;
      forall i | 0 <= i < |a| ensures a[i] == b[i] || OtherCase(a[i], b[i]) || OtherCase(b[i], a[i]) {
        assert ToLower(a)[i] == LowerChar(a[i]) && ToLower(b)[i] == LowerChar(b[i]);
      }
    }
  }

  /** `unicode.IsSpace`. */
  predicate IsSpace(c: char) {
    c == ' ' || '\t' <= c <= '\r' || (c > '\U{7f}' && WideSpace(c))
  }

  /** The white space of Unicode beyond ASCII. */
  predicate WideSpace(c: char) {
    c == '\U{85}' || c == '\U{a0}' || c == '\U{1680}' || '\U{2000}' <= c <= '\U{200a}' || c == '\U{2028}'
    || c == '\U{2029}' || c == '\U{202f}' || c == '\U{205f}' || c == '\U{3000}'
  }

  /** Character classes of the scanner. */
  datatype CharClass = Token | ReSpace | UriText | GoSpace | NonSpace | NonEquals

  predicate In(k: CharClass, c: char) {
    match k
    // The `token` pattern.
    case Token =>
      c == '!' || '#' <= c <= '\'' || c == '*' || c == '+' || c == '-' || c == '.' || '0' <= c <= '9'
      || 'A' <= c <= 'Z' || '^' <= c <= 'z' || c == '|' || c == '~'
    // `\s` of the regular expressions: vertical tab is not in it.
    case ReSpace => c == ' ' || c == '\t' || c == '\n' || c == '\U{0c}' || c == '\r'
    case UriText => c != '<' && c != '>'
    case GoSpace => IsSpace(c)
    case NonSpace => !IsSpace(c)
    case NonEquals => c != '='
  }

  /** `s` without its longest prefix of characters in the class. */
  function Drop(k: CharClass, s: string): (r: string)
    ensures |r| <= |s|
    ensures r == [] || !In(k, r[0])
    decreases |s|
  {
    if s != [] && In(k, s[0]) then Drop(k, s[1..]) else s
  }

  lemma {:induction false} DropStops(k: CharClass, a: string, b: string)
    requires forall i :: 0 <= i < |a| ==> In(k, a[i])
    requires b == [] || !In(k, b[0])
    ensures Drop(k, a + b) == b
    decreases |a|
  {
    if a == [] {
      assert a + b == b;
    } else {
      assert (a + b)[1..] == a[1..] + b;
      DropStops(k, a[1..], b);
    }
  }

  /** Text that stops the scan can be left out of it. */
  lemma {:induction false} DropBefore(k: CharClass, x: string, y: string)
    requires y == [] || !In(k, y[0])
    ensures Drop(k, x + y) == Drop(k, x) + y
    decreases |x|
  {
    if x == [] {
      assert x + y == y;
    } else {
      assert (x + y)[1..] == x[1..] + y;
      DropBefore(k, x[1..], y);
    }
  }

  /** The dropped prefix lies in the class. */
  lemma {:induction false} DroppedIn(k: CharClass, s: string, i: nat)
    requires i < |s| - |Drop(k, s)|
    ensures In(k, s[i])
    decreases |s|
  {
    if i > 0 { DroppedIn(k, s[1..], i - 1); }
  }

  /** The part of `s` in front of its suffix `r`. */
  function Before(s: string, r: string): string
    requires |r| <= |s|
  {
    s[..|s| - |r|]
  }

  lemma {:induction false} BeforeConcat(a: string, b: string)
    ensures Before(a + b, b) == a
  {
  }

  lemma {:induction false} Assoc<T>(a: seq<T>, b: seq<T>, c: seq<T>)
    ensures a + b + c == a + (b + c)
  {
  }

  lemma {:induction false} ConsTail<T>(c: T, s: seq<T>)
    ensures ([c] + s)[0] == c && ([c] + s)[1..] == s
  {
  }

  function TrimSpace(s: string): (r: string)
    ensures |r| <= |s|
    ensures (s == [] || (!IsSpace(s[0]) && !IsSpace(s[|s| - 1]))) ==> r == s
  {
    TrimRight(Drop(GoSpace, s))
  }

  function TrimRight(s: string): (r: string)
    ensures |r| <= |s|
    ensures (s == [] || !IsSpace(s[|s| - 1])) ==> r == s
    decreases |s|
  {
    if s != [] && IsSpace(s[|s| - 1]) then TrimRight(s[..|s| - 1]) else s
  }

  predicate Word(f: string) {
    f != [] && forall i :: 0 <= i < |f| ==> !IsSpace(f[i])
  }

  /** `strings.Fields`: the maximal runs of non-space characters, in order. */
  function Fields(s: string): seq<string>
    decreases |s|
  {
    var t := Drop(GoSpace, s);
    if t == [] then [] else [Before(t, Drop(NonSpace, t))] + Fields(Drop(NonSpace, t[1..]))
  }

  /** `strings.Join`. */
  function Join(parts: seq<string>, sep: string): string
    decreases |parts|
  {
    if parts == [] then []
    else if |parts| == 1 then parts[0]
    else parts[0] + sep + Join(parts[1..], sep)
  }

  function LowerAll(vals: seq<string>): (r: seq<string>)
    ensures |r| == |vals|
    ensures forall i :: 0 <= i < |vals| ==> r[i] == ToLower(vals[i])
  {
    seq(|vals|, i requires 0 <= i < |vals| => ToLower(vals[i]))
  }
}

/** Link header values: `resource/httplink`. A URL is represented by the string it prints as. */
module HttpLink {
  import opened Text

  type LinkParams = map<string, string>
  datatype Link = Link(url: string, params: LinkParams)
  datatype ParseError = Malformed | InvalidURL
  datatype ParseResult = Parsed(links: seq<Link>) | Failed(error: ParseError)

  const REL := "rel"
  const AS := "as"
  const CROSS_ORIGIN := "crossorigin"
  const TYPE := "type"
  const REL_PRELOAD := "preload"
  const ANONYMOUS := "anonymous"

  // ---- Parameters ----

  function NormalizeValue(key: string, val: string): string {
    if key == REL then Join(LowerAll(Fields(val)), " ")
    else if key == AS || key == TYPE then ToLower(val)
    else if key == CROSS_ORIGIN then (if val == "" then ANONYMOUS else ToLower(val))
    else val
  }

  function SetParam(p: LinkParams, key: string, val: string): LinkParams {
    p[ToLower(key) := NormalizeValue(ToLower(key), val)]
  }

  predicate ShouldElide(key: string, val: string) {
    key == CROSS_ORIGIN && val == ANONYMOUS
  }

  function NewLink(url: string, rel: string): Link {
    Link(url, SetParam(map[], REL, rel))
  }

  predicate IsPreload(l: Link) {
    REL in l.params && exists f :: f in Fields(l.params[REL]) && ToLower(f) == REL_PRELOAD
  }

  /** `Link.IsPreload`: goes through the relation types. */
  method LinkIsPreload(l: Link) returns (b: bool)
    ensures b <==> IsPreload(l)
  {
    var rels := if REL in l.params then Fields(l.params[REL]) else Fields("");
    for i := 0 to |rels|
      invariant forall j :: 0 <= j < i ==> ToLower(rels[j]) != REL_PRELOAD
    {
      if ToLower(rels[i]) == REL_PRELOAD {
        return true;
      }
    }
    b := false;
  }

  // ---- Printing ----

  function HexDigit(n: int): (c: char)
    requires 0 <= n < 16
    ensures '0' <= c <= '9' || 'a' <= c <= 'f'
  {
    if n < 10 then ('0' as int + n) as char else ('a' as int + n - 10) as char
  }

  /** The character after the backslash in a two-character escape. */
  function EscapeLetter(c: char): (r: Option<char>)
    ensures r.Some? ==> r.value != '\n'
  {
    if c == '"' || c == '\\' then Some(c)
    else if c == '\U{07}' then Some('a')
    else if c == '\U{08}' then Some('b')
    else if c == '\t' then Some('t')
    else if c == '\n' then Some('n')
    else if c == '\U{0b}' then Some('v')
    else if c == '\U{0c}' then Some('f')
    else if c == '\r' then Some('r')
    else None
  }

  /** One character of `strconv.Quote`, for ASCII. */
  function EscapeChar(c: char): string {
    if EscapeLetter(c).Some? then ['\\', EscapeLetter(c).value]
    else if c < ' ' || c == '\U{7f}' then ['\\', 'x', HexDigit(c as int / 16), HexDigit(c as int % 16)]
    else [c]
  }

  function Escape(v: string): string
    decreases |v|
  {
    if v == [] then [] else EscapeChar(v[0]) + Escape(v[1..])
  }

  function Quote(v: string): string {
    "\"" + (Escape(v) + "\"")
  }

  /** The part of a printed parameter after its name. */
  function Assignment(elide: bool, val: string): string {
    if elide then "" else "=" + Quote(val)
  }

  /** One parameter as `write` prints it, without the semicolon in front. */
  function ParamText(key: string, val: string): string {
    key + Assignment(ShouldElide(key, val), val)
  }

  function ParamsText(keys: seq<string>, p: LinkParams): string
    requires forall k :: k in keys ==> k in p
    decreases |keys|
  {
    if keys == [] then []
    else ";" + (ParamText(keys[0], p[keys[0]]) + ParamsText(keys[1..], p))
  }

  /** Byte-wise string order. */
  predicate StrLess(a: string, b: string) {
    b != [] && (a == [] || a[0] < b[0] || (a[0] == b[0] && StrLess(a[1..], b[1..])))
  }

  /** The order `write` sorts by: `rel` first, the rest by name. */
  predicate KeyLess(a: string, b: string) {
    b != REL && (a == REL || StrLess(a, b))
  }

  ghost predicate SortedKeys(keys: seq<string>, S: set<string>) {
    && (forall k :: k in keys <==> k in S)
    && (forall i, j :: 0 <= i < j < |keys| ==> KeyLess(keys[i], keys[j]))
  }

  lemma {:induction false} StrLessTotal(a: string, b: string)
    ensures a == b || StrLess(a, b) || StrLess(b, a)
    ensures !(StrLess(a, b) && StrLess(b, a))
    ensures !StrLess(a, a)
    decreases |a|
  {
    if a != [] && b != [] {
      StrLessTotal(a[1..], b[1..]);
      assert a == [a[0]] + a[1..] && b == [b[0]] + b[1..];
    }
    if a != [] { StrLessTotal(a[1..], a[1..]); }
  }

  lemma {:induction false} StrLessTrans(a: string, b: string, c: string)
    requires StrLess(a, b) && StrLess(b, c)
    ensures StrLess(a, c)
    decreases |a|
  {
    if a != [] && a[0] == b[0] == c[0] {
      StrLessTrans(a[1..], b[1..], c[1..]);
    }
  }

  /** There is one way to list a set of keys in the printing order, so the text does not
      depend on the order in which the map is iterated. */
  lemma {:induction false} SortedKeysUnique(a: seq<string>, b: seq<string>, S: set<string>)
    requires SortedKeys(a, S) && SortedKeys(b, S)
    ensures a == b
    decreases |a|
  {
    assert a == [] <==> S == {} by { assert a != [] ==> a[0] in S; }
    assert b == [] <==> S == {} by { assert b != [] ==> b[0] in S; }
    if S != {} {
      FirstKeySame(a, b, S);
      SortedTail(a, S);
      SortedTail(b, S);
      SortedKeysUnique(a[1..], b[1..], S - {a[0]});
      assert a == [a[0]] + a[1..] && b == [b[0]] + b[1..];
    }
  }

  lemma {:induction false} FirstKeySame(a: seq<string>, b: seq<string>, S: set<string>)
    requires SortedKeys(a, S) && SortedKeys(b, S) && a != [] && b != []
    ensures a[0] == b[0]
  {
    assert a[0] in S && b[0] in S;
    var i :| 0 <= i < |b| && b[i] == a[0];
    var j :| 0 <= j < |a| && a[j] == b[0];
    StrLessTotal(a[0], b[0]);
    assert i > 0 ==> KeyLess(b[0], b[i]);
    assert j > 0 ==> KeyLess(a[0], a[j]);
  }

  lemma {:induction false} SortedTail(a: seq<string>, S: set<string>)
    requires SortedKeys(a, S) && a != []
    ensures SortedKeys(a[1..], S - {a[0]})
  {
    forall k
      ensures k in a[1..] <==> k in S - {a[0]}
    {
      if k in a[1..] {
        var i :| 0 <= i < |a| - 1 && a[1..][i] == k;
        assert KeyLess(a[0], a[i + 1]);
        StrLessTotal(k, k);
        assert k in a;
      }
      if k in S - {a[0]} {
        var i :| 0 <= i < |a| && a[i] == k;
        assert a[1..][i - 1] == k;
      }
    }
  }

  lemma {:induction false} KeyLessTrans(a: string, b: string, c: string)
    requires KeyLess(a, b) && KeyLess(b, c)
    ensures KeyLess(a, c)
  {
    if a != REL { StrLessTrans(a, b, c); }
  }

  function InsertKey(keys: seq<string>, key: string): seq<string>
    decreases |keys|
  {
    if keys != [] && KeyLess(keys[0], key) then [keys[0]] + InsertKey(keys[1..], key) else [key] + keys
  }

  lemma {:induction false} InsertKeeps(keys: seq<string>, S: set<string>, key: string)
    requires SortedKeys(keys, S) && key !in S
    ensures SortedKeys(InsertKey(keys, key), S + {key})
    decreases |keys|
  {
    if keys != [] && KeyLess(keys[0], key) {
      SortedTail(keys, S);
      assert keys[0] in S;
      InsertKeeps(keys[1..], S - {keys[0]}, key);
      var r := InsertKey(keys[1..], key);
      assert forall k :: k in r ==> k == key || k in keys[1..];
      Prepend(keys[0], r, S - {keys[0]} + {key});
      assert {keys[0]} + (S - {keys[0]} + {key}) == S + {key};
    } else {
      forall k | k in keys
        ensures KeyLess(key, k)
      {
        assert keys[0] in S;
        StrLessTotal(key, keys[0]);
        var m :| 0 <= m < |keys| && keys[m] == k;
        if m > 0 { KeyLessTrans(key, keys[0], k); }
      }
      Prepend(key, keys, S);
      assert {key} + S == S + {key};
    }
  }

  lemma {:induction false} Prepend(key: string, keys: seq<string>, S: set<string>)
    requires SortedKeys(keys, S)
    requires forall k :: k in keys ==> KeyLess(key, k)
    ensures SortedKeys([key] + keys, {key} + S)
  {
  }

  /** The sorted list of a set of keys. */
  ghost function Canonical(S: set<string>): (keys: seq<string>)
    ensures SortedKeys(keys, S)
  {
    if S == {} then []
    else
      var k :| k in S;
      InsertKeeps(Canonical(S - {k}), S - {k}, k);
      assert S - {k} + {k} == S;
      InsertKey(Canonical(S - {k}), k)
  }

  /** Collects the keys in the map's own order and sorts them. */
  method SortKeys(p: LinkParams) returns (keys: seq<string>)
    ensures keys == Canonical(p.Keys)
  {
    keys := [];
    var rest := p.Keys;
    while rest != {}
      invariant rest <= p.Keys
      invariant SortedKeys(keys, p.Keys - rest)
      decreases rest
    {
      var key :| key in rest;
      InsertKeeps(keys, p.Keys - rest, key);
      assert p.Keys - (rest - {key}) == (p.Keys - rest) + {key};
      keys := InsertKey(keys, key);
      rest := rest - {key};
    }
    assert p.Keys - rest == p.Keys;
    SortedKeysUnique(keys, Canonical(p.Keys), p.Keys);
  }

  /** What `Link.String` prints. */
  ghost function LinkText(l: Link): string {
    "<" + l.url + ">" + ParamsOf(l)
  }

  ghost function ParamsOf(l: Link): string {
    ParamsText(Canonical(l.params.Keys), l.params)
  }

  lemma {:induction false} ParamsTextFrom(keys: seq<string>, i: nat, p: LinkParams, text: string)
    requires i < |keys| && forall k :: k in keys ==> k in p
    ensures text + ParamsText(keys[i..], p)
         == text + ";" + ParamText(keys[i], p[keys[i]]) + ParamsText(keys[i + 1..], p)
  {
    assert keys[i..][1..] == keys[i + 1..];
    var a, b := ParamText(keys[i], p[keys[i]]), ParamsText(keys[i + 1..], p);
    Assoc(text, ";", a + b);
    Assoc(text + ";", a, b);
  }

  /** `LinkParams.write`. */
  method WriteParams(p: LinkParams) returns (text: string)
    ensures text == ParamsText(Canonical(p.Keys), p)
  {
    var keys := SortKeys(p);
    text := "";
    var i := 0;
    assert keys[0..] == keys;
    while i < |keys|
      invariant i <= |keys|
      invariant ParamsText(keys, p) == text + ParamsText(keys[i..], p)
    {
      ParamsTextFrom(keys, i, p, text);
      text := text + ";" + ParamText(keys[i], p[keys[i]]);
      i := i + 1;
    }
    assert text + [] == text;
  }

  /** `Link.String`. */
  method LinkString(l: Link) returns (text: string)
    ensures text == LinkText(l)
  {
    var params := WriteParams(l.params);
    text := "<" + l.url + ">" + params;
  }

  // ---- Parsing ----

  /** The text after a quoted string whose opening quote was read. */
  function QuotedRest(s: string): (r: Option<string>)
    ensures r.Some? ==> |r.value| < |s|
    decreases |s|
  {
    if s == [] then None
    else if s[0] == '"' then Some(s[1..])
    else if s[0] != '\\' then QuotedRest(s[1..])
    else if |s| >= 2 && s[1] != '\n' then QuotedRest(s[2..])
    else None
  }

  /** The text after a token or quoted string. */
  function ValueRest(s: string): (r: Option<string>)
    ensures r.Some? ==> |r.value| < |s|
  {
    if s == [] then None
    else if s[0] == '"' then QuotedRest(s[1..])
    else if In(Token, s[0]) then Some(Drop(Token, s[1..]))
    else None
  }

  /** The text after `linkParam`. */
  function ParamRest(s: string): (r: Option<string>)
    ensures r.Some? ==> |r.value| < |s|
  {
    if s == [] || !In(Token, s[0]) then None else Some(AssignRest(Drop(ReSpace, Drop(Token, s[1..]))))
  }

  /** The text after `(?:=\s*(?:token|quoted))?`. */
  function AssignRest(s: string): (r: string)
    ensures |r| <= |s|
  {
    if s != [] && s[0] == '=' && ValueRest(Drop(ReSpace, s[1..])).Some?
    then ValueRest(Drop(ReSpace, s[1..])).value
    else s
  }

  /** The text after `(?:\s*;\s*linkParam)*`. */
  function ParamsRest(s: string): (r: string)
    ensures |r| <= |s|
    decreases |s|
  {
    var t := Drop(ReSpace, s);
    if t == [] || t[0] != ';' then s
    else
      var r := ParamRest(Drop(ReSpace, t[1..]));
      if r.None? then s else ParamsRest(r.value)
  }

  /** A match of `reValue`: its two groups and the text after it. */
  datatype ValueMatch = ValueMatch(raw: string, uri: string, rest: string)

  function MatchValue(s: string): (m: Option<ValueMatch>)
    ensures m.Some? ==> |m.value.rest| < |s|
  {
    var t := Drop(ReSpace, s);
    if t == [] || t[0] != '<' then None
    else
      var u := Drop(UriText, t[1..]);
      if u == [] || u[0] != '>' then None
      else
        var e := ParamsRest(u[1..]);
        var k := Drop(ReSpace, e);
        if k == [] then Some(ValueMatch(Before(t, e), Before(t[1..], u), []))
        else if k[0] == ',' then Some(ValueMatch(Before(t, e), Before(t[1..], u), k[1..]))
        else None
  }

  /** `reParam.FindAllStringSubmatch`: the first group of every match, left to right. */
  function FindParams(s: string): seq<string>
    decreases |s|
  {
    if s == [] then []
    else if s[0] != ';' then FindParams(s[1..])
    else
      var b := Drop(ReSpace, s[1..]);
      var r := ParamRest(b);
      if r.None? then FindParams(s[1..]) else [Before(b, r.value)] + FindParams(r.value)
  }

  /** `strings.Replace(s, "\\", "", -1)`. */
  function DropBackslashes(s: string): string
    decreases |s|
  {
    if s == [] then []
    else if s[0] == '\\' then DropBackslashes(s[1..])
    else [s[0]] + DropBackslashes(s[1..])
  }

  /** Adds one matched parameter to the map. */
  function AddParam(p: LinkParams, m: string): LinkParams {
    var r := Drop(NonEquals, m);
    var key := ToLower(TrimSpace(Before(m, r)));
    if r == [] then SetParam(p, key, "") else SetParam(p, key, Unquoted(TrimSpace(r[1..])))
  }

  function Unquoted(val: string): string {
    if |val| >= 2 && val[0] == '"' then DropBackslashes(val[1..|val| - 1]) else val
  }

  function AddParams(p: LinkParams, ms: seq<string>): LinkParams
    decreases |ms|
  {
    if ms == [] then p else AddParams(AddParam(p, ms[0]), ms[1..])
  }

  /** `Parse` as a function; `parseURL` stands for `url.Parse` followed by `String`. */
  function ParseText(parseURL: string -> Option<string>, s: string): ParseResult
    decreases |s|
  {
    if s == [] then Parsed([])
    else
      var m := MatchValue(s);
      if m.None? then Failed(Malformed)
      else
        var u := parseURL(m.value.uri);
        if u.None? then Failed(InvalidURL)
        else
          var l := Link(u.value, AddParams(map[], FindParams(m.value.raw)));
          var r := ParseText(parseURL, m.value.rest);
          if r.Failed? then r else Parsed([l] + r.links)
  }

  /** The loop over the matches of `reParam`. */
  method ParseParams(raw: string) returns (params: LinkParams)
    ensures params == AddParams(map[], FindParams(raw))
  {
    params := map[];
    var ms := FindParams(raw);
    var i := 0;
    while i < |ms|
      invariant i <= |ms|
      invariant AddParams(map[], ms) == AddParams(params, ms[i..])
    {
      params := AddParam(params, ms[i]);
      i := i + 1;
    }
  }

  function Prefixed(links: seq<Link>, r: ParseResult): ParseResult {
    if r.Failed? then r else Parsed(links + r.links)
  }

  lemma {:induction false} ParseOne(parseURL: string -> Option<string>, s: string, l: Link)
    requires s != [] && MatchValue(s).Some? && parseURL(MatchValue(s).value.uri) == Some(l.url)
    requires l.params == AddParams(map[], FindParams(MatchValue(s).value.raw))
    ensures ParseText(parseURL, s) == Prefixed([l], ParseText(parseURL, MatchValue(s).value.rest))
  {
  }

  lemma {:induction false} ParseMore(parseURL: string -> Option<string>, s: string, links: seq<Link>, l: Link)
    requires s != [] && MatchValue(s).Some? && parseURL(MatchValue(s).value.uri) == Some(l.url)
    requires l.params == AddParams(map[], FindParams(MatchValue(s).value.raw))
    ensures Prefixed(links, ParseText(parseURL, s))
         == Prefixed(links + [l], ParseText(parseURL, MatchValue(s).value.rest))
  {
    var r := ParseText(parseURL, MatchValue(s).value.rest);
    ParseOne(parseURL, s, l);
    if r.Parsed? { Assoc(links, [l], r.links); }
  }

  /** `Parse`: consumes the header link by link and stops at the first error. */
  method Parse(parseURL: string -> Option<string>, header: string) returns (r: ParseResult)
    ensures r == ParseText(parseURL, header)
  {
    var links: seq<Link> := [];
    var s := header;
    while |s| > 0
      invariant ParseText(parseURL, header) == Prefixed(links, ParseText(parseURL, s))
      decreases |s|
    {
      var m := MatchValue(s);
      if m.None? { return Failed(Malformed); }
      var u := parseURL(m.value.uri);
      if u.None? { return Failed(InvalidURL); }
      var params := ParseParams(m.value.raw);
      ParseMore(parseURL, s, links, Link(u.value, params));
      links := links + [Link(u.value, params)];
      s := m.value.rest;
    }
    r := Parsed(links);
  }
}
