/** Preload links in HTTP headers: `exchange/response.go`, `processor/commonproc/preload.go` and
    `resource/preload/preload.go`. */
module PreloadHeaders {
  import opened Text
  import opened HttpLink
  import opened LinkRoundTrip
  import opened LinkFacts
  import opened Packaging

  type Header = map<string, seq<string>>

  const LINK := "Link"
  const MAX_PRELOADS := 20

  // ---- AddPreload ----

  predicate HasLink(ps: seq<Preload>, l: Link) { exists i :: 0 <= i < |ps| && ps[i].link == l }

  /** The list after `AddPreload`. */
  function Added(ps: seq<Preload>, p: Preload): seq<Preload> { if HasLink(ps, p.link) then ps else ps + [p] }

  function AddedAll(ps: seq<Preload>, more: seq<Preload>): seq<Preload>
    decreases |more|
  {
    if more == [] then ps else AddedAll(Added(ps, more[0]), more[1..])
  }

  predicate NoTwins(ps: seq<Preload>) { forall i, j :: 0 <= i < j < |ps| ==> ps[i].link != ps[j].link }

  /** Adding keeps what is there, adds nothing twice and loses no link. */
  lemma {:induction false} AddedAllLaws(ps: seq<Preload>, more: seq<Preload>)
    ensures ps <= AddedAll(ps, more) && |AddedAll(ps, more)| <= |ps| + |more|
    ensures NoTwins(ps) ==> NoTwins(AddedAll(ps, more))
    ensures forall l :: HasLink(AddedAll(ps, more), l) <==> HasLink(ps, l) || HasLink(more, l)
    decreases |more|
  {
    if more != [] {
      var qs := Added(ps, more[0]);
      AddedAllLaws(qs, more[1..]);
      forall l
        ensures HasLink(AddedAll(ps, more), l) <==> HasLink(ps, l) || HasLink(more, l)
      {
        HasLinkConcat(ps, [more[0]], l);
        HasLinkConcat([more[0]], more[1..], l);
        assert [more[0]] + more[1..] == more;
      }
    }
  }

  lemma {:induction false} HasLinkConcat(a: seq<Preload>, b: seq<Preload>, l: Link)
    ensures HasLink(a + b, l) <==> HasLink(a, l) || HasLink(b, l)
  {
    if HasLink(a, l) {
      var i :| 0 <= i < |a| && a[i].link == l;
      assert (a + b)[i].link == l;
    }
    if HasLink(b, l) {
      var i :| 0 <= i < |b| && b[i].link == l;
      assert (a + b)[|a| + i].link == l;
    }
    if HasLink(a + b, l) {
      var i :| 0 <= i < |a + b| && (a + b)[i].link == l;
      assert if i < |a| then a[i].link == l else b[i - |a|].link == l;
    }
  }

  lemma {:induction false} AddedAllConcat(ps: seq<Preload>, a: seq<Preload>, b: seq<Preload>)
    ensures AddedAll(ps, a + b) == AddedAll(AddedAll(ps, a), b)
    decreases |a|
  {
    if a == [] {
      assert a + b == b;
    } else {
      assert (a + b)[1..] == a[1..] + b;
      AddedAllConcat(Added(ps, a[0]), a[1..], b);
    }
  }

  function NewPreloadForLink(l: Link): Preload { Preload(l, [NewResource(l.url)]) }

  function NewPreloadForURL(url: string, as_: string): Preload {
    var l := NewLink(url, REL_PRELOAD);
    Preload(if as_ == "" then l else l.(params := SetParam(l.params, AS, as_)), [NewResource(url)])
  }

  // ---- ExtractPreloadHeaders ----

  /** The preload links of the parsable header values, in order. */
  function PreloadLinks(parseURL: string -> Option<string>, values: seq<string>): seq<Link>
    decreases |values|
  {
    if values == [] then [] else PreloadsIn(ParseText(parseURL, values[0])) + PreloadLinks(parseURL, values[1..])
  }

  /** A value that does not parse is ignored. */
  function PreloadsIn(r: ParseResult): seq<Link> { if r.Failed? then [] else PreloadsOf(r.links) }

  function PreloadsOf(links: seq<Link>): seq<Link>
    decreases |links|
  {
    if links == [] then []
    else (if IsPreload(links[0]) then [links[0]] else []) + PreloadsOf(links[1..])
  }

  lemma {:induction false} PreloadsOfSnoc(links: seq<Link>, l: Link)
    ensures PreloadsOf(links + [l]) == PreloadsOf(links) + if IsPreload(l) then [l] else []
    decreases |links|
  {
    var last := if IsPreload(l) then [l] else [];
    if links == [] {
      assert links + [l] == [l] && [l][1..] == [];
      assert PreloadsOf([l]) == last + [] && [] + last == last + [];
    } else {
      var first := if IsPreload(links[0]) then [links[0]] else [];
      assert (links + [l])[0] == links[0] && (links + [l])[1..] == links[1..] + [l];
      PreloadsOfSnoc(links[1..], l);
      Assoc(first, PreloadsOf(links[1..]), last);
    }
  }

  lemma {:induction false} PreloadLinksSnoc(parseURL: string -> Option<string>, values: seq<string>, v: string)
    ensures PreloadLinks(parseURL, values + [v]) ==
      PreloadLinks(parseURL, values) + PreloadsIn(ParseText(parseURL, v))
    decreases |values|
  {
    if values == [] {
      assert values + [v] == [v] && [v][1..] == [];
    } else {
      assert (values + [v])[1..] == values[1..] + [v];
      PreloadLinksSnoc(parseURL, values[1..], v);
      Assoc(PreloadsIn(ParseText(parseURL, values[0])), PreloadLinks(parseURL, values[1..]),
        PreloadsIn(ParseText(parseURL, v)));
    }
  }

  lemma {:induction false} PreloadLinksNext(parseURL: string -> Option<string>, values: seq<string>, i: nat)
    requires i < |values|
    ensures PreloadLinks(parseURL, values[..i + 1]) ==
      PreloadLinks(parseURL, values[..i]) + PreloadsIn(ParseText(parseURL, values[i]))
  {
    assert values[..i + 1] == values[..i] + [values[i]];
    PreloadLinksSnoc(parseURL, values[..i], values[i]);
  }

  /** The preloads made of at most the first twenty of them, with their URLs resolved. */
  function PreloadsFor(resolve: string -> string, links: seq<Link>): (ps: seq<Preload>)
    ensures |ps| == if |links| < MAX_PRELOADS then |links| else MAX_PRELOADS
    ensures forall i :: 0 <= i < |ps| ==> ps[i] == NewPreloadForLink(links[i].(url := resolve(links[i].url)))
  {
    var n := if |links| < MAX_PRELOADS then |links| else MAX_PRELOADS;
    seq(n, i requires 0 <= i < n => NewPreloadForLink(links[i].(url := resolve(links[i].url))))
  }

  class Response {
    var header: Header
    var preloads: seq<Preload>

    constructor (header: Header)
      ensures this.header == header && preloads == []
    {
      this.header, preloads := header, [];
    }

    method AddPreload(p: Preload) returns (added: bool)
      modifies this`preloads
      ensures preloads == Added(old(preloads), p)
      ensures added <==> !HasLink(old(preloads), p.link)
    {
      for i := 0 to |preloads|
        invariant preloads == old(preloads) && forall k :: 0 <= k < i ==> preloads[k].link != p.link
      {
        if p.link == preloads[i].link {
          return false;
        }
      }
      preloads := preloads + [p];
      added := true;
    }

    /** `extractPreloadHeaders.Process`: the Link field goes, the first twenty preload links in it
        become preloads, and nothing else changes. */
    method ExtractPreloadHeaders(parseURL: string -> Option<string>, resolve: string -> string)
      modifies this
      ensures header == old(header) - {LINK}
      ensures preloads == if LINK !in old(header) then old(preloads)
        else AddedAll(old(preloads), PreloadsFor(resolve, PreloadLinks(parseURL, old(header)[LINK])))
    {
      if LINK !in header {
        assert header - {LINK} == header;
        return;
      }
      var values := header[LINK];
      header := header - {LINK};
      AddPreloadsOf(parseURL, resolve, values);
    }

    /** The outer loop, over the header values. */
    method AddPreloadsOf(parseURL: string -> Option<string>, resolve: string -> string, values: seq<string>)
      modifies this`preloads
      ensures preloads == AddedAll(old(preloads), PreloadsFor(resolve, PreloadLinks(parseURL, values)))
    {
      var num := 0;
      ghost var links: seq<Link> := [];
      assert PreloadsFor(resolve, []) == [];
      for i := 0 to |values|
        invariant links == PreloadLinks(parseURL, values[..i]) && num == |PreloadsFor(resolve, links)|
        invariant preloads == AddedAll(old(preloads), PreloadsFor(resolve, links))
      {
        num := AddPreloadsIn(parseURL, resolve, values[i], num, links, old(preloads));
        PreloadLinksNext(parseURL, values, i);
        links := links + PreloadsIn(ParseText(parseURL, values[i]));
      }
      assert values[..|values|] == values;
    }

    /** One iteration of it. */
    method AddPreloadsIn(parseURL: string -> Option<string>, resolve: string -> string, value: string, num: nat,
                         ghost before: seq<Link>, ghost start: seq<Preload>)
      returns (num': nat)
      requires num == |PreloadsFor(resolve, before)| && preloads == AddedAll(start, PreloadsFor(resolve, before))
      modifies this`preloads
      ensures var links := before + PreloadsIn(ParseText(parseURL, value));
        num' == |PreloadsFor(resolve, links)| && preloads == AddedAll(start, PreloadsFor(resolve, links))
    {
      var r := Parse(parseURL, value);
      if r.Failed? {
        assert before + [] == before;
        return num;
      }
      num' := AddPreloadLinks(resolve, r.links, num, before, start);
    }

    /** The inner loop, over the links of one header value. */
    method AddPreloadLinks(
        resolve: string -> string, links: seq<Link>, num: nat, ghost before: seq<Link>, ghost start: seq<Preload>)
      returns (num': nat)
      requires num == |PreloadsFor(resolve, before)| && preloads == AddedAll(start, PreloadsFor(resolve, before))
      modifies this`preloads
      ensures num' == |PreloadsFor(resolve, before + PreloadsOf(links))|
      ensures preloads == AddedAll(start, PreloadsFor(resolve, before + PreloadsOf(links)))
    {
      num' := num;
      assert before + PreloadsOf(links[..0]) == before;
      for j := 0 to |links|
        invariant num' == |PreloadsFor(resolve, before + PreloadsOf(links[..j]))|
        invariant preloads == AddedAll(start, PreloadsFor(resolve, before + PreloadsOf(links[..j])))
      {
        var link := links[j];
        assert links[..j + 1] == links[..j] + [link];
        PreloadsOfSnoc(links[..j], link);
        var isPreload := LinkIsPreload(link);
        if isPreload {
          OneMore(resolve, before + PreloadsOf(links[..j]), link, start);
          Assoc(before, PreloadsOf(links[..j]), [link]);
          if num' < MAX_PRELOADS {
            var _ := AddPreload(NewPreloadForLink(link.(url := resolve(link.url))));
            num' := num' + 1;
          }
        } else {
          assert PreloadsOf(links[..j]) + [] == PreloadsOf(links[..j]);
        }
      }
      assert links[..|links|] == links;
    }
  }

  // ---- GetFullHeader ----

  const ALLOWED_ALT := "allowed-alt-sxg"
  const HEADER_INTEGRITY := "header-integrity"

  /** `Resource.AllowedAltSXGHeader`. */
  function AllowedAltText(url: string, integrity: string): string {
    "<" + url + ">" + TwoParams(REL, "\"" + (ALLOWED_ALT + "\""), HEADER_INTEGRITY, Quote(integrity))
  }

  function TwoParams(k1: string, q1: string, k2: string, q2: string): string {
    ";" + (k1 + ("=" + q1) + (";" + (k2 + ("=" + q2))))
  }

  ghost function LineText(l: LinkLine): string {
    match l
    case AllowedAlt(url, integrity) => AllowedAltText(url, integrity)
    case PreloadLine(link) => LinkText(link)
  }

  ghost function LineTexts(ls: seq<LinkLine>): (r: seq<string>)
    ensures |r| == |ls|
    decreases |ls|
  {
    if ls == [] then [] else [LineText(ls[0])] + LineTexts(ls[1..])
  }

  /** `http.Header.Add` for several values of the Link field. */
  function WithLinks(h: Header, values: seq<string>): Header {
    if values == [] then h else h[LINK := (if LINK in h then h[LINK] else []) + values]
  }

  /** The header of the exchange: the response's own fields and the lines of the preloads. */
  ghost function FullHeader(h: Header, keep: bool, ps: seq<Preload>): Header {
    WithLinks(h, LineTexts(LinkLines(keep, ps)))
  }

  lemma {:induction false} WithLinksTwice(h: Header, a: seq<string>, b: seq<string>)
    ensures WithLinks(WithLinks(h, a), b) == WithLinks(h, a + b)
  {
    if a == [] {
      assert a + b == b;
    } else if b == [] {
      assert a + b == a;
    } else {
      Assoc(if LINK in h then h[LINK] else [], a, b);
    }
  }

  lemma {:induction false} LineTextsConcat(a: seq<LinkLine>, b: seq<LinkLine>)
    ensures LineTexts(a + b) == LineTexts(a) + LineTexts(b)
    decreases |a|
  {
    if a == [] {
      assert a + b == b;
    } else {
      assert (a + b)[0] == a[0] && (a + b)[1..] == a[1..] + b;
      LineTextsConcat(a[1..], b);
      Assoc([LineText(a[0])], LineTexts(a[1..]), LineTexts(b));
    }
  }

  /** Copies the header field by field. */
  method CopyHeader(h: Header) returns (copy: Header)
    ensures copy == h
  {
    copy := map[];
    var rest := h.Keys;
    while rest != {}
      invariant rest <= h.Keys && copy == map k | k in h.Keys - rest :: h[k]
      decreases rest
    {
      var key :| key in rest;
      copy := copy[key := h[key]];
      rest := rest - {key};
    }
    assert h.Keys - rest == h.Keys;
  }

  /** The inner loop: one allowed-alt-sxg line per packaged resource. */
  method AddAltLines(h0: Header, rs: seq<Res>) returns (h: Header, containsAlt: bool)
    ensures h == WithLinks(h0, LineTexts(AltLines(rs)))
    ensures containsAlt == (AltLines(rs) != [])
  {
    h, containsAlt := h0, false;
    assert LineTexts([]) == [];
    for j := 0 to |rs|
      invariant h == WithLinks(h0, LineTexts(AltLines(rs[..j]))) && containsAlt == (AltLines(rs[..j]) != [])
    {
      var r := rs[j];
      assert rs[..j + 1] == rs[..j] + [r];
      AltLinesSnoc(rs[..j], r);
      if r.integrity != "" {
        containsAlt := true;
        AddLine(h0, AltLines(rs[..j]), AllowedAlt(r.requestURL, r.integrity));
        h := WithLinks(h, [AllowedAltText(r.requestURL, r.integrity)]);
      } else {
        assert AltLines(rs[..j]) + [] == AltLines(rs[..j]);
      }
    }
    assert rs[..|rs|] == rs;
  }

  lemma {:induction false} AddLine(h: Header, ls: seq<LinkLine>, l: LinkLine)
    ensures WithLinks(WithLinks(h, LineTexts(ls)), [LineText(l)]) == WithLinks(h, LineTexts(ls + [l]))
  {
    LineTextsConcat(ls, [l]);
    assert LineTexts([l]) == [LineText(l)];
    WithLinksTwice(h, LineTexts(ls), [LineText(l)]);
  }

  /** `GetFullHeader`; it changes nothing of the response. */
  method GetFullHeader(resp: Response, keep: bool) returns (h: Header)
    ensures h == FullHeader(resp.header, keep, resp.preloads)
  {
    h := CopyHeader(resp.header);
    var ps := resp.preloads;
    ghost var lines: seq<LinkLine> := [];
    assert LineTexts([]) == [];
    for i := 0 to |ps|
      invariant lines == LinkLines(keep, ps[..i]) && h == WithLinks(resp.header, LineTexts(lines))
    {
      assert ps[..i + 1] == ps[..i] + [ps[i]];
      LinkLinesSnoc(keep, ps[..i], ps[i]);
      var containsAlt;
      ghost var alt := AltLines(ps[i].resources);
      WithLinksTwice(resp.header, LineTexts(lines), LineTexts(alt));
      LineTextsConcat(lines, alt);
      h, containsAlt := AddAltLines(h, ps[i].resources);
      lines := lines + alt;
      if containsAlt || keep {
        var text := LinkString(ps[i].link);
        AddLine(resp.header, lines, PreloadLine(ps[i].link));
        h := WithLinks(h, [text]);
        Assoc(LinkLines(keep, ps[..i]), alt, [PreloadLine(ps[i].link)]);
        lines := lines + [PreloadLine(ps[i].link)];
      } else {
        assert alt + [] == alt;
      }
    }
    assert ps[..|ps|] == ps;
  }

  // ---- What the lines say ----

  function AltLink(url: string, integrity: string): Link {
    Link(url, map[REL := ALLOWED_ALT, HEADER_INTEGRITY := integrity])
  }

  /** Text that quoting leaves alone. */
  predicate Simple(v: string) { forall i :: 0 <= i < |v| ==> v[i] == '-' || 'a' <= v[i] <= 'z' }

  lemma {:induction false} EscapeSimple(v: string)
    requires Simple(v)
    ensures Escape(v) == v
    decreases |v|
  {
    if v != [] {
      EscapeSimple(v[1..]);
      assert [v[0]] + v[1..] == v;
    }
  }

  lemma {:induction false} TwoParamsText(k1: string, v1: string, k2: string, v2: string, p: LinkParams)
    requires p == map[k1 := v1, k2 := v2] && k1 != k2 && k1 != CROSS_ORIGIN && k2 != CROSS_ORIGIN && Simple(v1)
    ensures ParamsText([k1, k2], p) == TwoParams(k1, "\"" + (v1 + "\""), k2, Quote(v2))
  {
    EscapeSimple(v1);
    assert [k1, k2][1..] == [k2] && [k2][1..] == [];
    assert ParamsText([k2], p) == ";" + (ParamText(k2, v2) + []);
    assert ParamText(k2, v2) + [] == ParamText(k2, v2);
  }

  lemma {:induction false} AltKeys()
    ensures Canonical({REL, HEADER_INTEGRITY}) == [REL, HEADER_INTEGRITY] && REL != HEADER_INTEGRITY
    ensures REL != CROSS_ORIGIN && HEADER_INTEGRITY != CROSS_ORIGIN
  {
    assert |REL| == 3 && |HEADER_INTEGRITY| == 16 && |CROSS_ORIGIN| == 11;
    SortedKeysUnique(Canonical({REL, HEADER_INTEGRITY}), [REL, HEADER_INTEGRITY], {REL, HEADER_INTEGRITY});
  }

  /** The allowed-alt-sxg line is the printed form of a link. */
  lemma {:induction false} AltTextIsLink(url: string, integrity: string)
    ensures AllowedAltText(url, integrity) == LinkText(AltLink(url, integrity))
  {
    AltKeys();
    assert Simple(ALLOWED_ALT);
    assert AltLink(url, integrity).params.Keys == {REL, HEADER_INTEGRITY};
    TwoParamsText(REL, ALLOWED_ALT, HEADER_INTEGRITY, integrity, AltLink(url, integrity).params);
  }

  lemma {:induction false} SimpleLaws(v: string)
    requires Simple(v) && v != []
    ensures LowerToken(v) && AllPlain(v) && Ascii(v) && Word(v) && ToLower(v) == v
  {
  }

  lemma {:induction false} RelSimple(v: string)
    requires Simple(v) && v != []
    ensures NormalizeValue(REL, v) == v
  {
    SimpleLaws(v);
    assert v + [] == v;
    FieldsCons(v, []);
    assert Fields([]) == [] && [v] + [] == [v];
    assert LowerAll([v]) == [v];
  }

  /** A preload for a URL: exactly the relation type and, unless it is empty, the destination. */
  lemma {:induction false} PreloadForURL(url: string, dest: string)
    requires Simple(dest)
    ensures NewPreloadForURL(url, dest) == Preload(
      Link(url, if dest == "" then map["rel" := "preload"] else map["rel" := "preload", "as" := dest]),
      [NewResource(url)])
  {
    assert Simple(REL_PRELOAD);
    RelSimple(REL_PRELOAD);
    assert Simple(REL) && Simple(AS);
    SimpleLaws(REL);
    SimpleLaws(AS);
    if dest != "" { SimpleLaws(dest); }
    assert AS != REL by { assert |AS| == 2 && |REL| == 3; }
  }

  /** Values that are read back unchanged. */
  ghost predicate Exact(p: LinkParams) {
    forall k :: k in p ==> LowerToken(k) && Ascii(p[k]) && AllPlain(p[k]) && NormalizeValue(k, p[k]) == p[k]
  }

  lemma {:induction false} TwoExact(k1: string, v1: string, k2: string, v2: string)
    requires LowerToken(k1) && LowerToken(k2) && AllPlain(v1) && AllPlain(v2)
    requires NormalizeValue(k1, v1) == v1 && NormalizeValue(k2, v2) == v2 && k1 != k2
    ensures Exact(map[k1 := v1, k2 := v2])
  {
    assert Ascii(v1) && Ascii(v2);
  }

  lemma {:induction false} AltLinkExact(url: string, integrity: string)
    requires AllPlain(integrity)
    ensures Exact(AltLink(url, integrity).params)
  {
    AltKeys();
    assert Simple(ALLOWED_ALT) && Simple(REL) && Simple(HEADER_INTEGRITY);
    SimpleLaws(REL);
    SimpleLaws(HEADER_INTEGRITY);
    SimpleLaws(ALLOWED_ALT);
    RelSimple(ALLOWED_ALT);
    NotSpecial();
    TwoExact(REL, ALLOWED_ALT, HEADER_INTEGRITY, integrity);
  }

  lemma {:induction false} NotSpecial()
    ensures HEADER_INTEGRITY != REL && HEADER_INTEGRITY != AS && HEADER_INTEGRITY != TYPE
    ensures HEADER_INTEGRITY != CROSS_ORIGIN
  {
    assert |HEADER_INTEGRITY| == 16 && |REL| == 3 && |AS| == 2 && |TYPE| == 4 && |CROSS_ORIGIN| == 11;
  }

  lemma {:induction false} OneLinkReadsBack(parseURL: string -> Option<string>, l: Link)
    requires Exact(l.params) && NoBrackets(l.url) && !Spills(l.url, ">" + ParamsOf(l))
    requires parseURL(l.url) == Some(l.url)
    ensures ParseText(parseURL, LinkText(l)) == Parsed([l]) <==> UriParams(l.url).Keys <= l.params.Keys
  {
    var links := [l];
    assert links[1..] == [] && Texts(links) == [LinkText(l)];
    ListRoundTrip(parseURL, links);
    assert links[0] == l && (Survives(l) <==> UriParams(l.url).Keys <= l.params.Keys);
  }

  /** A client that parses the line gets the URL and the integrity that were written exactly when
      the URL hides no parameter of another name. */
  lemma {:induction false} AltTextReadsBack(parseURL: string -> Option<string>, url: string, integrity: string)
    requires NoBrackets(url) && AllPlain(integrity) && parseURL(url) == Some(url)
    requires !Spills(url, ">" + ParamsOf(AltLink(url, integrity)))
    ensures ParseText(parseURL, AllowedAltText(url, integrity)) == Parsed([AltLink(url, integrity)])
       <==> UriParams(url).Keys <= {REL, HEADER_INTEGRITY}
  {
    var l := AltLink(url, integrity);
    AltTextIsLink(url, integrity);
    AltLinkExact(url, integrity);
    OneLinkReadsBack(parseURL, l);
    assert l.params.Keys == {REL, HEADER_INTEGRITY};
  }

  /** A URL without semicolon hides nothing. */
  lemma {:induction false} PlainAltTextReadsBack(parseURL: string -> Option<string>, url: string, integrity: string)
    requires NoBrackets(url) && !Has(url, ';') && AllPlain(integrity) && parseURL(url) == Some(url)
    ensures ParseText(parseURL, AllowedAltText(url, integrity))
         == Parsed([Link(url, map["rel" := "allowed-alt-sxg", "header-integrity" := integrity])])
  {
    NoQuoteNoSpill(url, ">" + ParamsOf(AltLink(url, integrity)));
    NoSemicolonNoParams(url);
    AltTextReadsBack(parseURL, url, integrity);
  }

  lemma {:induction false} OneMore(resolve: string -> string, links: seq<Link>, l: Link, start: seq<Preload>)
    ensures var p := NewPreloadForLink(l.(url := resolve(l.url)));
      var a, b := PreloadsFor(resolve, links), PreloadsFor(resolve, links + [l]);
      if |links| < MAX_PRELOADS then b == a + [p] && AddedAll(start, b) == Added(AddedAll(start, a), p) else b == a
  {
    var p := NewPreloadForLink(l.(url := resolve(l.url)));
    AddedAllConcat(start, PreloadsFor(resolve, links), [p]);
    assert AddedAll(AddedAll(start, PreloadsFor(resolve, links)), [p])
        == AddedAll(Added(AddedAll(start, PreloadsFor(resolve, links)), p), []) by { assert [p][1..] == []; }
  }

  lemma {:induction false} AddedAllOwn(ps: seq<Preload>, more: seq<Preload>)
    requires OwnURLs(ps) && OwnURLs(more)
    ensures OwnURLs(AddedAll(ps, more))
    decreases |more|
  {
    if more != [] {
      assert OwnURLs(more[1..]) by {
        assert forall i :: 0 <= i < |more| - 1 ==> more[1..][i] == more[i + 1];
      }
      assert OwnURLs(Added(ps, more[0]));
      AddedAllOwn(Added(ps, more[0]), more[1..]);
    }
  }

  /** The links taken from the header are exactly those with the relation type "preload" in its
      parsable values. */
  lemma {:induction false} PreloadLinksExact(parseURL: string -> Option<string>, values: seq<string>, l: Link)
    ensures l in PreloadLinks(parseURL, values) <==> HasRel(l, "preload") && Mentions(parseURL, values, l)
    decreases |values|
  {
    if values != [] {
      PreloadLinksExact(parseURL, values[1..], l);
      var r := ParseText(parseURL, values[0]);
      if r.Parsed? { PreloadsOfExact(r.links, l); }
      assert forall i :: 0 < i < |values| ==> values[i] == values[1..][i - 1];
      assert Mentions(parseURL, values, l) <==> (r.Parsed? && l in r.links) || Mentions(parseURL, values[1..], l) by {
        if Mentions(parseURL, values[1..], l) {
          var i :| 0 <= i < |values[1..]| && ParseText(parseURL, values[1..][i]).Parsed?
            && l in ParseText(parseURL, values[1..][i]).links;
          assert values[i + 1] == values[1..][i];
        }
      }
    }
  }

  /** Some value parses and has the link. */
  ghost predicate Mentions(parseURL: string -> Option<string>, values: seq<string>, l: Link) {
    exists i :: 0 <= i < |values| && ParseText(parseURL, values[i]).Parsed? && l in ParseText(parseURL, values[i]).links
  }

  lemma {:induction false} PreloadsOfExact(links: seq<Link>, l: Link)
    ensures l in PreloadsOf(links) <==> HasRel(l, "preload") && l in links
    decreases |links|
  {
    if links != [] {
      PreloadsOfExact(links[1..], l);
      IsPreloadExact(links[0]);
      assert links == [links[0]] + links[1..];
    }
  }

  /** What extracting the Link field of a response gives: the first twenty of its preload links, no two
      equal, each with one fresh resource at its own URL; and nothing at all if no link has the relation
      type. */
  lemma {:induction false} ExtractedPreloads(
      parseURL: string -> Option<string>, resolve: string -> string, values: seq<string>, ps: seq<Preload>)
    requires NoTwins(ps) && OwnURLs(ps)
    ensures var links := PreloadLinks(parseURL, values);
      var qs := AddedAll(ps, PreloadsFor(resolve, links));
      && ps <= qs && |qs| <= |ps| + 20 && NoTwins(qs) && OwnURLs(qs)
      && (forall i :: 0 <= i < |links| && i < 20 ==>
            HasRel(links[i], "preload") && HasLink(qs, links[i].(url := resolve(links[i].url))))
      && (forall i :: |ps| <= i < |qs| ==>
            HasRel(qs[i].link, "preload") && qs[i].resources == [NewResource(qs[i].link.url)])
    ensures (forall l :: Mentions(parseURL, values, l) ==> !HasRel(l, "preload")) ==>
      AddedAll(ps, PreloadsFor(resolve, PreloadLinks(parseURL, values))) == ps
  {
    var links := PreloadLinks(parseURL, values);
    var more := PreloadsFor(resolve, links);
    AddedAllLaws(ps, more);
    AddedAllOwn(ps, more);
    AddedAllNew(ps, more);
    forall i | 0 <= i < |links|
      ensures HasRel(links[i], "preload")
      ensures i < 20 ==> more[i].resources == [NewResource(more[i].link.url)]
      ensures i < 20 ==> more[i].link == links[i].(url := resolve(links[i].url))
      ensures i < 20 ==> HasRel(more[i].link, "preload") && HasLink(more, more[i].link)
    {
      PreloadLinksExact(parseURL, values, links[i]);
    }
    if links != [] { PreloadLinksExact(parseURL, values, links[0]); }
  }

  /** Everything added is one of the new preloads. */
  lemma {:induction false} AddedAllNew(ps: seq<Preload>, more: seq<Preload>)
    ensures ps <= AddedAll(ps, more)
    ensures forall i :: |ps| <= i < |AddedAll(ps, more)| ==> AddedAll(ps, more)[i] in more
    decreases |more|
  {
    if more != [] { AddedAllNew(Added(ps, more[0]), more[1..]); }
  }

  /** The header of an exchange after the extraction: its Link field holds exactly the lines of the
      preloads, and no preload line stands without an earlier allowed-alt-sxg line for its URL. */
  lemma {:induction false} FullHeaderComplete(h: Header, ps: seq<Preload>)
    requires OwnURLs(ps)
    ensures var lines := LinkLines(false, ps); var full := FullHeader(h - {LINK}, false, ps);
      && Announced(lines)
      && (LINK in full <==> lines != [])
      && (LINK in full ==> full[LINK] == LineTexts(lines))
      && full - {LINK} == h - {LINK}
  {
    LinkLinesAnnounced(ps);
    var lines := LinkLines(false, ps);
    assert [] + LineTexts(lines) == LineTexts(lines);
  }
}
