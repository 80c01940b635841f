/** Traversal of parse trees with skip and stop, `processor/htmlproc/htmldoc/node.go`, and the
    script preloader built on it, `processor/htmlproc/htmltask/preload_script.go`. */
module HtmlTraversal {
  import opened Text
  import opened HttpLink
  import opened Packaging
  import opened PreloadHeaders

  datatype Kind = ErrorNode | TextNode | DocumentNode | ElementNode | CommentNode | DoctypeNode | OtherNode(code: int)

  /** The element names that matter here. */
  datatype Atom =
    | Script
    | Base | LinkTag | Meta | Noscript | Style | Title
    | Applet | Audio | Button | Embed | Iframe | Img | Input | Meter | ObjectTag | SelectTag | Textarea | Video
    | OtherAtom(code: nat)

  datatype Attr = Attr(namespace: string, key: string, val: string)
  datatype Node = Node(kind: Kind, tag: Atom, data: string, attrs: seq<Attr>, children: seq<Node>)

  /** What the callback returns: nil, ErrSkip, ErrStop or another error. */
  datatype Verdict = Go | Skip | Stop | Fail(code: int)

  /** How a traversal ends. */
  datatype End = Done | Stopped | Broken(code: int)

  type Callback<!S> = (S, Node) -> (S, Verdict)

  // ---- traverse ----

  function Traverse<S>(f: Callback<S>, s: S, n: Node): (S, End)
    decreases n, 1
  {
    var (s1, v) := f(s, n);
    match v
    case Go => TraverseAll(f, s1, n.children)
    case Skip => (s1, Done)
    case Stop => (s1, Stopped)
    case Fail(code) => (s1, Broken(code))
  }

  /** The sibling loop. */
  function TraverseAll<S>(f: Callback<S>, s: S, ns: seq<Node>): (S, End)
    decreases ns, 0
  {
    if ns == [] then (s, Done)
    else
      var (s1, e) := Traverse(f, s, ns[0]);
      if e.Done? then TraverseAll(f, s1, ns[1..]) else (s1, e)
  }

  /** A node and the number of nodes in its subtree. */
  datatype Item = Item(node: Node, size: nat)

  /** The nodes in pre-order. */
  function Preorder(n: Node): (items: seq<Item>)
    ensures items != [] && items[0] == Item(n, |items|)
    decreases n, 1
  {
    var below := PreorderAll(n.children);
    [Item(n, 1 + |below|)] + below
  }

  function PreorderAll(ns: seq<Node>): seq<Item>
    decreases ns, 0
  {
    if ns == [] then [] else Preorder(ns[0]) + PreorderAll(ns[1..])
  }

  /** A fold over that list which jumps over skipped subtrees and ends at the first stop or error. */
  function Fold<S>(f: Callback<S>, s: S, items: seq<Item>): (S, End)
    decreases |items|
  {
    if items == [] then (s, Done)
    else
      var (s1, v) := f(s, items[0].node);
      match v
      case Go => Fold(f, s1, items[1..])
      case Skip =>
        if 1 <= items[0].size <= |items| then Fold(f, s1, items[items[0].size..]) else (s1, Done)
      case Stop => (s1, Stopped)
      case Fail(code) => (s1, Broken(code))
  }

  lemma {:induction false} FoldNode<S>(f: Callback<S>, s: S, n: Node, rest: seq<Item>)
    ensures Fold(f, s, Preorder(n) + rest) ==
      (var r := Traverse(f, s, n); if r.1.Done? then Fold(f, r.0, rest) else r)
    decreases n, 1
  {
    var items := Preorder(n) + rest;
    assert items[0] == Preorder(n)[0];
    assert items[|Preorder(n)|..] == rest;
    assert items[1..] == PreorderAll(n.children) + rest;
    FoldNodes(f, f(s, n).0, n.children, rest);
  }

  lemma {:induction false} FoldNodes<S>(f: Callback<S>, s: S, ns: seq<Node>, rest: seq<Item>)
    ensures Fold(f, s, PreorderAll(ns) + rest) ==
      (var r := TraverseAll(f, s, ns); if r.1.Done? then Fold(f, r.0, rest) else r)
    decreases ns, 0
  {
    if ns == [] {
      assert PreorderAll(ns) + rest == rest;
    } else {
      Assoc(Preorder(ns[0]), PreorderAll(ns[1..]), rest);
      FoldNode(f, s, ns[0], PreorderAll(ns[1..]) + rest);
      FoldNodes(f, Traverse(f, s, ns[0]).0, ns[1..], rest);
    }
  }

  /** The traversal is the fold over the pre-order list, for every callback, state and tree. */
  lemma {:induction false} TraverseIsFold<S>(f: Callback<S>, s: S, n: Node)
    ensures Traverse(f, s, n) == Fold(f, s, Preorder(n))
  {
    FoldNode(f, s, n, []);
    assert Preorder(n) + [] == Preorder(n);
    var r := Traverse(f, s, n);
    assert r == (r.0, r.1);
  }

  // ---- FindNode and FindAttr ----

  /** The first item with the tag. */
  function FirstWith(items: seq<Item>, tag: Atom): Option<Node>
    decreases |items|
  {
    if items == [] then None
    else if items[0].node.tag == tag then Some(items[0].node)
    else FirstWith(items[1..], tag)
  }

  lemma {:induction false} FirstWithConcat(a: seq<Item>, b: seq<Item>, tag: Atom)
    ensures FirstWith(a + b, tag) == if FirstWith(a, tag).Some? then FirstWith(a, tag) else FirstWith(b, tag)
    decreases |a|
  {
    if a == [] {
      assert a + b == b;
    } else {
      assert (a + b)[1..] == a[1..] + b;
      FirstWithConcat(a[1..], b, tag);
    }
  }

  lemma {:induction false} PreorderAllSnoc(ns: seq<Node>, n: Node)
    ensures PreorderAll(ns + [n]) == PreorderAll(ns) + Preorder(n)
    decreases |ns|
  {
    if ns == [] {
      assert ns + [n] == [n] && [n][1..] == [] && PreorderAll([]) == [];
      assert Preorder(n) + [] == Preorder(n) && [] + Preorder(n) == Preorder(n);
    } else {
      assert (ns + [n])[1..] == ns[1..] + [n];
      PreorderAllSnoc(ns[1..], n);
      Assoc(Preorder(ns[0]), PreorderAll(ns[1..]), Preorder(n));
    }
  }

  /** That is the one no match comes before. */
  lemma {:induction false} FirstWithExactly(items: seq<Item>, tag: Atom, i: nat)
    requires i < |items| && items[i].node.tag == tag && forall j :: 0 <= j < i ==> items[j].node.tag != tag
    ensures FirstWith(items, tag) == Some(items[i].node)
    decreases |items|
  {
    if i > 0 {
      assert items[1..][i - 1] == items[i];
      FirstWithExactly(items[1..], tag, i - 1);
    }
  }

  /** `FindNode` returns the first match in pre-order. */
  method FindNode(n: Node, tag: Atom) returns (r: Option<Node>)
    ensures r == FirstWith(Preorder(n), tag)
    decreases n
  {
    assert Preorder(n)[1..] == PreorderAll(n.children);
    if n.tag == tag {
      return Some(n);
    }
    for i := 0 to |n.children|
      invariant FirstWith(PreorderAll(n.children[..i]), tag).None?
    {
      r := FindNode(n.children[i], tag);
      assert n.children[..i + 1] == n.children[..i] + [n.children[i]];
      PreorderAllSnoc(n.children[..i], n.children[i]);
      FirstWithConcat(PreorderAll(n.children[..i]), Preorder(n.children[i]), tag);
      if r.Some? {
        var rest := n.children[i + 1..];
        assert n.children == n.children[..i + 1] + rest;
        PreorderSplit(n.children[..i + 1], rest);
        FirstWithConcat(PreorderAll(n.children[..i + 1]), PreorderAll(rest), tag);
        return;
      }
    }
    assert n.children[..|n.children|] == n.children;
    r := None;
  }

  lemma {:induction false} PreorderSplit(a: seq<Node>, b: seq<Node>)
    ensures PreorderAll(a + b) == PreorderAll(a) + PreorderAll(b)
    decreases |a|
  {
    if a == [] {
      assert a + b == b;
    } else {
      assert (a + b)[1..] == a[1..] + b;
      PreorderSplit(a[1..], b);
      Assoc(Preorder(a[0]), PreorderAll(a[1..]), PreorderAll(b));
    }
  }

  /** An attribute without a namespace and with the key, ignoring case. */
  predicate Matches(a: Attr, key: string) { a.namespace == "" && ToLower(a.key) == ToLower(key) }

  /** `FindAttr` returns the first such attribute. */
  method FindAttr(attrs: seq<Attr>, key: string) returns (r: Option<Attr>)
    ensures r == AttrOf(attrs, key)
  {
    for i := 0 to |attrs|
      invariant AttrOf(attrs, key) == AttrOf(attrs[i..], key)
    {
      assert attrs[i..][0] == attrs[i] && attrs[i..][1..] == attrs[i + 1..];
      if Matches(attrs[i], key) {
        return Some(attrs[i]);
      }
    }
    r := None;
  }

  function AttrOf(attrs: seq<Attr>, key: string): (r: Option<Attr>)
    ensures r.Some? <==> exists i :: 0 <= i < |attrs| && Matches(attrs[i], key)
    ensures r.Some? ==> r.value in attrs && Matches(r.value, key)
    decreases |attrs|
  {
    if attrs == [] then None
    else if Matches(attrs[0], key) then Some(attrs[0])
    else
      assert forall i :: 0 < i < |attrs| ==> attrs[i] == attrs[1..][i - 1];
      AttrOf(attrs[1..], key)
  }

  // ---- The script preloader ----

  predicate SkipElement(a: Atom) {
    match a
    case Base | LinkTag | Meta | Noscript | Style | Title => true
    case _ => false
  }

  predicate StopElement(a: Atom) {
    match a
    case Applet | Audio | Button | Embed | Iframe | Img => true
    case Input | Meter | ObjectTag | SelectTag | Textarea | Video => true
    case _ => false
  }

  /** What the callback of `preloadScripts.Run` returns for a node. */
  function VerdictOf(n: Node): Verdict {
    match n.kind
    case ElementNode =>
      if n.tag == Script || SkipElement(n.tag) then Skip else if StopElement(n.tag) then Stop else Go
    case TextNode => if Drop(GoSpace, n.data) != "" then Stop else Skip
    case DocumentNode => Go
    case ErrorNode | CommentNode | DoctypeNode => Skip
    case OtherNode(code) => Fail(code)
  }

  /** Renders something by itself: text that is not blank, or one of twelve elements. */
  predicate Renders(n: Node) {
    || (n.kind == TextNode && exists i :: 0 <= i < |n.data| && !IsSpace(n.data[i]))
    || (n.kind == ElementNode && n.tag in {Applet, Audio, Button, Embed, Iframe, Img, Input, Meter, ObjectTag,
                                           SelectTag, Textarea, Video})
  }

  /** May contain scripts and content: the document, and every element that has no rule of its own. */
  predicate Descends(n: Node) {
    n.kind == DocumentNode || (n.kind == ElementNode && n.tag.OtherAtom?)
  }

  lemma {:induction false} BlankExactly(s: string)
    ensures Drop(GoSpace, s) == "" <==> forall i :: 0 <= i < |s| ==> IsSpace(s[i])
  {
    if Drop(GoSpace, s) == "" {
      forall i | 0 <= i < |s| ensures IsSpace(s[i]) { DroppedIn(GoSpace, s, i); }
    }
    if forall i :: 0 <= i < |s| ==> IsSpace(s[i]) {
      DropStops(GoSpace, s, []);
      assert s + [] == s;
    }
  }

  /** The verdict says just that: fail on an unknown type, stop at what renders, go below what may
      contain more, and skip everything else. */
  lemma {:induction false} VerdictExact(n: Node)
    ensures VerdictOf(n) ==
      if n.kind.OtherNode? then Fail(n.kind.code) else if Renders(n) then Stop else if Descends(n) then Go else Skip
  {
    if n.kind == TextNode { BlankExactly(n.data); }
  }

  /** Has an attribute of that name, without namespace and ignoring the case of ASCII letters. */
  predicate HasAttr(n: Node, key: string) {
    exists i :: 0 <= i < |n.attrs| && n.attrs[i].namespace == "" && SameFold(n.attrs[i].key, key)
  }

  /** The preload of a blocking script with a resolvable src. */
  function ScriptPreload(resolve: string -> Option<string>, n: Node): Option<Preload> {
    if n.kind != ElementNode || n.tag != Script then None
    else if AttrOf(n.attrs, "async").Some? || AttrOf(n.attrs, "defer").Some? || AttrOf(n.attrs, "src").None? then None
    else
      var u := resolve(AttrOf(n.attrs, "src").value.val);
      if u.None? then None else Some(NewPreloadForURL(u.value, "script"))
  }

  lemma {:induction false} HasAttrExactly(n: Node, key: string)
    ensures AttrOf(n.attrs, key).Some? <==> HasAttr(n, key)
  {
    forall i | 0 <= i < |n.attrs|
      ensures Matches(n.attrs[i], key) <==> n.attrs[i].namespace == "" && SameFold(n.attrs[i].key, key)
    {
      FoldExactly(n.attrs[i].key, key);
    }
  }

  /** A script element is preloaded exactly when it has neither async nor defer and its first src
      attribute resolves. */
  lemma {:induction false} ScriptPreloadExact(resolve: string -> Option<string>, n: Node)
    ensures ScriptPreload(resolve, n).Some? <==>
      n.kind == ElementNode && n.tag == Script && !HasAttr(n, "async") && !HasAttr(n, "defer")
      && AttrOf(n.attrs, "src").Some? && resolve(AttrOf(n.attrs, "src").value.val).Some?
  {
    HasAttrExactly(n, "async");
    HasAttrExactly(n, "defer");
  }

  /** It asks for that URL as a script. */
  lemma {:induction false} ScriptPreloadIs(resolve: string -> Option<string>, n: Node)
    requires ScriptPreload(resolve, n).Some?
    ensures HasAttr(n, "src") && AttrOf(n.attrs, "src").Some? && resolve(AttrOf(n.attrs, "src").value.val).Some?
    ensures var u := resolve(AttrOf(n.attrs, "src").value.val).value;
      ScriptPreload(resolve, n).value == Preload(Link(u, map["rel" := "preload", "as" := "script"]), [NewResource(u)])
  {
    HasAttrExactly(n, "src");
    ScriptForURL(resolve(AttrOf(n.attrs, "src").value.val).value);
  }

  lemma {:induction false} ScriptForURL(u: string)
    ensures NewPreloadForURL(u, "script")
         == Preload(Link(u, map["rel" := "preload", "as" := "script"]), [NewResource(u)])
  {
    var dest := "script";
    assert Simple(dest);
    PreloadForURL(u, dest);
  }

  function AddScript(resolve: string -> Option<string>, ps: seq<Preload>, n: Node): seq<Preload> {
    if ScriptPreload(resolve, n).Some? then Added(ps, ScriptPreload(resolve, n).value) else ps
  }

  function ScriptCallback(resolve: string -> Option<string>): Callback<seq<Preload>> {
    (ps, n) => (AddScript(resolve, ps, n), VerdictOf(n))
  }

  /** The nodes that are not inside a skipped element, in pre-order. */
  function Reached(n: Node): seq<Node>
    decreases n, 1
  {
    [n] + if Descends(n) then ReachedAll(n.children) else []
  }

  function ReachedAll(ns: seq<Node>): seq<Node>
    decreases ns, 0
  {
    if ns == [] then [] else Reached(ns[0]) + ReachedAll(ns[1..])
  }

  /** Ends the scan: renders content, or has an unknown type. */
  predicate Ends(n: Node) { n.kind.OtherNode? || Renders(n) }

  function BeforeContent(ns: seq<Node>): seq<Node>
    decreases |ns|
  {
    if ns == [] || Ends(ns[0]) then [] else [ns[0]] + BeforeContent(ns[1..])
  }

  function EndOf(ns: seq<Node>): End
    decreases |ns|
  {
    if ns == [] then Done
    else if ns[0].kind.OtherNode? then Broken(ns[0].kind.code)
    else if Renders(ns[0]) then Stopped
    else EndOf(ns[1..])
  }

  function Scripts(resolve: string -> Option<string>, ns: seq<Node>): seq<Preload>
    decreases |ns|
  {
    if ns == [] then [] else ScriptOf(resolve, ns[0]) + Scripts(resolve, ns[1..])
  }

  function ScriptOf(resolve: string -> Option<string>, n: Node): seq<Preload> {
    var p := ScriptPreload(resolve, n);
    if p.Some? then [p.value] else []
  }

  lemma {:induction false} CutConcat(a: seq<Node>, b: seq<Node>)
    ensures EndOf(a + b) == if EndOf(a).Done? then EndOf(b) else EndOf(a)
    ensures BeforeContent(a + b) == BeforeContent(a) + if EndOf(a).Done? then BeforeContent(b) else []
    decreases |a|
  {
    if a == [] {
      assert a + b == b;
    } else {
      var c := a + b;
      assert c[0] == a[0] && c[1..] == a[1..] + b;
      CutConcat(a[1..], b);
      if !Ends(a[0]) {
        Assoc([a[0]], BeforeContent(a[1..]), if EndOf(a[1..]).Done? then BeforeContent(b) else []);
      } else {
        assert [] + [] == BeforeContent(a);
      }
    }
  }

  lemma {:induction false} ScriptsConcat(resolve: string -> Option<string>, a: seq<Node>, b: seq<Node>)
    ensures Scripts(resolve, a + b) == Scripts(resolve, a) + Scripts(resolve, b)
    decreases |a|
  {
    if a == [] {
      assert a + b == b;
    } else {
      assert (a + b)[1..] == a[1..] + b;
      ScriptsConcat(resolve, a[1..], b);
      Assoc(ScriptOf(resolve, a[0]), Scripts(resolve, a[1..]), Scripts(resolve, b));
    }
  }

  /** What scanning the nodes does to the preloads and how it ends. */
  function Scan(resolve: string -> Option<string>, ps: seq<Preload>, ns: seq<Node>): (seq<Preload>, End) {
    (AddedAll(ps, Scripts(resolve, BeforeContent(ns))), EndOf(ns))
  }

  lemma {:induction false} ScanConcat(resolve: string -> Option<string>, ps: seq<Preload>, a: seq<Node>, b: seq<Node>)
    ensures Scan(resolve, ps, a + b) ==
      (var r := Scan(resolve, ps, a); if r.1.Done? then Scan(resolve, r.0, b) else r)
  {
    CutConcat(a, b);
    if EndOf(a).Done? {
      ScriptsConcat(resolve, BeforeContent(a), BeforeContent(b));
      AddedAllConcat(ps, Scripts(resolve, BeforeContent(a)), Scripts(resolve, BeforeContent(b)));
    } else {
      assert BeforeContent(a) + [] == BeforeContent(a);
    }
  }

  lemma {:induction false} ScanOne(resolve: string -> Option<string>, ps: seq<Preload>, n: Node)
    ensures Scan(resolve, ps, [n]).0 == AddScript(resolve, ps, n)
    ensures Scan(resolve, ps, [n]).1 ==
      (match VerdictOf(n) case Go => Done case Skip => Done case Stop => Stopped case Fail(code) => Broken(code))
  {
    VerdictExact(n);
    assert [n][1..] == [];
    assert BeforeContent([]) == [];
    var p := ScriptPreload(resolve, n);
    ScriptsOne(resolve, n);
    if Ends(n) {
      assert BeforeContent([n]) == [] && p.None?;
    } else {
      assert BeforeContent([n]) == [n] && EndOf([n]) == EndOf([]) == Done;
      if p.Some? { AddedOne(ps, p.value); }
    }
  }

  lemma {:induction false} ScriptsOne(resolve: string -> Option<string>, n: Node)
    ensures Scripts(resolve, [n]) == ScriptOf(resolve, n) && Scripts(resolve, []) == []
  {
    assert [n][1..] == [];
    assert ScriptOf(resolve, n) + [] == ScriptOf(resolve, n);
  }

  lemma {:induction false} AddedOne(ps: seq<Preload>, p: Preload)
    ensures AddedAll(ps, [p]) == Added(ps, p)
  {
    assert [p][1..] == [];
    assert AddedAll(Added(ps, p), []) == Added(ps, p);
  }

  /** The preloader's traversal visits exactly the reached nodes up to the first rendering one. */
  lemma {:induction false} TraverseIsScan(resolve: string -> Option<string>, ps: seq<Preload>, n: Node)
    ensures Traverse(ScriptCallback(resolve), ps, n) == Scan(resolve, ps, Reached(n))
    decreases n, 1
  {
    ScanOne(resolve, ps, n);
    VerdictExact(n);
    if Descends(n) {
      TraverseAllIsScan(resolve, AddScript(resolve, ps, n), n.children);
      ScanConcat(resolve, ps, [n], ReachedAll(n.children));
    } else {
      assert [n] + [] == [n];
    }
  }

  lemma {:induction false} TraverseAllIsScan(resolve: string -> Option<string>, ps: seq<Preload>, ns: seq<Node>)
    ensures TraverseAll(ScriptCallback(resolve), ps, ns) == Scan(resolve, ps, ReachedAll(ns))
    decreases ns, 0
  {
    if ns != [] {
      TraverseIsScan(resolve, ps, ns[0]);
      ScanConcat(resolve, ps, Reached(ns[0]), ReachedAll(ns[1..]));
      TraverseAllIsScan(resolve, Traverse(ScriptCallback(resolve), ps, ns[0]).0, ns[1..]);
    }
  }

  /** `InsecurePreloadScripts` adds, in document order and without duplicates, exactly the blocking
      scripts with a resolvable src that come before the first rendering node and outside skipped
      elements; it returns an error only for an unknown node type met before that node. */
  method PreloadScripts(resp: Response, resolve: string -> Option<string>, root: Node) returns (err: Option<int>)
    modifies resp`preloads
    ensures resp.preloads == AddedAll(old(resp.preloads), Scripts(resolve, BeforeContent(Reached(root))))
    ensures err.Some? <==> EndOf(Reached(root)).Broken?
  {
    var e := TraverseScripts(resp, resolve, root);
    TraverseIsScan(resolve, old(resp.preloads), root);
    err := if e.Broken? then Some(e.code) else None;
  }

  /** `traverse` with the preloader's callback. */
  method TraverseScripts(resp: Response, resolve: string -> Option<string>, n: Node) returns (e: End)
    modifies resp`preloads
    ensures (resp.preloads, e) == Traverse(ScriptCallback(resolve), old(resp.preloads), n)
    decreases n
  {
    var v := VisitScript(resp, resolve, n);
    match v
    case Skip => return Done;
    case Stop => return Stopped;
    case Fail(code) => return Broken(code);
    case Go =>
      ghost var ps := resp.preloads;
      assert n.children[0..] == n.children;
      for i := 0 to |n.children|
        invariant TraverseAll(ScriptCallback(resolve), ps, n.children)
               == TraverseAll(ScriptCallback(resolve), resp.preloads, n.children[i..])
      {
        assert n.children[i..][0] == n.children[i] && n.children[i..][1..] == n.children[i + 1..];
        e := TraverseScripts(resp, resolve, n.children[i]);
        if !e.Done? {
          return;
        }
      }
      e := Done;
  }

  /** `strings.IndexFunc(s, isNotSpace) >= 0`. */
  method HasContent(s: string) returns (b: bool)
    ensures b <==> exists i :: 0 <= i < |s| && !IsSpace(s[i])
  {
    for i := 0 to |s|
      invariant forall j :: 0 <= j < i ==> IsSpace(s[j])
    {
      if !IsSpace(s[i]) {
        return true;
      }
    }
    b := false;
  }

  /** The callback. */
  method VisitScript(resp: Response, resolve: string -> Option<string>, n: Node) returns (v: Verdict)
    modifies resp`preloads
    ensures (resp.preloads, v) == ScriptCallback(resolve)(old(resp.preloads), n)
  {
    VerdictExact(n);
    match n.kind
    case ElementNode =>
      if n.tag == Script {
        HandleScript(resp, resolve, n);
        return Skip;
      }
      if SkipElement(n.tag) { return Skip; }
      if StopElement(n.tag) { return Stop; }
      return Go;
    case TextNode =>
      var content := HasContent(n.data);
      if content { return Stop; }
      return Skip;
    case DocumentNode => return Go;
    case ErrorNode => return Skip;
    case CommentNode => return Skip;
    case DoctypeNode => return Skip;
    case OtherNode(code) => return Fail(code);
  }

  method HandleScript(resp: Response, resolve: string -> Option<string>, n: Node)
    requires n.kind == ElementNode && n.tag == Script
    modifies resp`preloads
    ensures resp.preloads == AddScript(resolve, old(resp.preloads), n)
  {
    var a := FindAttr(n.attrs, "async");
    if a.Some? { return; }
    a := FindAttr(n.attrs, "defer");
    if a.Some? { return; }
    a := FindAttr(n.attrs, "src");
    if a.Some? && resolve(a.value.val).Some? {
      var _ := resp.AddPreload(NewPreloadForURL(resolve(a.value.val).value, "script"));
    }
  }
}
