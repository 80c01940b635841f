/** What the small functions of the Link header code mean on plain strings. */
module LinkFacts {
  import opened Text
  import opened HttpLink
  import opened LinkRoundTrip

  // ---- Fields and relation types ----

  /** A maximal run of characters that are not white space. */
  predicate Run(s: string, i: int, j: int) {
    && 0 <= i < j <= |s|
    && (forall k :: i <= k < j ==> !IsSpace(s[k]))
    && (i == 0 || IsSpace(s[i - 1])) && (j == |s| || IsSpace(s[j]))
  }

  /** Leading white space, one word and what follows it. */
  lemma {:induction false} FirstField(s: string) returns (a: string, f: string, r: string)
    requires Fields(s) != []
    ensures s == a + (f + r) && Word(f) && (r == [] || IsSpace(r[0]))
    ensures (forall k :: 0 <= k < |a| ==> IsSpace(a[k])) && Fields(s) == [f] + Fields(r) && |r| < |s|
  {
    var t := Drop(GoSpace, s);
    a := s[..|s| - |t|];
    r := Drop(NonSpace, t);
    f := Before(t, r);
    SplitOff(GoSpace, s);
    SplitOff(NonSpace, t);
    forall k | 0 <= k < |a| ensures IsSpace(a[k]) { DroppedIn(GoSpace, s, k); }
    forall k | 0 <= k < |f| ensures !IsSpace(f[k]) { DroppedIn(NonSpace, t, k); }
    assert Drop(NonSpace, t) == Drop(NonSpace, t[1..]);
  }

  lemma {:induction false} SplitOff(k: CharClass, s: string)
    ensures s == s[..|s| - |Drop(k, s)|] + Drop(k, s)
    decreases |s|
  {
    var d := Drop(k, s);
    if s != [] && In(k, s[0]) {
      SplitOff(k, s[1..]);
      assert s == [s[0]] + s[1..];
      assert s[..|s| - |d|] == [s[0]] + s[1..][..|s| - 1 - |d|];
    } else {
      assert s[..0] + s == s;
    }
  }

  /** The run that starts in the word is the word. */
  lemma {:induction false} WordRun(a: string, f: string, r: string, i: int, j: int)
    requires (forall k :: 0 <= k < |a| ==> IsSpace(a[k])) && Word(f) && (r == [] || IsSpace(r[0]))
    requires i < |a| + |f|
    ensures Run(a + (f + r), i, j) <==> i == |a| && j == |a| + |f|
  {
    var s := a + (f + r);
    var n := |a| + |f|;
    assert forall k :: 0 <= k < |a| ==> s[k] == a[k] && IsSpace(s[k]);
    assert forall k :: |a| <= k < n ==> s[k] == f[k - |a|] && !IsSpace(s[k]);
    assert r != [] ==> s[n] == r[0];
    assert 0 <= i < |a| ==> IsSpace(s[i]);
    assert |a| < i ==> !IsSpace(s[i - 1]);
    assert |a| <= j < n ==> !IsSpace(s[j]);
  }

  /** The runs behind it are those of the rest. */
  lemma {:induction false} RestRun(x: string, r: string, i: int, j: int)
    requires i >= |x| && (r == [] || IsSpace(r[0]))
    ensures Run(x + r, i, j) <==> Run(r, i - |x|, j - |x|)
  {
    var s, n := x + r, |x|;
    assert forall k :: n <= k < |s| ==> s[k] == r[k - n];
    assert forall k :: 0 <= k < |r| ==> r[k] == s[k + n];
    if i == n {
      assert r != [] ==> IsSpace(s[i]) && IsSpace(r[0]);
    }
  }

  lemma {:induction false} AllSpaceNoRun(s: string, i: int, j: int)
    requires forall k :: 0 <= k < |s| ==> IsSpace(s[k])
    ensures !Run(s, i, j)
  {
    if 0 <= i < |s| { assert IsSpace(s[i]); }
  }

  /** Some run of the text is the word. */
  ghost predicate HasRun(s: string, w: string) { exists i, j :: Run(s, i, j) && s[i..j] == w }

  lemma {:induction false} SliceShift(x: string, r: string, i: int, j: int)
    requires 0 <= i <= j <= |r|
    ensures (x + r)[i + |x|..j + |x|] == r[i..j]
  {
  }

  lemma {:induction false} HasRunSplit(a: string, f: string, r: string, w: string)
    requires (forall k :: 0 <= k < |a| ==> IsSpace(a[k])) && Word(f) && (r == [] || IsSpace(r[0]))
    ensures HasRun(a + f + r, w) <==> w == f || HasRun(r, w)
  {
    var x := a + f;
    var s := x + r;
    assert s == a + (f + r) by { Assoc(a, f, r); }
    assert s[|a|..|x|] == f;
    WordRun(a, f, r, |a|, |x|);
    if HasRun(r, w) {
      var i, j :| Run(r, i, j) && r[i..j] == w;
      RestRun(x, r, i + |x|, j + |x|);
      SliceShift(x, r, i, j);
    }
    if HasRun(s, w) {
      var i, j :| Run(s, i, j) && s[i..j] == w;
      RunSplits(a, f, r, i, j);
    }
  }

  lemma {:induction false} RunSplits(a: string, f: string, r: string, i: int, j: int)
    requires (forall k :: 0 <= k < |a| ==> IsSpace(a[k])) && Word(f) && (r == [] || IsSpace(r[0]))
    requires Run(a + f + r, i, j)
    ensures var w := (a + f + r)[i..j]; w == f || HasRun(r, w)
  {
    var x := a + f;
    var s := x + r;
    if i < |x| {
      assert s == a + (f + r) by { Assoc(a, f, r); }
      WordRun(a, f, r, i, j);
      assert s[|a|..|x|] == f;
    } else {
      RestRun(x, r, i, j);
      SliceShift(x, r, i - |x|, j - |x|);
      assert r[i - |x|..j - |x|] == s[i..j];
    }
  }

  /** The fields are the maximal runs. */
  lemma {:induction false} FieldsAreRuns(s: string, w: string)
    ensures w in Fields(s) <==> HasRun(s, w)
    decreases |s|
  {
    if Fields(s) == [] {
      forall k | 0 <= k < |s| ensures IsSpace(s[k]) { DroppedIn(GoSpace, s, k); }
      forall i, j ensures !Run(s, i, j) { AllSpaceNoRun(s, i, j); }
    } else {
      var a, f, r := FirstField(s);
      FieldsAreRuns(r, w);
      HasRunSplit(a, f, r, w);
      Assoc(a, f, r);
    }
  }

  /** The link has this relation type among its own, ignoring case. */
  ghost predicate HasRel(l: Link, word: string) {
    "rel" in l.params &&
    exists i, j :: Run(l.params["rel"], i, j) && SameFold(l.params["rel"][i..j], word)
  }

  /** A preload link is one with the relation type "preload". */
  lemma {:induction false} IsPreloadExact(l: Link)
    ensures IsPreload(l) <==> HasRel(l, "preload")
  {
    if REL in l.params {
      var v := l.params[REL];
      PreloadLower();
      forall f ensures f in Fields(v) <==> HasRun(v, f) { FieldsAreRuns(v, f); }
      forall f: string ensures ToLower(f) == REL_PRELOAD <==> SameFold(f, REL_PRELOAD) {
        FoldExactly(f, REL_PRELOAD);
      }
    }
  }

  lemma {:induction false} PreloadLower()
    ensures ToLower(REL_PRELOAD) == REL_PRELOAD
  {
  }

  // ---- Normal values ----

  /** Values of `as` and `type` lose their upper-case letters, the empty `crossorigin` becomes
      anonymous, other values of it lose their upper-case letters, and a `rel` becomes the list of
      its words in lower case; nothing else is touched. */
  lemma {:induction false} NormalizeMeans(key: string, val: string)
    ensures key == "as" || key == "type" || (key == "crossorigin" && val != "") ==>
      SameFold(NormalizeValue(key, val), val)
      && forall i :: 0 <= i < |val| ==> !('A' <= NormalizeValue(key, val)[i] <= 'Z')
    ensures key == "crossorigin" && val == "" ==> NormalizeValue(key, val) == "anonymous"
    ensures key == "rel" ==> Fields(NormalizeValue(key, val)) == LowerAll(Fields(val))
    ensures key != "as" && key != "type" && key != "crossorigin" && key != "rel" ==> NormalizeValue(key, val) == val
  {
    if key == REL {
      var fs := LowerAll(Fields(val));
      forall i | 0 <= i < |fs| ensures Word(fs[i]) {
        FieldsWord(val, i);
        LowerWord(Fields(val)[i]);
      }
      FieldsJoin(fs);
      assert REL != AS && REL != TYPE && REL != CROSS_ORIGIN by {
        assert |REL| == 3 && |AS| == 2 && |TYPE| == 4 && |CROSS_ORIGIN| == 11;
      }
    } else {
      FoldExactly(ToLower(val), val);
      LowerIdempotent(val);
    }
  }

  // ---- Order and elision ----

  /** The parameters are ordered byte by byte, a prefix first. */
  lemma {:induction false} StrLessExactly(a: string, b: string)
    ensures StrLess(a, b) <==>
      exists n: nat :: n <= |a| && n < |b| && a[..n] == b[..n] && (n == |a| || a[n] < b[n])
    decreases |a|
  {
    if a == [] {
      assert b != [] ==> a[..0] == b[..0];
    } else if b != [] {
      if a[0] == b[0] {
        StrLessExactly(a[1..], b[1..]);
        if StrLess(a[1..], b[1..]) {
          var n: nat :| n <= |a[1..]| && n < |b[1..]| && a[1..][..n] == b[1..][..n]
            && (n == |a[1..]| || a[1..][n] < b[1..][n]);
          SamePrefix(a, b, n);
        }
        forall n: nat | n <= |a| && n < |b| && a[..n] == b[..n] && (n == |a| || a[n] < b[n])
          ensures StrLess(a[1..], b[1..])
        {
          assert n > 0;
          SamePrefix(a, b, n - 1);
        }
      } else {
        forall n: nat | 0 < n <= |a| && n < |b|
          ensures a[..n] != b[..n]
        {
          assert a[..n][0] == a[0] && b[..n][0] == b[0];
        }
        assert a[..0] == b[..0];
      }
    }
  }

  lemma {:induction false} SamePrefix(a: string, b: string, n: nat)
    requires a != [] && b != [] && a[0] == b[0] && n < |a| && n < |b|
    ensures a[1..][..n] == b[1..][..n] <==> a[..n + 1] == b[..n + 1]
  {
    assert a[..n + 1] == [a[0]] + a[1..][..n];
    assert b[..n + 1] == [b[0]] + b[1..][..n];
    ConsTail(a[0], a[1..][..n]);
    ConsTail(b[0], b[1..][..n]);
  }

  /** In the printed order `rel` comes first and the other names ascend. */
  lemma {:induction false} PrintedOrder(names: set<string>)
    ensures var keys := Canonical(names);
      && (forall k :: k in keys <==> k in names)
      && (forall i :: 0 <= i < |keys| && keys[i] == "rel" ==> i == 0)
      && (forall i, j :: 0 <= i < j < |keys| && keys[i] != "rel" ==> StrLess(keys[i], keys[j]))
  {
    var keys := Canonical(names);
    forall i | 0 < i < |keys| ensures keys[i] != REL { assert KeyLess(keys[0], keys[i]); }
  }

  /** Only the value of `crossorigin="anonymous"` is left out. */
  lemma {:induction false} ParamTextExactly(key: string, val: string)
    ensures ParamText(key, val) ==
      if key == "crossorigin" && val == "anonymous" then key else key + ("=" + ("\"" + (Escape(val) + "\"")))
  {
    assert key + "" == key;
  }

  // ---- Quoting ----

  /** The character that an escape sequence at the start of the text stands for, and its length. */
  function Decoded(s: string): (char, nat)
    requires s != []
  {
    if s[0] != '\\' || |s| < 2 then (s[0], 1)
    else match s[1]
      case 'a' => ('\U{07}', 2)
      case 'b' => ('\U{08}', 2)
      case 't' => ('\t', 2)
      case 'n' => ('\n', 2)
      case 'v' => ('\U{0b}', 2)
      case 'f' => ('\U{0c}', 2)
      case 'r' => ('\r', 2)
      case 'x' =>
        if |s| >= 4 && Hex(s[2]) < 8 && Hex(s[3]) < 16 then ((Hex(s[2]) * 16 + Hex(s[3])) as char, 4) else ('x', 2)
      case _ => (s[1], 2)
  }

  function Hex(c: char): nat {
    if '0' <= c <= '9' then c as int - '0' as int else if 'a' <= c <= 'f' then c as int - 'a' as int + 10 else 16
  }

  /** The inverse of quoting, as `strconv.Unquote` has it. */
  function Unescape(s: string): string
    decreases |s|
  {
    if s == [] then []
    else
      var (c, n) := Decoded(s);
      [c] + Unescape(s[if n <= |s| then n else |s|..])
  }

  lemma {:induction false} DecodesChar(c: char, rest: string)
    requires c as int < 128
    ensures Decoded(EscapeChar(c) + rest) == (c, |EscapeChar(c)|)
  {
    var e := EscapeChar(c);
    var s := e + rest;
    assert forall i :: 0 <= i < |e| ==> s[i] == e[i];
  }

  /** Quoting loses nothing: what is quoted can be read back, for all of ASCII. */
  lemma {:induction false} EscapeDecodes(v: string)
    requires Ascii(v)
    ensures Unescape(Escape(v)) == v
    decreases |v|
  {
    if v != [] {
      var e, rest := EscapeChar(v[0]), Escape(v[1..]);
      DecodesChar(v[0], rest);
      assert (e + rest)[|e|..] == rest;
      EscapeDecodes(v[1..]);
      assert v == [v[0]] + v[1..];
    }
  }

  /** Removing backslashes removes them all and nothing else. */
  lemma {:induction false} DropBackslashesExactly(a: string, c: char, b: string)
    ensures DropBackslashes(a + [c] + b) == DropBackslashes(a) + (if c == '\\' then [] else [c]) + DropBackslashes(b)
    ensures DropBackslashes([]) == []
  {
    DropConcat(a + [c], b);
    DropConcat(a, [c]);
    assert [c][1..] == [];
  }

  // ---- Characters ----

  /** The characters of a token, section 3.2.6 of RFC 7230. */
  lemma {:induction false} TokenExactly(c: char)
    ensures In(Token, c) <==>
      'a' <= c <= 'z' || 'A' <= c <= 'Z' || '0' <= c <= '9' || c == '!' || c == '#' || c == '$' || c == '%' || c == '&'
      || c == '\'' || c == '*' || c == '+' || c == '-' || c == '.' || c == '^' || c == '_' || c == '`' || c == '|'
      || c == '~'
  {
  }

  /** The two kinds of white space agree on ASCII but for the vertical tab. */
  lemma {:induction false} SpacesExactly(c: char)
    ensures In(ReSpace, c) <==> c in {' ', '\t', '\n', '\r', '\U{0c}'}
    ensures c < '\U{80}' ==> (In(GoSpace, c) <==> In(ReSpace, c) || c == '\U{0b}')
  {
  }
}
