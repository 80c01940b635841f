/** The certificate cache on disk, `certchain/certmanager/multicert_disk_cache.go`: any number of
    readers and writers, one file replacement or file read at a time, under a file lock. Every
    replacement may fail. */
module DiskCache {
  import opened Text
  import opened OcspClient

  /** PEM and DER encoding; parsing gives back what was written. */
  datatype Codec = Codec(pem: RawChain -> string, parsePem: string -> Option<RawChain>,
                         der: Response -> string, parseDer: string -> Option<Response>)

  ghost predicate Lossless(codec: Codec) {
    && (forall c :: codec.parsePem(codec.pem(c)) == Some(c))
    && (forall r :: codec.parseDer(codec.der(r)) == Some(r))
  }

  datatype Config = Config(latestCert: string, latestOcsp: string)

  type Files = map<string, string>

  function CertName(digest: string): string { digest + ".pem" }
  function OcspName(digest: string): string { digest + ".ocsp" }

  // ---- Writing ----

  /** The four replacements of a Write, in the order they are made. */
  datatype Stage = CertFile | CertLatest | OcspFile | OcspLatest | AllDone

  /** Which replacements a Write has made. */
  datatype Made = Made(certFile: bool, certLatest: bool, ocspFile: bool, ocspLatest: bool)
  const NOTHING := Made(false, false, false, false)
  const EVERYTHING := Made(true, true, true, true)

  datatype Entry = Entry(ac: AugChain, made: Made)

  function Replace(files: Files, really: bool, name: string, bytes: string): Files {
    if really then files[name := bytes] else files
  }

  /** The files after the replacements that a Write has made. */
  function Apply(codec: Codec, cfg: Config, files: Files, e: Entry): Files {
    var cert, ocsp := codec.pem(e.ac.chain), codec.der(e.ac.ocsp);
    var f1 := Replace(files, e.made.certFile, CertName(e.ac.chain.digest), cert);
    var f2 := Replace(f1, e.made.certLatest, cfg.latestCert, cert);
    var f3 := Replace(f2, e.made.ocspFile, OcspName(e.ac.chain.digest), ocsp);
    Replace(f3, e.made.ocspLatest, cfg.latestOcsp, ocsp)
  }

  /** The files after a history of completed Writes. */
  function FilesOf(codec: Codec, cfg: Config, history: seq<Entry>): Files
    decreases |history|
  {
    if history == [] then map[]
    else Apply(codec, cfg, FilesOf(codec, cfg, history[..|history| - 1]), history[|history| - 1])
  }

  // ---- Reading ----

  datatype Target = ByDigest(digest: string) | Latest

  function CertPath(cfg: Config, t: Target): string { if t.Latest? then cfg.latestCert else CertName(t.digest) }
  function OcspPath(cfg: Config, t: Target): string { if t.Latest? then cfg.latestOcsp else OcspName(t.digest) }

  function ReadCert(codec: Codec, cfg: Config, files: Files, t: Target): Option<RawChain> {
    if CertPath(cfg, t) in files then codec.parsePem(files[CertPath(cfg, t)]) else None
  }

  function ReadOcsp(codec: Codec, cfg: Config, files: Files, t: Target): Option<Response> {
    if OcspPath(cfg, t) in files then codec.parseDer(files[OcspPath(cfg, t)]) else None
  }

  /** Both parts or nothing. */
  function Combine(c: Option<RawChain>, r: Option<Response>): Option<AugChain> {
    if c.Some? && r.Some? then Some(AugChain(c.value, r.value)) else None
  }

  /** What an undisturbed Read or ReadLatest finds. */
  function Lookup(codec: Codec, cfg: Config, files: Files, t: Target): Option<AugChain> {
    Combine(ReadCert(codec, cfg, files, t), ReadOcsp(codec, cfg, files, t))
  }

  // ---- The machine ----

  datatype Op =
    | WaitWrite(ac: AugChain) | Writing(ac: AugChain, stage: Stage, made: Made)
    | WaitRead(target: Target) | Reading(target: Target) | HalfRead(target: Target, cert: Option<RawChain>)

  /** A finished read: what it asked for, what it returned, and how many Writes were complete. */
  datatype Answer = Answer(target: Target, result: Option<AugChain>, writes: nat)

  datatype State = State(files: Files, ops: map<nat, Op>, history: seq<Entry>, answers: seq<Answer>)

  datatype Step =
    | CallWrite(ac: AugChain) | LockWrite | ReplaceFile(ok: bool) | UnlockWrite
    | CallRead(target: Target) | LockRead | ReadCertFile | ReadOcspFile

  predicate Holds(op: Op) { op.Writing? || op.Reading? || op.HalfRead? }

  /** The lock is free of writers, respectively of everybody. */
  predicate NoWriter(s: State) { forall id :: id in s.ops ==> !s.ops[id].Writing? }
  predicate Unlocked(s: State) { forall id :: id in s.ops ==> !Holds(s.ops[id]) }

  /** The replacement due at a stage, if it succeeds. */
  function Mark(stage: Stage, made: Made): Made {
    match stage
    case CertFile => made.(certFile := true)
    case CertLatest => made.(certLatest := true)
    case OcspFile => made.(ocspFile := true)
    case OcspLatest => made.(ocspLatest := true)
    case AllDone => made
  }

  /** After a failed `digest` file its `latest` file is not attempted. */
  function After(stage: Stage, ok: bool): Stage {
    match stage
    case CertFile => if ok then CertLatest else OcspFile
    case CertLatest => OcspFile
    case OcspFile => if ok then OcspLatest else AllDone
    case OcspLatest => AllDone
    case AllDone => AllDone
  }

  function DoReplace(codec: Codec, cfg: Config, files: Files, stage: Stage, ac: AugChain): Files {
    match stage
    case CertFile => files[CertName(ac.chain.digest) := codec.pem(ac.chain)]
    case CertLatest => files[cfg.latestCert := codec.pem(ac.chain)]
    case OcspFile => files[OcspName(ac.chain.digest) := codec.der(ac.ocsp)]
    case OcspLatest => files[cfg.latestOcsp := codec.der(ac.ocsp)]
    case AllDone => files
  }

  /** One step of the call `id`; None when it is not enabled. */
  function Do(codec: Codec, cfg: Config, s: State, id: nat, step: Step): Option<State> {
    match step
    case CallWrite(ac) => if id in s.ops then None else Some(s.(ops := s.ops[id := WaitWrite(ac)]))
    case CallRead(t) => if id in s.ops then None else Some(s.(ops := s.ops[id := WaitRead(t)]))
    case LockWrite =>
      if id in s.ops && s.ops[id].WaitWrite? && Unlocked(s)
      then Some(s.(ops := s.ops[id := Writing(s.ops[id].ac, CertFile, NOTHING)])) else None
    case ReplaceFile(ok) =>
      if id in s.ops && s.ops[id].Writing? && s.ops[id].stage != AllDone then
        var op := s.ops[id];
        Some(s.(files := if ok then DoReplace(codec, cfg, s.files, op.stage, op.ac) else s.files,
                ops := s.ops[id :=
                  Writing(op.ac, After(op.stage, ok), if ok then Mark(op.stage, op.made) else op.made)]))
      else None
    case UnlockWrite =>
      if id in s.ops && s.ops[id].Writing? && s.ops[id].stage == AllDone
      then Some(s.(ops := s.ops - {id}, history := s.history + [Entry(s.ops[id].ac, s.ops[id].made)])) else None
    case LockRead =>
      if id in s.ops && s.ops[id].WaitRead? && NoWriter(s)
      then Some(s.(ops := s.ops[id := Reading(s.ops[id].target)])) else None
    case ReadCertFile =>
      if id in s.ops && s.ops[id].Reading? then
        var t := s.ops[id].target;
        Some(s.(ops := s.ops[id := HalfRead(t, ReadCert(codec, cfg, s.files, t))]))
      else None
    case ReadOcspFile =>
      if id in s.ops && s.ops[id].HalfRead? then
        var t := s.ops[id].target;
        var result := Combine(s.ops[id].cert, ReadOcsp(codec, cfg, s.files, t));
        Some(s.(ops := s.ops - {id}, answers := s.answers + [Answer(t, result, |s.history|)]))
      else None
  }

  /** A directory left behind by some earlier history of Writes. */
  function Init(codec: Codec, cfg: Config, history: seq<Entry>): State {
    State(FilesOf(codec, cfg, history), map[], history, [])
  }

  function Exec(codec: Codec, cfg: Config, s: State, run: seq<(nat, Step)>): Option<State>
    decreases |run|
  {
    if run == [] then Some(s)
    else
      var t := Do(codec, cfg, s, run[0].0, run[0].1);
      if t.None? then None else Exec(codec, cfg, t.value, run[1..])
  }

  // ---- Invariant ----

  /** Replacements are marked only when their stage has passed. */
  predicate StageOk(stage: Stage, made: Made) {
    && (stage == CertFile ==> made == NOTHING)
    && (stage == CertLatest ==> made == Made(true, false, false, false))
    && (stage == OcspFile ==> !made.ocspFile && !made.ocspLatest)
    && (stage == OcspLatest ==> made.ocspFile && !made.ocspLatest)
  }

  /** Excludes a writer from everybody else. */
  ghost predicate LockInv(s: State) {
    forall w, id :: w in s.ops && id in s.ops && w != id && s.ops[w].Writing? ==> !Holds(s.ops[id])
  }

  /** The files are those of the completed Writes, plus what the current writer has replaced. */
  ghost predicate FilesInv(codec: Codec, cfg: Config, s: State) {
    && (NoWriter(s) ==> s.files == FilesOf(codec, cfg, s.history))
    && forall w :: w in s.ops && s.ops[w].Writing? ==>
         StageOk(s.ops[w].stage, s.ops[w].made)
         && s.files == Apply(codec, cfg, FilesOf(codec, cfg, s.history), Entry(s.ops[w].ac, s.ops[w].made))
  }

  /** A half-done read saw the file as it still is. */
  ghost predicate HalfInv(codec: Codec, cfg: Config, s: State) {
    forall id :: id in s.ops && s.ops[id].HalfRead? ==>
      s.ops[id].cert == ReadCert(codec, cfg, s.files, s.ops[id].target)
  }

  ghost predicate AnswerOk(codec: Codec, cfg: Config, history: seq<Entry>, a: Answer) {
    a.writes <= |history| && a.result == Lookup(codec, cfg, FilesOf(codec, cfg, history[..a.writes]), a.target)
  }

  ghost predicate AnswersInv(codec: Codec, cfg: Config, s: State) {
    forall i :: 0 <= i < |s.answers| ==> AnswerOk(codec, cfg, s.history, s.answers[i])
  }

  ghost predicate Inv(codec: Codec, cfg: Config, s: State) {
    LockInv(s) && FilesInv(codec, cfg, s) && HalfInv(codec, cfg, s) && AnswersInv(codec, cfg, s)
  }

  lemma {:induction false} ReplaceIsApply(
      codec: Codec, cfg: Config, files: Files, ac: AugChain, stage: Stage, made: Made)
    requires StageOk(stage, made) && stage != AllDone
    ensures DoReplace(codec, cfg, Apply(codec, cfg, files, Entry(ac, made)), stage, ac)
         == Apply(codec, cfg, files, Entry(ac, Mark(stage, made)))
    ensures StageOk(After(stage, true), Mark(stage, made)) && StageOk(After(stage, false), made)
  {
  }

  lemma {:induction false} LockKept(codec: Codec, cfg: Config, s: State, id: nat, step: Step)
    requires LockInv(s) && Do(codec, cfg, s, id, step).Some?
    ensures LockInv(Do(codec, cfg, s, id, step).value)
  {
  }

  lemma {:induction false} FilesKept(codec: Codec, cfg: Config, s: State, id: nat, step: Step)
    requires LockInv(s) && FilesInv(codec, cfg, s) && Do(codec, cfg, s, id, step).Some?
    ensures FilesInv(codec, cfg, Do(codec, cfg, s, id, step).value)
  {
    var t := Do(codec, cfg, s, id, step).value;
    match step
    case ReplaceFile(ok) => ReplaceKept(codec, cfg, s, id, ok);
    case UnlockWrite => UnlockKept(codec, cfg, s, id);
    case LockWrite => LockWriteKept(codec, cfg, s, id);
    case _ =>
      assert forall w :: w in s.ops && s.ops[w].Writing? ==> w in t.ops && t.ops[w] == s.ops[w];
  }

  lemma {:induction false} UnlockKept(codec: Codec, cfg: Config, s: State, id: nat)
    requires LockInv(s) && FilesInv(codec, cfg, s) && Do(codec, cfg, s, id, UnlockWrite).Some?
    ensures FilesInv(codec, cfg, Do(codec, cfg, s, id, UnlockWrite).value)
  {
    var t := Do(codec, cfg, s, id, UnlockWrite).value;
    assert t.history[..|s.history|] == s.history;
    assert NoWriter(t);
  }

  lemma {:induction false} LockWriteKept(codec: Codec, cfg: Config, s: State, id: nat)
    requires FilesInv(codec, cfg, s) && Do(codec, cfg, s, id, LockWrite).Some?
    ensures FilesInv(codec, cfg, Do(codec, cfg, s, id, LockWrite).value)
  {
    var t := Do(codec, cfg, s, id, LockWrite).value;
    assert NoWriter(s);
    assert t.ops[id].Writing? && forall w :: w in t.ops && t.ops[w].Writing? ==> w == id;
  }

  lemma {:induction false} ReplaceKept(codec: Codec, cfg: Config, s: State, id: nat, ok: bool)
    requires LockInv(s) && FilesInv(codec, cfg, s) && Do(codec, cfg, s, id, ReplaceFile(ok)).Some?
    ensures FilesInv(codec, cfg, Do(codec, cfg, s, id, ReplaceFile(ok)).value)
  {
    var t := Do(codec, cfg, s, id, ReplaceFile(ok)).value;
    var op := s.ops[id];
    assert op.Writing? && t.ops[id].Writing?;
    ReplaceIsApply(codec, cfg, FilesOf(codec, cfg, s.history), op.ac, op.stage, op.made);
    assert forall w :: w in t.ops && t.ops[w].Writing? ==> w == id;
  }

  lemma {:induction false} HalfKept(codec: Codec, cfg: Config, s: State, id: nat, step: Step)
    requires LockInv(s) && HalfInv(codec, cfg, s) && Do(codec, cfg, s, id, step).Some?
    ensures HalfInv(codec, cfg, Do(codec, cfg, s, id, step).value)
  {
  }

  lemma {:induction false} AnswersKept(codec: Codec, cfg: Config, s: State, id: nat, step: Step)
    requires Inv(codec, cfg, s) && Do(codec, cfg, s, id, step).Some?
    ensures AnswersInv(codec, cfg, Do(codec, cfg, s, id, step).value)
  {
    var t := Do(codec, cfg, s, id, step).value;
    forall i | 0 <= i < |t.answers|
      ensures AnswerOk(codec, cfg, t.history, t.answers[i])
    {
      if i < |s.answers| {
        assert AnswerOk(codec, cfg, s.history, s.answers[i]);
        assert t.history[..t.answers[i].writes] == s.history[..t.answers[i].writes];
      } else {
        assert s.history[..|s.history|] == s.history;
        assert NoWriter(s) by { assert forall w :: w in s.ops && w != id ==> !s.ops[w].Writing?; }
      }
    }
  }

  lemma {:induction false} ExecKeeps(codec: Codec, cfg: Config, s: State, run: seq<(nat, Step)>)
    requires Inv(codec, cfg, s) && Exec(codec, cfg, s, run).Some?
    ensures Inv(codec, cfg, Exec(codec, cfg, s, run).value)
    decreases |run|
  {
    if run != [] {
      var (id, step) := run[0];
      LockKept(codec, cfg, s, id, step);
      FilesKept(codec, cfg, s, id, step);
      HalfKept(codec, cfg, s, id, step);
      AnswersKept(codec, cfg, s, id, step);
      ExecKeeps(codec, cfg, Do(codec, cfg, s, id, step).value, run[1..]);
    }
  }

  /** Atomicity: under every interleaving a read returns what the directory holds after exactly the
      Writes that were complete when it answered. */
  lemma {:induction false} ReadsAreAtomic(codec: Codec, cfg: Config, before: seq<Entry>, run: seq<(nat, Step)>, i: nat)
    requires Exec(codec, cfg, Init(codec, cfg, before), run).Some?
    requires i < |Exec(codec, cfg, Init(codec, cfg, before), run).value.answers|
    ensures var s := Exec(codec, cfg, Init(codec, cfg, before), run).value;
      var a := s.answers[i];
      a.writes <= |s.history| && a.result == Lookup(codec, cfg, FilesOf(codec, cfg, s.history[..a.writes]), a.target)
  {
    ExecKeeps(codec, cfg, Init(codec, cfg, before), run);
    var s := Exec(codec, cfg, Init(codec, cfg, before), run).value;
    assert AnswerOk(codec, cfg, s.history, s.answers[i]);
  }

  // ---- What a history of Writes leaves in the directory ----

  /** The file names of a digest do not clash with the `latest` files. */
  predicate Clear(cfg: Config, d: string) {
    CertName(d) != cfg.latestCert && CertName(d) != cfg.latestOcsp
    && OcspName(d) != cfg.latestCert && OcspName(d) != cfg.latestOcsp
  }

  lemma {:induction false} NamesApart(d: string, e: string)
    ensures CertName(d) == CertName(e) <==> d == e
    ensures OcspName(d) == OcspName(e) <==> d == e
    ensures CertName(d) != OcspName(e)
  {
    if CertName(d) == CertName(e) {
      assert |d| == |e|;
      assert d == CertName(d)[..|d|] && e == CertName(e)[..|e|];
    }
    if OcspName(d) == OcspName(e) {
      assert |d| == |e|;
      assert d == OcspName(d)[..|d|] && e == OcspName(e)[..|e|];
    }
    assert CertName(d)[|CertName(d)| - 1] == 'm' && OcspName(e)[|OcspName(e)| - 1] == 'p';
  }

  /** The chain of the last Write that replaced the certificate file of the target. */
  function LastCert(h: seq<Entry>, t: Target): Option<RawChain>
    decreases |h|
  {
    if h == [] then None
    else
      var e := h[|h| - 1];
      if WroteCert(e, t) then Some(e.ac.chain) else LastCert(h[..|h| - 1], t)
  }

  /** The response of the last Write that replaced the OCSP file of the target. */
  function LastOcsp(h: seq<Entry>, t: Target): Option<Response>
    decreases |h|
  {
    if h == [] then None
    else
      var e := h[|h| - 1];
      if WroteOcsp(e, t) then Some(e.ac.ocsp) else LastOcsp(h[..|h| - 1], t)
  }

  /** The names involved in looking up the target are kept apart by the configuration. */
  ghost predicate Unambiguous(cfg: Config, h: seq<Entry>, t: Target) {
    if t.ByDigest? then Clear(cfg, t.digest)
    else cfg.latestCert != cfg.latestOcsp && forall i :: 0 <= i < |h| ==> Clear(cfg, h[i].ac.chain.digest)
  }

  predicate WroteCert(e: Entry, t: Target) {
    if t.Latest? then e.made.certLatest else e.ac.chain.digest == t.digest && e.made.certFile
  }

  predicate WroteOcsp(e: Entry, t: Target) {
    if t.Latest? then e.made.ocspLatest else e.ac.chain.digest == t.digest && e.made.ocspFile
  }

  lemma {:induction false} ApplyReadCert(codec: Codec, cfg: Config, files: Files, e: Entry, t: Target)
    requires Lossless(codec) && Unambiguous(cfg, [e], t)
    ensures ReadCert(codec, cfg, Apply(codec, cfg, files, e), t)
         == if WroteCert(e, t) then Some(e.ac.chain) else ReadCert(codec, cfg, files, t)
  {
    assert [e][0] == e;
    if t.ByDigest? { NamesApart(t.digest, e.ac.chain.digest); }
    assert codec.parsePem(codec.pem(e.ac.chain)) == Some(e.ac.chain);
  }

  lemma {:induction false} ApplyReadOcsp(codec: Codec, cfg: Config, files: Files, e: Entry, t: Target)
    requires Lossless(codec) && Unambiguous(cfg, [e], t)
    ensures ReadOcsp(codec, cfg, Apply(codec, cfg, files, e), t)
         == if WroteOcsp(e, t) then Some(e.ac.ocsp) else ReadOcsp(codec, cfg, files, t)
  {
    assert [e][0] == e;
    if t.ByDigest? { NamesApart(e.ac.chain.digest, t.digest); }
    assert codec.parseDer(codec.der(e.ac.ocsp)) == Some(e.ac.ocsp);
  }

  lemma {:induction false} HistoryHolds(codec: Codec, cfg: Config, h: seq<Entry>, t: Target)
    requires Lossless(codec) && Unambiguous(cfg, h, t)
    ensures ReadCert(codec, cfg, FilesOf(codec, cfg, h), t) == LastCert(h, t)
    ensures ReadOcsp(codec, cfg, FilesOf(codec, cfg, h), t) == LastOcsp(h, t)
    decreases |h|
  {
    if h != [] {
      var n := |h| - 1;
      HistoryHolds(codec, cfg, h[..n], t);
      ApplyReadCert(codec, cfg, FilesOf(codec, cfg, h[..n]), h[n], t);
      ApplyReadOcsp(codec, cfg, FilesOf(codec, cfg, h[..n]), h[n], t);
    }
  }

  predicate Complete(e: Entry) { e.made == EVERYTHING }

  predicate Concerns(e: Entry, t: Target) { t.Latest? || e.ac.chain.digest == t.digest }

  /** The last Write that concerns the target. */
  function LastWrite(h: seq<Entry>, t: Target): Option<Entry>
    decreases |h|
  {
    if h == [] then None
    else if Concerns(h[|h| - 1], t) then Some(h[|h| - 1])
    else LastWrite(h[..|h| - 1], t)
  }

  /** What the configuration must guarantee for a target: a digest does not share a name with the
      `latest` files; these differ, and the certificate one has no OCSP file name. */
  ghost predicate NamesOk(cfg: Config, t: Target) {
    if t.ByDigest? then Clear(cfg, t.digest)
    else cfg.latestCert != cfg.latestOcsp && forall d :: OcspName(d) != cfg.latestCert
  }

  /** If the last Write for the target reported no error, a read returns exactly its pair, even
      when earlier Writes failed half way; if there was none, it returns nothing. */
  lemma {:induction false} LastWriteIsRead(codec: Codec, cfg: Config, h: seq<Entry>, t: Target)
    requires Lossless(codec) && NamesOk(cfg, t)
    requires LastWrite(h, t).Some? ==> Complete(LastWrite(h, t).value)
    ensures Lookup(codec, cfg, FilesOf(codec, cfg, h), t)
         == if LastWrite(h, t).Some? then Some(LastWrite(h, t).value.ac) else None
  {
    if t.ByDigest? {
      HistoryHolds(codec, cfg, h, t);
      LastParts(h, t);
    } else if h != [] {
      LatestAfter(codec, cfg, FilesOf(codec, cfg, h[..|h| - 1]), h[|h| - 1]);
    }
  }

  /** A complete Write leaves its own pair in the `latest` files, unless their names clash. */
  lemma {:induction false} LatestAfter(codec: Codec, cfg: Config, files: Files, e: Entry)
    requires Lossless(codec) && Complete(e)
    requires cfg.latestCert != cfg.latestOcsp && OcspName(e.ac.chain.digest) != cfg.latestCert
    ensures Lookup(codec, cfg, Apply(codec, cfg, files, e), Latest) == Some(e.ac)
  {
    assert codec.parsePem(codec.pem(e.ac.chain)) == Some(e.ac.chain);
    assert codec.parseDer(codec.der(e.ac.ocsp)) == Some(e.ac.ocsp);
  }

  /** A certificate file is not an OCSP file. */
  ghost predicate Distinguishable(codec: Codec) {
    && (forall r :: codec.parsePem(codec.der(r)).None?)
    && (forall c :: codec.parseDer(codec.pem(c)).None?)
  }

  /** A read returns the pair of the last complete Write. */
  ghost predicate ReadsBack(codec: Codec, cfg: Config, h: seq<Entry>, t: Target) {
    LastWrite(h, t).Some? && Complete(LastWrite(h, t).value) ==>
      Lookup(codec, cfg, FilesOf(codec, cfg, h), t) == Some(LastWrite(h, t).value.ac)
  }

  /** That condition on the names is exact: without it some complete Write is not read back. */
  lemma {:induction false} NamesExact(codec: Codec, cfg: Config, t: Target)
    requires Lossless(codec) && Distinguishable(codec)
    ensures (forall h :: ReadsBack(codec, cfg, h, t)) <==> NamesOk(cfg, t)
  {
    if NamesOk(cfg, t) {
      forall h ensures ReadsBack(codec, cfg, h, t) {
        if LastWrite(h, t).Some? && Complete(LastWrite(h, t).value) { LastWriteIsRead(codec, cfg, h, t); }
      }
    } else if t.ByDigest? {
      DigestClash(codec, cfg, t.digest);
    } else if cfg.latestCert == cfg.latestOcsp {
      LatestClash(codec, cfg, "");
    } else {
      var d :| OcspName(d) == cfg.latestCert;
      LatestClash(codec, cfg, d);
    }
  }

  function Sample(digest: string, raw: nat): Entry {
    Entry(AugChain(RawChain(digest, 0, "", 0), Response(0, Good, 0, 0, raw)), EVERYTHING)
  }

  /** A later Write of another digest overwrites a file of this one. */
  lemma {:induction false} DigestClash(codec: Codec, cfg: Config, d: string)
    requires Lossless(codec) && Distinguishable(codec) && !Clear(cfg, d)
    ensures exists h :: !ReadsBack(codec, cfg, h, ByDigest(d))
  {
    var a, b := Sample(d, 0), Sample(d + "x", 1);
    var h := [a, b];
    assert h[..1] == [a] && [a][..0] == [] && d + "x" != d;
    assert LastWrite([a], ByDigest(d)) == Some(a);
    assert LastWrite(h, ByDigest(d)) == Some(a);
    Overwritten(codec, cfg, FilesOf(codec, cfg, [a]), b, d, a.ac);
    assert !ReadsBack(codec, cfg, h, ByDigest(d));
  }

  lemma {:induction false} Overwritten(codec: Codec, cfg: Config, files: Files, b: Entry, d: string, ac: AugChain)
    requires Lossless(codec) && Distinguishable(codec) && !Clear(cfg, d) && Complete(b)
    requires b.ac.chain.digest != d && b.ac.chain != ac.chain && b.ac.ocsp != ac.ocsp
    ensures Lookup(codec, cfg, Apply(codec, cfg, files, b), ByDigest(d)) != Some(ac)
  {
    NamesApart(d, b.ac.chain.digest);
    NamesApart(b.ac.chain.digest, d);
    var cert, ocsp := codec.pem(b.ac.chain), codec.der(b.ac.ocsp);
    assert codec.parsePem(cert) == Some(b.ac.chain) && codec.parseDer(ocsp) == Some(b.ac.ocsp);
    assert codec.parsePem(ocsp).None? && codec.parseDer(cert).None?;
  }

  /** The Write overwrites its own `latest` certificate. */
  lemma {:induction false} LatestClash(codec: Codec, cfg: Config, d: string)
    requires Lossless(codec) && Distinguishable(codec)
    requires cfg.latestCert == cfg.latestOcsp || OcspName(d) == cfg.latestCert
    ensures exists h :: !ReadsBack(codec, cfg, h, Latest)
  {
    var a := Sample(d, 0);
    var h := [a];
    assert h[..0] == [] && LastWrite(h, Latest) == Some(a);
    var ocsp := codec.der(a.ac.ocsp);
    assert codec.parsePem(ocsp).None?;
    assert !ReadsBack(codec, cfg, h, Latest);
  }

  /** With the names the server uses, only the digest "latest" is a problem. */
  lemma {:induction false} ServerNames(d: string)
    ensures var cfg := Config.Config("latest.pem", "latest.ocsp");
      NamesOk(cfg, Latest) && (NamesOk(cfg, ByDigest(d)) <==> d != "latest")
  {
    var name := "latest";
    assert CertName(name) == "latest.pem" && OcspName(name) == "latest.ocsp";
    NamesApart(d, name);
    NamesApart(name, d);
    forall e ensures OcspName(e) != "latest.pem" { NamesApart(name, e); }
  }

  lemma {:induction false} LastParts(h: seq<Entry>, t: Target)
    requires LastWrite(h, t).Some? ==> Complete(LastWrite(h, t).value)
    ensures Combine(LastCert(h, t), LastOcsp(h, t))
         == if LastWrite(h, t).Some? then Some(LastWrite(h, t).value.ac) else None
    decreases |h|
  {
    if h != [] && !Concerns(h[|h| - 1], t) { LastParts(h[..|h| - 1], t); }
  }

  /** A Write is read back exactly when each of its halves was replaced or was there already, as
      it is when only the response of a chain is renewed. */
  lemma {:induction false} ReadBackExactly(codec: Codec, cfg: Config, h: seq<Entry>, e: Entry, t: Target)
    requires Lossless(codec) && Unambiguous(cfg, h + [e], t)
    ensures Lookup(codec, cfg, FilesOf(codec, cfg, h + [e]), t) == Some(e.ac) <==>
      (WroteCert(e, t) || LastCert(h, t) == Some(e.ac.chain)) && (WroteOcsp(e, t) || LastOcsp(h, t) == Some(e.ac.ocsp))
  {
    HistoryHolds(codec, cfg, h + [e], t);
    assert (h + [e])[..|h|] == h;
  }

  /** Linearizability: in every run, a read whose last relevant Write succeeded returns that
      Write's pair; no reader sees the certificate of one Write with the response of another. */
  lemma {:induction false} ReadsLastCompletedWrite(
      codec: Codec, cfg: Config, before: seq<Entry>, run: seq<(nat, Step)>, i: nat)
    requires Lossless(codec) && Exec(codec, cfg, Init(codec, cfg, before), run).Some?
    requires var s := Exec(codec, cfg, Init(codec, cfg, before), run).value;
      i < |s.answers| && s.answers[i].writes <= |s.history| &&
      var h, t := s.history[..s.answers[i].writes], s.answers[i].target;
      NamesOk(cfg, t) && (LastWrite(h, t).Some? ==> Complete(LastWrite(h, t).value))
    ensures var s := Exec(codec, cfg, Init(codec, cfg, before), run).value;
      var a := s.answers[i];
      var last := LastWrite(s.history[..a.writes], a.target);
      a.result == if last.Some? then Some(last.value.ac) else None
  {
    ReadsAreAtomic(codec, cfg, before, run, i);
    var s := Exec(codec, cfg, Init(codec, cfg, before), run).value;
    LastWriteIsRead(codec, cfg, s.history[..s.answers[i].writes], s.answers[i].target);
  }

  /** Without that condition the property fails: when replacing the OCSP files fails, the next
      ReadLatest pairs the new chain with the old response. */
  lemma {:induction false} FailedWriteMixes(codec: Codec, cfg: Config, a: AugChain, b: AugChain)
    requires Lossless(codec) && cfg.latestCert != cfg.latestOcsp
    requires Clear(cfg, a.chain.digest) && Clear(cfg, b.chain.digest)
    ensures var h := [Entry(a, EVERYTHING), Entry(b, Made(true, true, false, false))];
      Lookup(codec, cfg, FilesOf(codec, cfg, h), Latest) == Some(AugChain(b.chain, a.ocsp))
  {
    var h := [Entry(a, EVERYTHING), Entry(b, Made(true, true, false, false))];
    assert h[..1] == [Entry(a, EVERYTHING)];
    HistoryHolds(codec, cfg, h, Latest);
    assert LastOcsp(h[..1], Latest) == Some(a.ocsp);
  }

  // ---- The calls themselves ----

  /** What is left of a Write whose replacements succeed as `ok` says: the `latest` files are only
      attempted after the `digest` files. */
  function Replaced(ok: Made): Made {
    Made(ok.certFile, ok.certFile && ok.certLatest, ok.ocspFile, ok.ocspFile && ok.ocspLatest)
  }

  /** What a caller of a read may rely on, given the Writes so far: the pair of the last Write for
      the target if that was complete, and nothing if there was none. */
  ghost predicate Answers(codec: Codec, cfg: Config, h: seq<Entry>, t: Target, r: Option<AugChain>) {
    Lossless(codec) && NamesOk(cfg, t) && (LastWrite(h, t).Some? ==> Complete(LastWrite(h, t).value)) ==>
      r == if LastWrite(h, t).Some? then Some(LastWrite(h, t).value.ac) else None
  }

  /** `MultiCertDiskCache` while it holds the lock; `ok` says which replacements succeed. */
  class MultiCertDiskCache {
    const codec: Codec
    const cfg: Config
    var files: Files
    ghost var history: seq<Entry>

    ghost predicate Valid()
      reads this
    {
      files == FilesOf(codec, cfg, history)
    }

    constructor (codec: Codec, cfg: Config)
      ensures Valid() && this.codec == codec && this.cfg == cfg && history == []
    {
      this.codec, this.cfg, files, history := codec, cfg, map[], [];
    }

    /** `renameio.WriteFile`: replaces the file or leaves it alone. */
    method WriteFile(name: string, bytes: string, ok: bool)
      modifies this`files
      ensures files == Replace(old(files), ok, name, bytes)
    {
      if ok { files := files[name := bytes]; }
    }

    method WriteCert(ac: AugChain, ok: Made) returns (done: bool)
      modifies this`files
      ensures done == (ok.certFile && ok.certLatest)
      ensures files == Apply(codec, cfg, old(files), Entry(ac, Replaced(ok).(ocspFile := false, ocspLatest := false)))
    {
      WriteFile(CertName(ac.chain.digest), codec.pem(ac.chain), ok.certFile);
      if !ok.certFile { return false; }
      WriteFile(cfg.latestCert, codec.pem(ac.chain), ok.certLatest);
      done := ok.certLatest;
    }

    method WriteOcsp(ac: AugChain, ok: Made) returns (done: bool)
      modifies this`files
      ensures done == (ok.ocspFile && ok.ocspLatest)
      ensures files == Apply(codec, cfg, old(files), Entry(ac, Replaced(ok).(certFile := false, certLatest := false)))
    {
      WriteFile(OcspName(ac.chain.digest), codec.der(ac.ocsp), ok.ocspFile);
      if !ok.ocspFile { return false; }
      WriteFile(cfg.latestOcsp, codec.der(ac.ocsp), ok.ocspLatest);
      done := ok.ocspLatest;
    }

    /** Goes on to the OCSP files after a failure and reports success exactly when all four files
        were replaced. */
    method Write(ac: AugChain, ok: Made) returns (done: bool)
      requires Valid()
      modifies this
      ensures Valid() && history == old(history) + [Entry(ac, Replaced(ok))]
      ensures done <==> Complete(Entry(ac, Replaced(ok)))
    {
      var certDone := WriteCert(ac, ok);
      var ocspDone := WriteOcsp(ac, ok);
      done := certDone && ocspDone;
      history := history + [Entry(ac, Replaced(ok))];
      assert history[..|history| - 1] == old(history);
    }

    /** The empty digest is an error. */
    method Read(digest: string) returns (r: Option<AugChain>)
      requires Valid()
      ensures digest == "" ==> r.None?
      ensures digest != "" ==> Answers(codec, cfg, history, ByDigest(digest), r)
      ensures digest != "" ==> r == Lookup(codec, cfg, files, ByDigest(digest))
    {
      if digest == "" { return None; }
      r := ReadFiles(ByDigest(digest));
    }

    method ReadLatest() returns (r: Option<AugChain>)
      requires Valid()
      ensures Answers(codec, cfg, history, Latest, r) && r == Lookup(codec, cfg, files, Latest)
    {
      r := ReadFiles(Latest);
    }

    /** Both files or an error. */
    method ReadFiles(t: Target) returns (r: Option<AugChain>)
      requires Valid()
      ensures Answers(codec, cfg, history, t, r) && r == Lookup(codec, cfg, files, t)
    {
      var cert := ReadCert(codec, cfg, files, t);
      var ocsp := ReadOcsp(codec, cfg, files, t);
      r := Combine(cert, ocsp);
      if Lossless(codec) && NamesOk(cfg, t) && (LastWrite(history, t).Some? ==> Complete(LastWrite(history, t).value)) {
        LastWriteIsRead(codec, cfg, history, t);
      }
    }
  }

  /** The machine's stages lead to the same outcome: a writer that is done has made exactly the
      replacements of a call with these successes. */
  lemma {:induction false} StagesReplaced(ok: Made)
    ensures var (s1, m1) := NextStage(CertFile, NOTHING, ok);
      var (s2, m2) := NextStage(s1, m1, ok);
      var (s3, m3) := NextStage(s2, m2, ok);
      var (s4, m4) := NextStage(s3, m3, ok);
      s4 == AllDone && m4 == Replaced(ok)
  {
  }

  function NextStage(stage: Stage, made: Made, ok: Made): (Stage, Made) {
    var success := Succeeds(stage, ok);
    (After(stage, success), if success then Mark(stage, made) else made)
  }

  // ---- What the machine can do ----

  lemma {:induction false} ExecConcat(
      codec: Codec, cfg: Config, s: State, a: seq<(nat, Step)>, t: State, b: seq<(nat, Step)>)
    requires Exec(codec, cfg, s, a) == Some(t)
    ensures Exec(codec, cfg, s, a + b) == Exec(codec, cfg, t, b)
    decreases |a|
  {
    if a == [] {
      assert a + b == b;
    } else {
      assert (a + b)[0] == a[0] && (a + b)[1..] == a[1..] + b;
      ExecConcat(codec, cfg, Do(codec, cfg, s, a[0].0, a[0].1).value, a[1..], t, b);
    }
  }

  lemma {:induction false} ThenDo(
      codec: Codec, cfg: Config, s: State, run: seq<(nat, Step)>, t: State, id: nat, step: Step)
    returns (run': seq<(nat, Step)>, t': State)
    requires Exec(codec, cfg, s, run) == Some(t) && Do(codec, cfg, t, id, step).Some?
    ensures Exec(codec, cfg, s, run') == Some(t') && t' == Do(codec, cfg, t, id, step).value
  {
    var one := [(id, step)];
    run' := run + one;
    t' := Do(codec, cfg, t, id, step).value;
    ExecConcat(codec, cfg, s, run, t, one);
    assert one[1..] == [] && Exec(codec, cfg, t, one) == Exec(codec, cfg, t', []);
  }

  function Succeeds(stage: Stage, ok: Made): bool {
    match stage
    case CertFile => ok.certFile
    case CertLatest => ok.certLatest
    case OcspFile => ok.ocspFile
    case OcspLatest => ok.ocspLatest
    case AllDone => true
  }

  lemma {:induction false} ThenReplace(
      codec: Codec, cfg: Config, s: State, run: seq<(nat, Step)>, t: State, id: nat, ok: Made)
    returns (run': seq<(nat, Step)>, t': State)
    requires Exec(codec, cfg, s, run) == Some(t) && id in t.ops && t.ops[id].Writing?
    ensures Exec(codec, cfg, s, run') == Some(t') && t'.history == t.history && t'.answers == t.answers
    ensures var op := t.ops[id]; var (stage, made) := NextStage(op.stage, op.made, ok);
      t'.ops == t.ops[id := Writing(op.ac, stage, made)]
  {
    var op := t.ops[id];
    if op.stage == AllDone {
      run', t' := run, t;
      assert t.ops == t.ops[id := op];
    } else {
      run', t' := ThenDo(codec, cfg, s, run, t, id, ReplaceFile(Succeeds(op.stage, ok)));
    }
  }

  /** Whenever nobody holds the lock a Write can run to its end, with any of its replacements failing,
      and leaves the entry of the in-place Write in the history. */
  lemma {:induction false} WriteCanComplete(codec: Codec, cfg: Config, s: State, id: nat, ac: AugChain, ok: Made)
    returns (run: seq<(nat, Step)>, t: State)
    requires Unlocked(s) && id !in s.ops
    ensures Exec(codec, cfg, s, run) == Some(t)
    ensures t.history == s.history + [Entry(ac, Replaced(ok))] && t.ops == s.ops && t.answers == s.answers
  {
    run, t := [], s;
    run, t := ThenDo(codec, cfg, s, run, t, id, CallWrite(ac));
    run, t := ThenDo(codec, cfg, s, run, t, id, LockWrite);
    assert t.ops == s.ops[id := Writing(ac, CertFile, NOTHING)];
    run, t := ThenReplaceAll(codec, cfg, s, run, t, id, ok);
    run, t := ThenDo(codec, cfg, s, run, t, id, UnlockWrite);
    assert t.ops == s.ops;
  }

  lemma {:induction false} ThenReplaceAll(
      codec: Codec, cfg: Config, s: State, run: seq<(nat, Step)>, t: State, id: nat, ok: Made)
    returns (run': seq<(nat, Step)>, t': State)
    requires Exec(codec, cfg, s, run) == Some(t) && id in t.ops
    requires t.ops[id].Writing? && t.ops[id].stage == CertFile && t.ops[id].made == NOTHING
    ensures Exec(codec, cfg, s, run') == Some(t') && t'.history == t.history && t'.answers == t.answers
    ensures t'.ops == t.ops[id := Writing(t.ops[id].ac, AllDone, Replaced(ok))]
  {
    run', t' := ThenReplace(codec, cfg, s, run, t, id, ok);
    run', t' := ThenReplace(codec, cfg, s, run', t', id, ok);
    run', t' := ThenReplace(codec, cfg, s, run', t', id, ok);
    run', t' := ThenReplace(codec, cfg, s, run', t', id, ok);
    StagesReplaced(ok);
  }

  /** Whenever no Write holds the lock a read can run to its end and finds what is there. */
  lemma {:induction false} ReadCanComplete(codec: Codec, cfg: Config, s: State, id: nat, target: Target)
    returns (run: seq<(nat, Step)>, t: State)
    requires NoWriter(s) && id !in s.ops
    ensures Exec(codec, cfg, s, run) == Some(t) && t.files == s.files && t.history == s.history && t.ops == s.ops
    ensures t.answers == s.answers + [Answer(target, Lookup(codec, cfg, s.files, target), |s.history|)]
  {
    run, t := [], s;
    run, t := ThenDo(codec, cfg, s, run, t, id, CallRead(target));
    run, t := ThenDo(codec, cfg, s, run, t, id, LockRead);
    run, t := ThenDo(codec, cfg, s, run, t, id, ReadCertFile);
    run, t := ThenDo(codec, cfg, s, run, t, id, ReadOcspFile);
    assert t.ops == s.ops;
  }
}
