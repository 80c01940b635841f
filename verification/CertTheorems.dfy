/** What holds in every reachable state of the certificate manager. */
module CertTheorems {
  import opened Text
  import opened OcspClient
  import opened CertProtocol

  lemma {:induction false} ExecKeeps(cfg: Config, s: State, steps: seq<Step>)
    requires Inv(cfg, s) && Exec(cfg, s, steps).Some?
    ensures Inv(cfg, Exec(cfg, s, steps).value)
    decreases |steps|
  {
    if steps != [] {
      StepKeeps(cfg, s, steps[0]);
      ExecKeeps(cfg, Do(cfg, s, steps[0]).value, steps[1..]);
    }
  }

  lemma {:induction false} ReachableInv(cfg: Config, s: State)
    requires Reachable(cfg, s)
    ensures Inv(cfg, s)
  {
    var steps :| Exec(cfg, INIT, steps) == Some(s);
    ExecKeeps(cfg, INIT, steps);
  }

  lemma {:induction false} ExecSnoc(cfg: Config, s: State, steps: seq<Step>, step: Step)
    requires Exec(cfg, s, steps).Some?
    ensures Exec(cfg, s, steps + [step]) == Do(cfg, Exec(cfg, s, steps).value, step)
    decreases |steps|
  {
    if steps == [] {
      assert steps + [step] == [step] && [step][1..] == [];
    } else {
      assert (steps + [step])[1..] == steps[1..] + [step];
      ExecSnoc(cfg, Do(cfg, s, steps[0]).value, steps[1..], step);
    }
  }

  lemma {:induction false} ReachableStep(cfg: Config, s: State, step: Step)
    requires Reachable(cfg, s) && Do(cfg, s, step).Some?
    ensures Reachable(cfg, Do(cfg, s, step).value)
  {
    var steps :| Exec(cfg, INIT, steps) == Some(s);
    ExecSnoc(cfg, INIT, steps, step);
  }

  lemma {:induction false} ReachableInit(cfg: Config)
    ensures Reachable(cfg, INIT)
  {
    assert Exec(cfg, INIT, []) == Some(INIT);
  }

  // ---- Pairing ----

  /** Pairing safety: whatever was sent, received, is held by the manager or is about to be written
      to the cache pairs a chain with a response that Fetch accepted for that same chain. */
  lemma {:induction false} PairingSafety(cfg: Config, s: State)
    requires Reachable(cfg, s)
    ensures forall i :: 0 <= i < |s.ch.sent| ==> Paired(cfg, s.ch.sent[i])
    ensures forall i :: 0 <= i < |s.ch.received| ==> Paired(cfg, s.ch.received[i])
    ensures s.man.data.Some? ==> Paired(cfg, s.man.data.value)
    ensures forall i :: 0 <= i < |s.man.writes| && s.man.writes[i].Some? ==> Paired(cfg, s.man.writes[i].value)
  {
    ReachableInv(cfg, s);
    assert forall i :: 0 <= i < |s.ch.received| ==> s.ch.received[i] == s.ch.sent[i];
  }

  /** What being paired means for a certificate that names its OCSP responder. */
  lemma {:induction false} PairedMeansVerified(cfg: Config, ac: AugChain)
    requires Paired(cfg, ac) && ac.chain.ocspServer != ""
    ensures exists t :: ValidFor(cfg.parse, ac.ocsp, t, ac.chain) && MeetsCriteria(ac.ocsp)
  {
    var t :| Accepts(cfg, ac.chain, ac.ocsp, t);
    assert ValidFor(cfg.parse, ac.ocsp, t, ac.chain);
  }

  /** The manager serves the newest value it received; nil can only come from a closed channel. */
  lemma {:induction false} ManagerServesLatest(cfg: Config, s: State)
    requires Reachable(cfg, s) && s.man.killer != NoKiller && !s.ch.closed
    ensures s.man.data.Some?
    ensures !s.man.pc.Got? ==> s.ch.received != [] && s.man.data == Some(s.ch.received[|s.ch.received| - 1])
  {
    ReachableInv(cfg, s);
    DataKept(cfg, s);
    HoldsNewest(s.man, s.ch);
  }

  lemma {:induction false} HoldsNewest(man: Manager, ch: Channel)
    requires ManagerInv(man, ch) && man.killer != NoKiller && man.data.Some?
    ensures !man.pc.Got? ==> ch.received != [] && man.data == Some(ch.received[|ch.received| - 1])
  {
  }

  /** Before the channel is closed the manager never gives up the value it has. */
  ghost predicate DataInv(s: State) {
    s.man.killer != NoKiller && !s.ch.closed ==> s.man.data.Some? && (s.man.pc.Got? ==> s.man.pc.value.Some?)
  }

  lemma {:induction false} DataStep(cfg: Config, s: State, step: Step)
    requires Inv(cfg, s) && DataInv(s) && Do(cfg, s, step).Some?
    ensures DataInv(Do(cfg, s, step).value)
  {
    var t := Do(cfg, s, step).value;
    match step
    case Aug(a) => AugKeepsData(cfg, s, a);
    case Fire(_) => assert t.man == s.man && t.ch == s.ch;
    case Stop(_) => assert t.man == s.man && (s.ch.closed ==> t.ch.closed);
    case Man(m) => ManKeepsData(s, m);
  }

  lemma {:induction false} AugKeepsData(cfg: Config, s: State, step: AugStep)
    requires ChannelInv(s.pc, s.killer, s.ch, s.stops.pc, s.crash) && DoAug(cfg, s, step).Some?
    ensures DoAug(cfg, s, step).value.man == s.man && DoAug(cfg, s, step).value.ch.closed == s.ch.closed
  {
  }

  lemma {:induction false} ManKeepsData(s: State, step: ManStep)
    requires ManagerInv(s.man, s.ch) && DataInv(s) && DoMan(s, step).Some?
    ensures DataInv(DoMan(s, step).value)
  {
  }

  lemma {:induction false} DataExec(cfg: Config, s: State, steps: seq<Step>)
    requires Inv(cfg, s) && DataInv(s) && Exec(cfg, s, steps).Some?
    ensures DataInv(Exec(cfg, s, steps).value)
    decreases |steps|
  {
    if steps != [] {
      StepKeeps(cfg, s, steps[0]);
      DataStep(cfg, s, steps[0]);
      DataExec(cfg, Do(cfg, s, steps[0]).value, steps[1..]);
    }
  }

  lemma {:induction false} DataKept(cfg: Config, s: State)
    requires Reachable(cfg, s)
    ensures DataInv(s)
  {
    var steps :| Exec(cfg, INIT, steps) == Some(s);
    DataExec(cfg, INIT, steps);
  }

  // ---- The channel ----

  /** Conservation: the received values are a prefix of the sent ones, in order, without loss or
      repetition, and at most one is under way. */
  lemma {:induction false} Conservation(cfg: Config, s: State)
    requires Reachable(cfg, s)
    ensures s.ch.received <= s.ch.sent && s.ch.sent == s.ch.received + s.ch.queue && |s.ch.queue| <= 1
  {
    ReachableInv(cfg, s);
  }

  /** The window of Augmentor.Start in which the channel exists and the killer does not. */
  predicate StopTooEarly(s: State, step: Step) {
    step == Stop(Proceed) && s.stops.pc == Locked && s.pc == MakeKiller
  }

  /** Manager.Stop before Manager.Start made its killer. */
  predicate KillTooEarly(s: State, step: Step) { step == Man(Kill) && s.man.killer == NoKiller }

  /** Two calls of Manager.Stop that both found the killer open. */
  predicate KillTwice(s: State, step: Step) { step == Man(CloseKiller) && s.man.killer == Killed }

  /** The nil that a closed channel gave is written to a cache on disk. */
  predicate WritesNil(s: State, step: Step) {
    step.Man? && step.m.CacheWrite? && step.m.locked && step.m.i < |s.man.writes| && s.man.writes[step.m.i].None?
  }

  /** A step crashes exactly in these four situations: there is no send on a closed channel, no
      second close of it, no second cancellation, no wait for a cancelled event. */
  lemma {:induction false} CrashExact(cfg: Config, s: State, step: Step)
    requires Reachable(cfg, s) && Do(cfg, s, step).Some?
    ensures Do(cfg, s, step).value.crash != NoCrash <==>
      StopTooEarly(s, step) || KillTooEarly(s, step) || KillTwice(s, step) || WritesNil(s, step)
  {
    ReachableInv(cfg, s);
    if step.Aug? { AugNeverCrashes(cfg, s, step.a); }
  }

  /** Nil reaches the cache only after a Stop has closed the channel. */
  lemma {:induction false} NilOnlyAfterStop(cfg: Config, s: State, i: nat)
    requires Reachable(cfg, s) && i < |s.man.writes| && s.man.writes[i].None?
    ensures s.ch.closed && s.killer == Killed
  {
    ReachableInv(cfg, s);
  }

  /** Each of the four happens. */
  lemma {:induction false} CrashExample(cfg: Config)
    ensures exists s :: Reachable(cfg, s) && s.crash == NilKiller
  {
    ReachableInit(cfg);
    var s := Go(cfg, INIT, Aug(StartMake));
    s := Go(cfg, s, Stop(Call));
    s := Go(cfg, s, Stop(Announce));
    s := Go(cfg, s, Stop(Lock));
    s := Go(cfg, s, Stop(Proceed));
  }

  lemma {:induction false} KillTooEarlyExample(cfg: Config)
    ensures exists s :: Reachable(cfg, s) && s.crash == NilManagerKiller
  {
    ReachableInit(cfg);
    var s := Go(cfg, INIT, Man(Kill));
  }

  lemma {:induction false} KillTwiceExample()
    ensures exists s :: Reachable(TestConfig(), s) && s.crash == KillerClosedTwice
  {
    var cfg := TestConfig();
    var s := ReceivedRun();
    s := Go(cfg, s, Man(Kill));
    s := Go(cfg, s, Man(Kill));
    s := Go(cfg, s, Man(CloseKiller));
    s := Go(cfg, s, Man(CloseKiller));
  }

  lemma {:induction false} WritesNilExample()
    ensures exists s :: Reachable(TestConfig(), s) && s.crash == NilWrite
  {
    var cfg := TestConfig();
    var s := ReceivedRun();
    s := Go(cfg, s, Man(Out));
    s := Go(cfg, s, Stop(Call));
    s := Go(cfg, s, Stop(Announce));
    s := Go(cfg, s, Stop(Lock));
    s := Go(cfg, s, Stop(Proceed));
    s := Go(cfg, s, Stop(Proceed));
    s := Go(cfg, s, Man(Receive));
    assert s.man.writes[1].None?;
    s := Go(cfg, s, Man(CacheWrite(1, true)));
  }

  /** Start makes at most three OCSP fetches, gives up exactly after the third, and makes one send,
      which blocks exactly when a Stop has taken the channel away. */
  lemma {:induction false} StartIsBounded(cfg: Config, s: State)
    requires Reachable(cfg, s)
    ensures s.tries <= 3 && (s.pc == OcspFailed ==> s.tries == 3) && (s.pc == RetryWait ==> s.tries < 3)
    ensures s.phase.Starting? ==> |s.ch.sent| <= 1 && s.ch.received == []
    ensures s.phase.Starting? && s.pc == Sending && s.crash == NoCrash ==>
      (Do(cfg, s, Aug(Send)).Some? <==> s.ch.out)
    ensures s.phase.Serving? ==> s.ch.sent != []
  {
    ReachableInv(cfg, s);
  }

  /** A Stop during the OCSP fetch of Start leaves Start in its send. */
  lemma {:induction false} StartCanBlock()
    ensures exists s ::
      (Reachable(TestConfig(), s) && s.phase.Starting? && s.pc == Sending && s.crash == NoCrash
       && Do(TestConfig(), s, Aug(Send)).None?)
  {
    var cfg := TestConfig();
    var s := FetchingRun();
    s := StopRun(cfg, s);
    s := Go(cfg, s, Aug(OcspOk(Dummy, 0)));
    s := Go(cfg, s, Aug(RLock));
  }

  /** A Stop from its call to its return. */
  lemma {:induction false} StopRun(cfg: Config, s: State) returns (t: State)
    requires Reachable(cfg, s) && s.crash == NoCrash && s.stops == Stops(NoStop, 0) && !ReaderHolds(s.pc)
    requires s.ch.out && !s.ch.closed && s.killer == Alive
    ensures Reachable(cfg, t) && t == s.(killer := Killed, ch := s.ch.(out := false, closed := true))
  {
    t := Go(cfg, s, Stop(Call));
    t := Go(cfg, t, Stop(Announce));
    t := Go(cfg, t, Stop(Lock));
    t := Go(cfg, t, Stop(Proceed));
    t := Go(cfg, t, Stop(Proceed));
    t := Go(cfg, t, Stop(Proceed));
  }

  /** The values among them that are not nil. */
  function Values(vs: seq<Option<AugChain>>): seq<AugChain>
    decreases |vs|
  {
    if vs == [] then []
    else Values(vs[..|vs| - 1]) + if vs[|vs| - 1].Some? then [vs[|vs| - 1].value] else []
  }

  lemma {:induction false} ValuesConcat(a: seq<Option<AugChain>>, b: seq<Option<AugChain>>)
    ensures Values(a + b) == Values(a) + Values(b)
    decreases |b|
  {
    if b == [] {
      assert a + b == a && Values(a) + [] == Values(a);
    } else {
      var n := |b| - 1;
      assert (a + b)[..|a| + n] == a + b[..n];
      ValuesConcat(a, b[..n]);
      Assoc(Values(a), Values(b[..n]), if b[n].Some? then [b[n].value] else []);
    }
  }

  /** Every received value is written to the cache by exactly one goroutine. */
  ghost predicate HandedOver(s: State) { Balanced(s.man.writes, s.man.written, s.ch.received) }

  ghost predicate Balanced(
      writes: seq<Option<AugChain>>, written: seq<Option<AugChain>>, received: seq<AugChain>) {
    multiset(Values(writes)) + multiset(Values(written)) == multiset(received)
  }

  lemma {:induction false} WriteBalances(
      writes: seq<Option<AugChain>>, written: seq<Option<AugChain>>, received: seq<AugChain>, i: nat)
    requires Balanced(writes, written, received) && i < |writes|
    ensures Balanced(writes[..i] + writes[i + 1..], written + [writes[i]], received)
  {
    var a, b, x := writes[..i], writes[i + 1..], [writes[i]];
    assert writes == a + x + b;
    ValuesConcat(a + x, b);
    ValuesConcat(a, x);
    ValuesConcat(a, b);
    ValuesConcat(written, x);
  }

  lemma {:induction false} ReceiveBalances(
      writes: seq<Option<AugChain>>, written: seq<Option<AugChain>>, received: seq<AugChain>, v: Option<AugChain>)
    requires Balanced(writes, written, received)
    ensures Balanced(writes + [v], written, if v.Some? then received + [v.value] else received)
  {
    ValuesConcat(writes, [v]);
    assert [v][..0] == [] && Values([]) == [];
    assert Values([v]) == Values([]) + if v.Some? then [v.value] else [];
  }

  function Taken(s: State): Option<AugChain> { if s.ch.queue != [] then Some(s.ch.queue[0]) else None }

  lemma {:induction false} ReceiveEffect(s: State)
    requires DoMan(s, Receive).Some?
    ensures var t := DoMan(s, Receive).value;
      t.man.writes == s.man.writes + [Taken(s)] && t.man.written == s.man.written
      && t.ch.received == if Taken(s).Some? then s.ch.received + [Taken(s).value] else s.ch.received
  {
  }

  lemma {:induction false} WriteEffect(s: State, i: nat, locked: bool)
    requires DoMan(s, CacheWrite(i, locked)).Some?
    ensures var t := DoMan(s, CacheWrite(i, locked)).value;
      i < |s.man.writes| && t.ch == s.ch
      && (t.man == s.man
          || (t.man.writes == s.man.writes[..i] + s.man.writes[i + 1..]
              && t.man.written == s.man.written + [s.man.writes[i]]))
  {
  }

  lemma {:induction false} OtherEffect(s: State, m: ManStep)
    requires DoMan(s, m).Some? && !m.Receive? && !m.CacheWrite?
    ensures var t := DoMan(s, m).value;
      t.man.writes == s.man.writes && t.man.written == s.man.written && t.ch == s.ch
  {
  }

  lemma {:induction false} ManHandsOver(s: State, m: ManStep)
    requires HandedOver(s) && DoMan(s, m).Some?
    ensures HandedOver(DoMan(s, m).value)
  {
    if m.Receive? {
      ReceiveEffect(s);
      ReceiveBalances(s.man.writes, s.man.written, s.ch.received, Taken(s));
    } else if m.CacheWrite? {
      WriteEffect(s, m.i, m.locked);
      WriteBalances(s.man.writes, s.man.written, s.ch.received, m.i);
    } else {
      OtherEffect(s, m);
    }
  }

  lemma {:induction false} HandedOverStep(cfg: Config, s: State, step: Step)
    requires HandedOver(s) && Do(cfg, s, step).Some?
    ensures HandedOver(Do(cfg, s, step).value)
  {
    var t := Do(cfg, s, step).value;
    match step
    case Aug(_) => assert t.man == s.man && t.ch.received == s.ch.received;
    case Fire(_) => assert t.man == s.man && t.ch == s.ch;
    case Stop(_) => assert t.man == s.man && t.ch.received == s.ch.received;
    case Man(m) => ManHandsOver(s, m);
  }

  lemma {:induction false} HandedOverExec(cfg: Config, s: State, steps: seq<Step>)
    requires HandedOver(s) && Exec(cfg, s, steps).Some?
    ensures HandedOver(Exec(cfg, s, steps).value)
    decreases |steps|
  {
    if steps != [] {
      HandedOverStep(cfg, s, steps[0]);
      HandedOverExec(cfg, Do(cfg, s, steps[0]).value, steps[1..]);
    }
  }

  /** Conservation towards the cache: each received value is written, or about to be, exactly once. */
  lemma {:induction false} CacheConservation(cfg: Config, s: State)
    requires Reachable(cfg, s)
    ensures multiset(Values(s.man.writes)) + multiset(Values(s.man.written)) == multiset(s.ch.received)
  {
    var steps :| Exec(cfg, INIT, steps) == Some(s);
    HandedOverExec(cfg, INIT, steps);
  }

  // ---- What must happen ----

  predicate Fetches(step: Step) { step.Aug? && (step.a.OcspOk? || step.a.OcspFail?) }

  /** The daemon is on its way to an OCSP fetch. */
  predicate MustFetch(pc: AugPc) { pc == CancelStale || pc == OcspFetch }

  lemma {:induction false} StillMustFetch(cfg: Config, s: State, step: Step)
    requires MustFetch(s.pc) && Do(cfg, s, step).Some? && !Fetches(step)
    ensures MustFetch(Do(cfg, s, step).value.pc)
  {
  }

  /** Whoever must fetch does so before the daemon waits for its next event. */
  lemma {:induction false} FetchBeforeSelect(cfg: Config, s: State, steps: seq<Step>)
    requires MustFetch(s.pc) && Exec(cfg, s, steps).Some? && !MustFetch(Exec(cfg, s, steps).value.pc)
    ensures exists j :: 0 <= j < |steps| && Fetches(steps[j])
    decreases |steps|
  {
    assert steps != [];
    if !Fetches(steps[0]) {
      StillMustFetch(cfg, s, steps[0]);
      FetchBeforeSelect(cfg, Do(cfg, s, steps[0]).value, steps[1..]);
      var j :| 0 <= j < |steps[1..]| && Fetches(steps[1..][j]);
      assert steps[j + 1] == steps[1..][j];
    }
  }

  /** A new certificate gets an OCSP response: after the fetch of a chain with another digest the
      daemon does not wait for events again before it has asked for a response, and the event of the
      old one is cancelled first. */
  lemma {:induction false} NewChainIsFetchedFor(cfg: Config, s: State, c: RawChain, steps: seq<Step>)
    requires Reachable(cfg, s) && s.pc == NextChain && Do(cfg, s, Aug(ChainOk(c))).Some?
    requires !HasDigest(s.pair.rawChain, c.digest)
    requires Exec(cfg, Do(cfg, s, Aug(ChainOk(c))).value, steps).Some?
    ensures var t := Exec(cfg, Do(cfg, s, Aug(ChainOk(c))).value, steps).value;
      t.pc == Select ==> exists j :: 0 <= j < |steps| && Fetches(steps[j])
    ensures Do(cfg, s, Aug(ChainOk(c))).value.pair.rawChain == Some(c)
    ensures Do(cfg, s, Aug(ChainOk(c))).value.pc == CancelStale
  {
    var s1 := Do(cfg, s, Aug(ChainOk(c))).value;
    var t := Exec(cfg, s1, steps).value;
    if t.pc == Select { FetchBeforeSelect(cfg, s1, steps); }
  }

  /** Nothing is cancelled or fetched for the digest it has already. */
  lemma {:induction false} SameChainIsKept(cfg: Config, s: State, c: RawChain)
    requires Reachable(cfg, s) && s.pc == NextChain && Do(cfg, s, Aug(ChainOk(c))).Some?
    requires HasDigest(s.pair.rawChain, c.digest)
    ensures var t := Do(cfg, s, Aug(ChainOk(c))).value; t.pc == Select && t.pair == s.pair && t.ev.or == s.ev.or
  {
  }

  /** An accepted response that has not been sent yet. */
  predicate MustSend(pc: AugPc) { pc == BeforeLock || pc == Sending }

  lemma {:induction false} StillMustSend(cfg: Config, s: State, step: Step)
    requires MustSend(s.pc) && Do(cfg, s, step).Some?
    requires s.pair.rawChain.Some? && s.pair.ocspResp.Some?
    ensures var t := Do(cfg, s, step).value;
      || (MustSend(t.pc) && t.pair == s.pair && t.ch.sent == s.ch.sent)
      || (step == Aug(Send) && t.ch.sent == s.ch.sent + [AugChain(s.pair.rawChain.value, s.pair.ocspResp.value)])
  {
  }

  lemma {:induction false} SentGrows(cfg: Config, s: State, steps: seq<Step>)
    requires Exec(cfg, s, steps).Some?
    ensures s.ch.sent <= Exec(cfg, s, steps).value.ch.sent
    decreases |steps|
  {
    if steps != [] {
      SentStep(cfg, s, steps[0]);
      SentGrows(cfg, Do(cfg, s, steps[0]).value, steps[1..]);
    }
  }

  lemma {:induction false} SentStep(cfg: Config, s: State, step: Step)
    requires Do(cfg, s, step).Some?
    ensures s.ch.sent <= Do(cfg, s, step).value.ch.sent
  {
  }

  lemma {:induction false} SendBeforeSelect(cfg: Config, s: State, steps: seq<Step>)
    requires MustSend(s.pc) && s.pair.rawChain.Some? && s.pair.ocspResp.Some?
    requires Exec(cfg, s, steps).Some? && !MustSend(Exec(cfg, s, steps).value.pc)
    ensures s.ch.sent + [AugChain(s.pair.rawChain.value, s.pair.ocspResp.value)] <= Exec(cfg, s, steps).value.ch.sent
    decreases |steps|
  {
    assert steps != [];
    var t := Do(cfg, s, steps[0]).value;
    StillMustSend(cfg, s, steps[0]);
    if MustSend(t.pc) && t.ch.sent == s.ch.sent {
      SendBeforeSelect(cfg, t, steps[1..]);
    } else {
      SentGrows(cfg, t, steps[1..]);
    }
  }

  /** Every accepted response is sent, with its chain, before the augmentor does anything else. */
  lemma {:induction false} AcceptedIsSent(cfg: Config, s: State, r: Response, now: Time, steps: seq<Step>)
    requires Reachable(cfg, s) && Do(cfg, s, Aug(OcspOk(r, now))).Some?
    requires Exec(cfg, Do(cfg, s, Aug(OcspOk(r, now))).value, steps).Some?
    ensures s.pair.rawChain.Some?
    ensures var t := Exec(cfg, Do(cfg, s, Aug(OcspOk(r, now))).value, steps).value;
      MustSend(t.pc) || s.ch.sent + [AugChain(s.pair.rawChain.value, r)] <= t.ch.sent
  {
    var s1 := Do(cfg, s, Aug(OcspOk(r, now))).value;
    var t := Exec(cfg, s1, steps).value;
    if !MustSend(t.pc) { SendBeforeSelect(cfg, s1, steps); }
  }

  /** The daemon leaves its loop only when it was killed, and so does the manager's. */
  lemma {:induction false} ExitOnlyWhenKilled(cfg: Config, s: State)
    requires Reachable(cfg, s)
    ensures s.pc == CancelChainEvent || s.pc == CancelOcspEvent || s.pc == Exited ==> s.killer == Killed
    ensures s.man.pc == ManExited ==> s.man.killer == Killed
  {
    ReachableInv(cfg, s);
  }

  /** And when it was, it can, with both of its events cancelled. */
  lemma {:induction false} KilledCanExit(cfg: Config, s: State)
    requires Reachable(cfg, s) && s.crash == NoCrash && s.pc == Select && s.killer == Killed
    ensures s.ev.rc < |s.ev.list| && s.ev.or < |s.ev.list|
    ensures exists t ::
      (Reachable(cfg, t) && t.pc == Exited && |t.ev.list| == |s.ev.list|
       && t.ev.list[s.ev.rc] == t.ev.list[s.ev.or] == Cancelled)
  {
    ReachableInv(cfg, s);
    WaitsForTwo(s.ev);
    var t := Go(cfg, s, Aug(KillSeen));
    t := Go(cfg, t, Aug(Cancel));
    t := Go(cfg, t, Aug(Cancel));
  }

  lemma {:induction false} WaitsForTwo(ev: Events)
    requires EventInv(Select, ev)
    ensures ev.rc < |ev.list| && ev.or < |ev.list| && ev.rc != ev.or && Live(ev.list[ev.rc]) && Live(ev.list[ev.or])
  {
    assert ev.rc in Held(Select, ev) && ev.or in Held(Select, ev);
  }

  // ---- Events ----

  /** Event linearity: an event is still to happen exactly when the augmentor holds it, so each was
      consumed or cancelled exactly once or is held; after the daemon exited nothing is left. */
  lemma {:induction false} EventLinearity(cfg: Config, s: State)
    requires Reachable(cfg, s)
    ensures forall id :: 0 <= id < |s.ev.list| ==> (Live(s.ev.list[id]) <==> id in Held(s.pc, s.ev))
    ensures s.pc == Select ==> Held(s.pc, s.ev) == {s.ev.rc, s.ev.or} && s.ev.rc != s.ev.or
    ensures s.pc == Exited ==> forall id :: 0 <= id < |s.ev.list| ==> !Live(s.ev.list[id])
  {
    ReachableInv(cfg, s);
  }

  /** An event that was consumed or cancelled stays so. */
  lemma {:induction false} RetiredForGood(cfg: Config, s: State, step: Step)
    requires Reachable(cfg, s) && Do(cfg, s, step).Some?
    ensures var t := Do(cfg, s, step).value;
      |s.ev.list| <= |t.ev.list|
      && forall id :: 0 <= id < |s.ev.list| && !Live(s.ev.list[id]) ==> t.ev.list[id] == s.ev.list[id]
  {
    ReachableInv(cfg, s);
    var t := Do(cfg, s, step).value;
    match step
    case Aug(a) => AugRetires(cfg, s, a);
    case Fire(_) =>
    case Stop(_) => assert t.ev == s.ev;
    case Man(_) => assert t.ev == s.ev;
  }

  lemma {:induction false} AugRetires(cfg: Config, s: State, step: AugStep)
    requires EventInv(s.pc, s.ev) && DoAug(cfg, s, step).Some?
    ensures var l, m := s.ev.list, DoAug(cfg, s, step).value.ev.list;
      |l| <= |m| && forall id :: 0 <= id < |l| && !Live(l[id]) ==> m[id] == l[id]
  {
  }

  // ---- The fields may disagree ----

  const TEST_CHAIN := RawChain("a", 1, "", 0)
  const REAL_CHAIN := RawChain("b", 2, "ocsp", 0)

  function TestConfig(): Config { Config(true, (raw, c) => None, (n, draw) => 0) }

  const FIRST := AugChain(TEST_CHAIN, Dummy)
  const TEST_PAIR := Pair(Some(TEST_CHAIN), Some(Dummy), Some(TEST_CHAIN))
  const RUNNING := Manager(CallOut, Alive, Some(FIRST), 0, [Some(FIRST)], [])

  lemma {:induction false} FetchingRun() returns (s: State)
    ensures Reachable(TestConfig(), s)
    ensures s == INIT.(pc := OcspFetch, killer := Alive, pair := Pair(Some(TEST_CHAIN), None, None),
                       ev := Events([Pending], 0, 0), ch := INIT.ch.(out := true))
  {
    ReachableInit(TestConfig());
    s := Go(TestConfig(), INIT, Aug(StartMake));
    s := Go(TestConfig(), s, Aug(StartKiller));
    s := Go(TestConfig(), s, Aug(ChainOk(TEST_CHAIN)));
  }

  /** Takes the read lock, sends and returns. */
  lemma {:induction false} SendRun(cfg: Config, s: State) returns (t: State)
    requires Reachable(cfg, s) && s.crash == NoCrash && s.pc == BeforeLock && s.stops == Stops(NoStop, 0)
    requires s.ch.out && !s.ch.closed && s.ch.queue == [] && s.pair.rawChain.Some? && s.pair.ocspResp.Some?
    ensures Reachable(cfg, t)
    ensures var ac := AugChain(s.pair.rawChain.value, s.pair.ocspResp.value);
      t == s.(pc := Select, phase := Serving, ch := s.ch.(queue := [ac], sent := s.ch.sent + [ac]))
  {
    t := Go(cfg, s, Aug(RLock));
    t := Go(cfg, t, Aug(Send));
    t := Go(cfg, t, Aug(RUnlock));
  }

  lemma {:induction false} StartedRun() returns (s: State)
    ensures Reachable(TestConfig(), s)
    ensures s == State(Select, Serving, 1, TEST_PAIR, Alive, Events([Pending, Pending], 0, 1),
      Channel(true, [FIRST], false, [FIRST], []), Stops(NoStop, 0), INIT.man, NoCrash)
  {
    s := FetchingRun();
    s := Go(TestConfig(), s, Aug(OcspOk(Dummy, 0)));
    s := SendRun(TestConfig(), s);
  }

  lemma {:induction false} ReceivedRun() returns (s: State)
    ensures Reachable(TestConfig(), s)
    ensures s == State(Select, Serving, 1, TEST_PAIR, Alive, Events([Pending, Pending], 0, 1),
      Channel(true, [], false, [FIRST], [FIRST]), Stops(NoStop, 0), RUNNING, NoCrash)
  {
    s := StartedRun();
    s := Go(TestConfig(), s, Man(Out));
    s := Go(TestConfig(), s, Man(Receive));
    s := Go(TestConfig(), s, Man(MakeManagerKiller));
  }

  /** The manager took the first value and a second one waits in the channel. */
  lemma {:induction false} RenewedRun() returns (s: State)
    ensures Reachable(TestConfig(), s)
    ensures s == State(Select, Serving, 1, TEST_PAIR, Alive, Events([Pending, Consumed, Pending], 0, 2),
      Channel(true, [FIRST], false, [FIRST, FIRST], [FIRST]), Stops(NoStop, 0), RUNNING, NoCrash)
  {
    s := ReceivedRun();
    s := Go(TestConfig(), s, Fire(1));
    s := Go(TestConfig(), s, Aug(OcspEvent));
    s := Go(TestConfig(), s, Aug(OcspOk(Dummy, 0)));
    s := SendRun(TestConfig(), s);
  }

  lemma {:induction false} Go(cfg: Config, s: State, step: Step) returns (t: State)
    requires Reachable(cfg, s) && Do(cfg, s, step).Some?
    ensures t == Do(cfg, s, step).value && Reachable(cfg, t)
  {
    ReachableStep(cfg, s, step);
    t := Do(cfg, s, step).value;
  }

  /** Pairing safety is not an invariant of the fields: a chain update followed by a failed fetch
      leaves the augmentor with a response that was never accepted for its chain. */
  lemma {:induction false} FieldsMayDisagree()
    ensures exists s ::
      (Reachable(TestConfig(), s) && s.pc == Select && s.pair.rawChain.Some? && s.pair.ocspResp.Some?
       && !Paired(TestConfig(), AugChain(s.pair.rawChain.value, s.pair.ocspResp.value)))
  {
    var s := UpdatedRun();
    s := Go(TestConfig(), s, Aug(Cancel));
    s := Go(TestConfig(), s, Aug(OcspFail));
    assert s.pair == TEST_PAIR.(rawChain := Some(REAL_CHAIN));
    assert !Paired(TestConfig(), AugChain(REAL_CHAIN, Dummy));
  }

  lemma {:induction false} UpdatedRun() returns (s: State)
    ensures Reachable(TestConfig(), s) && s.pc == CancelStale && s.phase == Serving && s.crash == NoCrash
    ensures s.pair == TEST_PAIR.(rawChain := Some(REAL_CHAIN))
    ensures s.ev.or < |s.ev.list| && s.ev.list[s.ev.or] != Cancelled
  {
    s := StartedRun();
    s := Go(TestConfig(), s, Fire(0));
    s := Go(TestConfig(), s, Aug(ChainEvent));
    s := Go(TestConfig(), s, Aug(ChainOk(REAL_CHAIN)));
  }

  /** Being accepted for a chain does not depend on the time any more once a response was accepted
      for some chain: the fields are paired exactly when the response is the dummy of a test
      certificate, or a real one for a certificate with a responder that passes the check of serial
      number and signature against the chain in the field. */
  lemma {:induction false} FieldsAgreeExactly(cfg: Config, s: State)
    requires Reachable(cfg, s) && s.pair.ocspResp.Some?
    ensures s.pair.rawChain.Some?
    ensures var c, r := s.pair.rawChain.value, s.pair.ocspResp.value;
      Paired(cfg, AugChain(c, r)) <==>
        if cfg.allowTestCert && c.ocspServer == "" then r.Dummy?
        else r.Response? && VerifyWithRawChain(cfg.parse, r, c) == []
  {
    ReachableInv(cfg, s);
    var p := s.pair;
    var t :| Accepts(cfg, p.okFor.value, p.ocspResp.value, t);
    assert Accepts(cfg, p.rawChain.value, p.ocspResp.value, t) ==>
      Paired(cfg, AugChain(p.rawChain.value, p.ocspResp.value));
  }

  /** No real response is acceptable for two chains with different digests. */
  ghost predicate Exclusive(cfg: Config) {
    forall c, d, r: Response, t, u ::
      r.Response? && Accepts(cfg, c, r, t) && Accepts(cfg, d, r, u) ==> c.digest == d.digest
  }

  predicate HasDigest(c: Option<RawChain>, d: string) { c.Some? && c.value.digest == d }

  /** The chain in the field has the digest of the chain the response was fetched for. */
  predicate SameDigest(p: Pair) { p.okFor.Some? && HasDigest(p.rawChain, p.okFor.value.digest) }

  /** With a real response this is a matter of digests, if a digest stands for one chain. */
  lemma {:induction false} DigestsDecide(cfg: Config, s: State)
    requires Reachable(cfg, s) && s.pair.ocspResp.Some? && s.pair.ocspResp.value.Response? && Exclusive(cfg)
    requires SameDigest(s.pair) ==> s.pair.rawChain == s.pair.okFor
    ensures s.pair.rawChain.Some?
    ensures Paired(cfg, AugChain(s.pair.rawChain.value, s.pair.ocspResp.value)) <==> SameDigest(s.pair)
  {
    ReachableInv(cfg, s);
    var p := s.pair;
    var t :| Accepts(cfg, p.okFor.value, p.ocspResp.value, t);
    if Paired(cfg, AugChain(p.rawChain.value, p.ocspResp.value)) {
      var u :| Accepts(cfg, p.rawChain.value, p.ocspResp.value, u);
    }
  }

  /** Matching fields part exactly at a fetch of a chain with another digest, and parted ones match
      again exactly at an accepted response or a fetch of the old digest. */
  lemma {:induction false} FieldsPartExactly(cfg: Config, s: State, step: Step)
    requires Reachable(cfg, s) && Do(cfg, s, step).Some? && s.pair.ocspResp.Some?
    ensures var t := Do(cfg, s, step).value;
      if SameDigest(s.pair) then
        !SameDigest(t.pair) <==> step.Aug? && step.a.ChainOk? && !HasDigest(s.pair.rawChain, step.a.chain.digest)
      else
        SameDigest(t.pair) <==>
          step.Aug? && (step.a.OcspOk? || (step.a.ChainOk? && HasDigest(s.pair.okFor, step.a.chain.digest)))
  {
    ReachableInv(cfg, s);
    if !step.Aug? { assert Do(cfg, s, step).value.pair == s.pair; }
  }

  /** The assumption that a digest stands for one chain is needed only when the field went to
      another digest and back: as long as no other digest came, it is the very same chain. */
  lemma {:induction false} SameChainKept(cfg: Config, s: State, step: Step)
    requires Reachable(cfg, s) && Do(cfg, s, step).Some? && s.pair.ocspResp.Some?
    requires s.pair.rawChain == s.pair.okFor
    ensures var t := Do(cfg, s, step).value;
      t.pair.rawChain == t.pair.okFor <==>
        !(step.Aug? && step.a.ChainOk? && !HasDigest(s.pair.rawChain, step.a.chain.digest))
  {
    ReachableInv(cfg, s);
  }

  // ---- Stop ----

  /** Some Stop has been called and no Stop holds the lock. */
  predicate StopWaits(s: State) { s.stops.pc == Announced || (s.stops.pc == NoStop && s.stops.waiting > 0) }

  /** The manager can still receive: it has the channel, or no announced Stop keeps it from getting
      it. */
  predicate CanTake(s: State) {
    s.man.pc == Receiving(true) || (s.stops.pc == NoStop && s.man.pc != ManExited && s.man.pc != Receiving(false))
  }

  /** A Stop waits for a send that cannot complete: the channel is gone, or full and the manager
      cannot receive from it. */
  predicate Stuck(s: State) {
    StopWaits(s) && s.pc == Sending && (!s.ch.out || (s.ch.queue != [] && !CanTake(s)))
  }

  lemma {:induction false} StuckStep(cfg: Config, s: State, step: Step)
    requires Reachable(cfg, s) && Stuck(s) && Do(cfg, s, step).Some?
    ensures Stuck(Do(cfg, s, step).value)
  {
    ReachableInv(cfg, s);
  }

  /** Then no Stop gets the lock any more, whatever happens. */
  lemma {:induction false} StuckForever(cfg: Config, s: State, steps: seq<Step>)
    requires Reachable(cfg, s) && Stuck(s) && Exec(cfg, s, steps).Some?
    ensures Stuck(Exec(cfg, s, steps).value)
    decreases |steps|
  {
    if steps != [] {
      StuckStep(cfg, s, steps[0]);
      ReachableStep(cfg, s, steps[0]);
      StuckForever(cfg, Do(cfg, s, steps[0]).value, steps[1..]);
    }
  }

  lemma {:induction false} Continue(cfg: Config, s: State, steps: seq<Step>, t: State, step: Step)
    returns (more: seq<Step>)
    requires Exec(cfg, s, steps) == Some(t) && Do(cfg, t, step).Some?
    ensures more == steps + [step] && Exec(cfg, s, more) == Do(cfg, t, step)
  {
    ExecSnoc(cfg, s, steps, step);
    more := steps + [step];
  }

  /** Runs the manager until it has taken the value in the channel. */
  lemma {:induction false} TakeRun(cfg: Config, s: State) returns (steps: seq<Step>)
    requires Inv(cfg, s) && s.crash == NoCrash && s.pc == Sending && s.ch.out && s.ch.queue != [] && CanTake(s)
    ensures Exec(cfg, s, steps).Some?
    ensures var t := Exec(cfg, s, steps).value;
      t.pc == Sending && t.ch.out && t.ch.queue == [] && t.crash == NoCrash && t.stops == s.stops
  {
    var t := s;
    steps := [];
    if t.man.pc.Got? {
      steps := Continue(cfg, s, steps, t, Man(Assign));
      t := Do(cfg, t, Man(Assign)).value;
    } else if t.man.pc == StartReceived {
      steps := Continue(cfg, s, steps, t, Man(MakeManagerKiller));
      t := Do(cfg, t, Man(MakeManagerKiller)).value;
    }
    if t.man.pc != Receiving(true) {
      steps := Continue(cfg, s, steps, t, Man(Out));
      t := Do(cfg, t, Man(Out)).value;
    }
    steps := Continue(cfg, s, steps, t, Man(Receive));
  }

  // ---- Who waits for whom ----

  /** The augmentor is done, or waits for the lock, for an event or for room in the channel. */
  predicate AugWaits(s: State) {
    match s.pc
    case Exited | ChainFailed | OcspFailed => true
    case Unstarted | BeforeLock => s.stops.pc != NoStop
    case RetryWait => s.ev.or < |s.ev.list| && s.ev.list[s.ev.or] == Pending
    case Select =>
      && s.killer != Killed
      && s.ev.rc < |s.ev.list| && s.ev.list[s.ev.rc] == Pending
      && s.ev.or < |s.ev.list| && s.ev.list[s.ev.or] == Pending
    case Sending => !s.ch.out || s.ch.queue != []
    case _ => false
  }

  /** A step of the augmentor that is enabled when it does not wait. */
  function AugNext(s: State): AugStep {
    match s.pc
    case Unstarted => StartMake
    case MakeKiller => StartKiller
    case FirstChain | NextChain => ChainFail
    case OcspFetch => OcspFail
    case RetryWait => AwaitRetry
    case BeforeLock => RLock
    case Sending => Send
    case Sent => RUnlock
    case Select =>
      if s.killer == Killed then KillSeen
      else if s.ev.rc < |s.ev.list| && s.ev.list[s.ev.rc] == Fired then ChainEvent
      else OcspEvent
    case _ => Cancel
  }

  /** The augmentor can go on exactly when it does not wait; each fetch may fail, or succeed with any
      chain and any acceptable response. */
  lemma {:induction false} AugmentorProceeds(cfg: Config, s: State)
    requires Reachable(cfg, s) && s.crash == NoCrash
    ensures (exists a :: Do(cfg, s, Aug(a)).Some?) <==> !AugWaits(s)
    ensures s.pc == FirstChain || s.pc == NextChain ==>
      Do(cfg, s, Aug(ChainFail)).Some? && forall c :: Do(cfg, s, Aug(ChainOk(c))).Some?
    ensures s.pc == OcspFetch ==>
      && Do(cfg, s, Aug(OcspFail)).Some? && s.pair.rawChain.Some?
      && forall r, t :: Accepts(cfg, s.pair.rawChain.value, r, t) ==> Do(cfg, s, Aug(OcspOk(r, t))).Some?
  {
    ReachableInv(cfg, s);
    if AugWaits(s) {
      forall a ensures Do(cfg, s, Aug(a)).None? { WaitingStays(cfg, s, a); }
    } else {
      AugNextEnabled(cfg, s);
    }
  }

  lemma {:induction false} WaitingStays(cfg: Config, s: State, a: AugStep)
    requires Inv(cfg, s) && s.crash == NoCrash && AugWaits(s)
    ensures Do(cfg, s, Aug(a)).None?
  {
  }

  lemma {:induction false} AugNextEnabled(cfg: Config, s: State)
    requires Inv(cfg, s) && s.crash == NoCrash && !AugWaits(s)
    ensures Do(cfg, s, Aug(AugNext(s))).Some?
  {
    assert s.ev.rc in Held(s.pc, s.ev) ==> Live(s.ev.list[s.ev.rc]);
    assert s.ev.or in Held(s.pc, s.ev) ==> Live(s.ev.list[s.ev.or]);
  }

  /** The manager's Start or daemon is done, or waits for the augmentor's Start, for the lock, or for
      a value or the end of the channel while it is not killed. */
  predicate ManWaits(s: State) {
    match s.man.pc
    case ManExited => true
    case InStart => s.phase.Starting? || s.stops.pc != NoStop
    case CallOut => s.stops.pc != NoStop
    case Receiving(hasRef) => s.man.killer != Killed && (!hasRef || (s.ch.queue == [] && !s.ch.closed))
    case _ => false
  }

  predicate OfDaemon(m: ManStep) {
    m == Out || m == Receive || m == MakeManagerKiller || m == Assign || m == SeeKill
  }

  /** The manager can go on exactly when it does not wait, and every value due to be written can be. */
  lemma {:induction false} ManagerProceeds(cfg: Config, s: State)
    requires s.crash == NoCrash
    ensures (exists m :: OfDaemon(m) && Do(cfg, s, Man(m)).Some?) <==> !ManWaits(s)
    ensures forall i: nat, locked :: Do(cfg, s, Man(CacheWrite(i, locked))).Some? <==> i < |s.man.writes|
    ensures Do(cfg, s, Man(Kill)).Some?
    ensures Do(cfg, s, Man(CloseKiller)).Some? <==> s.man.closers > 0
  {
    var m := match s.man.pc
      case Receiving(hasRef) => if s.man.killer == Killed then SeeKill else Receive
      case StartReceived => MakeManagerKiller
      case Got(_) => Assign
      case _ => Out;
    assert !ManWaits(s) ==> OfDaemon(m) && Do(cfg, s, Man(m)).Some?;
  }

  predicate StopMoves(s: State) {
    || WriterHolds(s.stops.pc)
    || (s.stops.pc == Announced && !ReaderHolds(s.pc))
    || (s.stops.pc == NoStop && s.stops.waiting > 0)
  }

  /** Stop can be called at any time. Its next step waits only for the turn of another Stop and for the
      reader that holds the lock. */
  lemma {:induction false} StopsProceed(cfg: Config, s: State)
    requires s.crash == NoCrash
    ensures Do(cfg, s, Stop(Call)).Some?
    ensures (exists k :: k != Call && Do(cfg, s, Stop(k)).Some?) <==> StopMoves(s)
  {
    var k := match s.stops.pc case NoStop => Announce case Announced => Lock case _ => Proceed;
    assert forall j :: j != Call && Do(cfg, s, Stop(j)).Some? ==> j == k;
    assert k != Call && (Do(cfg, s, Stop(k)).Some? <==> StopMoves(s));
  }

  /** The channel is gone from the field and the manager is not at the old one. */
  predicate CutOff(s: State) {
    !s.ch.out && s.pc != Unstarted && s.man.pc != Receiving(true) && s.man.pc != StartReceived && !s.man.pc.Got?
  }

  /** After a Stop is through, a manager that was not waiting at the channel takes nothing more: Out()
      gives it nil, on which it waits until it is killed. */
  lemma {:induction false} SilentAfterStop(cfg: Config, s: State, steps: seq<Step>)
    requires CutOff(s) && Exec(cfg, s, steps).Some?
    ensures var t := Exec(cfg, s, steps).value;
      && CutOff(t) && t.ch.received == s.ch.received && t.man.data == s.man.data
      && |t.man.writes| + |t.man.written| == |s.man.writes| + |s.man.written|
    decreases |steps|
  {
    if steps != [] {
      var t := Do(cfg, s, steps[0]).value;
      SilentStep(cfg, s, steps[0]);
      SilentAfterStop(cfg, t, steps[1..]);
    }
  }

  lemma {:induction false} SilentStep(cfg: Config, s: State, step: Step)
    requires CutOff(s) && Do(cfg, s, step).Some?
    ensures var t := Do(cfg, s, step).value;
      && CutOff(t) && t.ch.received == s.ch.received && t.man.data == s.man.data
      && |t.man.writes| + |t.man.written| == |s.man.writes| + |s.man.written|
  {
  }

  /** A waiting Stop can get the lock exactly when it is not stuck. */
  lemma {:induction false} StopCompletesExactly(cfg: Config, s: State)
    requires Reachable(cfg, s) && s.crash == NoCrash && StopWaits(s)
    ensures (exists steps :: Exec(cfg, s, steps).Some? && Exec(cfg, s, steps).value.stops.pc == Locked) <==> !Stuck(s)
  {
    ReachableInv(cfg, s);
    if Stuck(s) {
      forall steps | Exec(cfg, s, steps).Some?
        ensures Exec(cfg, s, steps).value.stops.pc != Locked
      {
        StuckForever(cfg, s, steps);
      }
    } else {
      var steps := [];
      if s.pc == Sending && s.ch.queue != [] { steps := TakeRun(cfg, s); }
      var t := Exec(cfg, s, steps).value;
      ExecKeeps(cfg, s, steps);
      steps := LockRun(cfg, s, steps, t);
      assert Exec(cfg, s, steps).value.stops.pc == Locked;
    }
  }

  /** Lets the augmentor finish its send, if it is in one, and then the Stop take the lock. */
  lemma {:induction false} LockRun(cfg: Config, s: State, before: seq<Step>, mid: State) returns (steps: seq<Step>)
    requires Exec(cfg, s, before) == Some(mid) && Inv(cfg, mid) && mid.crash == NoCrash && StopWaits(mid)
    requires mid.pc == Sending ==> mid.ch.out && mid.ch.queue == []
    ensures Exec(cfg, s, steps).Some? && Exec(cfg, s, steps).value.stops.pc == Locked
  {
    var t := mid;
    steps := before;
    if t.pc == Sending {
      steps := Continue(cfg, s, steps, t, Aug(Send));
      t := Do(cfg, t, Aug(Send)).value;
    }
    if t.pc == Sent {
      steps := Continue(cfg, s, steps, t, Aug(RUnlock));
      t := Do(cfg, t, Aug(RUnlock)).value;
    }
    if t.stops.pc == NoStop {
      steps := Continue(cfg, s, steps, t, Stop(Announce));
      t := Do(cfg, t, Stop(Announce)).value;
    }
    steps := Continue(cfg, s, steps, t, Stop(Lock));
  }

  /** The deadlock is real: two renewals while the manager is between two receives, then Stop. */
  lemma {:induction false} StopCanDeadlock()
    ensures exists s :: Reachable(TestConfig(), s) && Stuck(s) && s.ch.out
  {
    var cfg := TestConfig();
    var s := RenewedRun();
    s := Go(cfg, s, Fire(2));
    s := Go(cfg, s, Aug(OcspEvent));
    s := Go(cfg, s, Aug(OcspOk(Dummy, 0)));
    s := Go(cfg, s, Aug(RLock));
    s := Go(cfg, s, Stop(Call));
    s := Go(cfg, s, Stop(Announce));
  }
}
