/** The certificate manager as a state machine: `certchain/certmanager/augmentor.go` and
    `manager.go`. The threads are the augmentor (its Start, then its daemon), the manager (its
    Start, then its daemon), callers of Stop, and the clock that fires events. A run is any
    interleaving of their steps, with any outcomes of the two Fetch calls. */
module CertProtocol {
  import opened Text
  import opened OcspClient

  /** Whether the augmentor is in Start or in its daemon. */
  datatype Phase = Starting | Serving

  /** Where the augmentor stands. */
  datatype AugPc =
    | Unstarted
    | MakeKiller                 // the channel is made, the killer is not
    | FirstChain                 // Start, before maintainRawChain
    | OcspFetch                  // before orSource.Fetch
    | RetryWait                  // Start, waiting on orNext after a failed fetch
    | BeforeLock                 // ocspResp assigned, before RLock
    | Sending                    // RLock held, before the send
    | Sent                       // RLock held, after the send
    | Select                     // the daemon's select
    | NextChain                  // rcNext occurred, before maintainRawChain
    | CancelStale                // chain updated, before orNext.Cancel
    | CancelChainEvent           // killed, before rcNext.Cancel
    | CancelOcspEvent            // killed, before orNext.Cancel
    | Exited
    | ChainFailed | OcspFailed   // Start returned an error

  datatype Event = Pending | Fired | Consumed | Cancelled

  /** All events handed out so far, and the augmentor's rcNext and orNext among them. */
  datatype Events = Events(list: seq<Event>, rc: nat, or: nat)

  datatype Killer = NoKiller | Alive | Killed

  /** The channel of capacity one, whether the field `out` still refers to it, and all that went
      in and out of it. */
  datatype Channel = Channel(
    out: bool, queue: seq<AugChain>, closed: bool, sent: seq<AugChain>, received: seq<AugChain>)

  /** Where the Stop stands that is next for the write lock or holds it, and how many queue behind
      it. From when it is announced, `sync.RWMutex` lets no new reader in. */
  datatype StopPc = NoStop | Announced | Locked | Closing | Clearing
  datatype Stops = Stops(pc: StopPc, waiting: nat)

  predicate WriterHolds(pc: StopPc) { pc == Locked || pc == Closing || pc == Clearing }

  /** Where the manager stands; `hasRef` tells whether Out() returned the channel or nil. */
  datatype ManPc =
    | InStart
    | StartReceived              // Start received and assigned data, the killer is not made
    | CallOut | Receiving(hasRef: bool) | Got(value: Option<AugChain>) | ManExited

  /** The manager, the callers of its Stop that found the killer open and have not closed it yet,
      the goroutines that still have to write a value to the cache, and what the others were for. */
  datatype Manager = Manager(
    pc: ManPc, killer: Killer, data: Option<AugChain>, closers: nat, writes: seq<Option<AugChain>>,
    written: seq<Option<AugChain>>)

  datatype Crash =
    | NoCrash
    | NilKiller | SendOnClosed | CloseOfClosed | DoubleCancel | AwaitCancelled   // augmentor
    | NilManagerKiller | KillerClosedTwice | NilWrite                            // manager

  /** The augmentor's two fields; `okFor` is the chain for which the response was fetched. */
  datatype Pair = Pair(rawChain: Option<RawChain>, ocspResp: Option<Response>, okFor: Option<RawChain>)

  datatype State = State(
    pc: AugPc, phase: Phase, tries: nat, pair: Pair,
    killer: Killer, ev: Events, ch: Channel, stops: Stops, man: Manager, crash: Crash)

  const INIT := State(
    Unstarted, Starting, 0, Pair(None, None, None), NoKiller, Events([], 0, 0),
    Channel(false, [], false, [], []), Stops(NoStop, 0), Manager(InStart, NoKiller, None, 0, [], []), NoCrash)

  /** Steps of the augmentor. */
  datatype AugStep =
    | StartMake | StartKiller
    | ChainOk(chain: RawChain) | ChainFail          // RawChainSource.Fetch
    | OcspOk(resp: Response, t: Time) | OcspFail    // OCSPRespSource.Fetch
    | AwaitRetry | RLock | Send | RUnlock
    | ChainEvent | OcspEvent | KillSeen             // the branches of the select
    | Cancel

  /** Steps of the callers of Stop. */
  datatype StopStep = Call | Announce | Lock | Proceed

  /** Steps of the manager: of its Start and daemon, of the callers of its Stop, and of the
      goroutines that write to the cache (`locked` tells whether they got the file lock). */
  datatype ManStep =
    | Out | Receive | MakeManagerKiller | Assign | SeeKill
    | Kill | CloseKiller
    | CacheWrite(i: nat, locked: bool)

  datatype Step = Aug(a: AugStep) | Fire(id: nat) | Stop(k: StopStep) | Man(m: ManStep)

  // ---- The steps ----

  /** One step; None when it is not enabled. A crash ends the run. */
  function Do(cfg: Config, s: State, step: Step): Option<State> {
    if s.crash != NoCrash then None
    else match step
    case Aug(a) => DoAug(cfg, s, a)
    case Fire(id) => DoFire(s, id)
    case Stop(k) => DoStop(s, k)
    case Man(m) => DoMan(s, m)
  }

  function DoFire(s: State, id: nat): Option<State> {
    if id < |s.ev.list| && s.ev.list[id] == Pending
    then Some(s.(ev := s.ev.(list := s.ev.list[id := Fired]))) else None
  }

  function DoAug(cfg: Config, s: State, step: AugStep): Option<State> {
    match step
    case StartMake =>
      if s.pc == Unstarted && s.stops.pc == NoStop
      then Some(s.(pc := MakeKiller, ch := s.ch.(out := true, queue := [], closed := false))) else None
    case StartKiller =>
      if s.pc == MakeKiller then Some(s.(pc := FirstChain, killer := Alive)) else None
    case ChainOk(chain) => GotChain(s, chain)
    case ChainFail =>
      if s.pc == FirstChain then Some(s.(pc := ChainFailed, ev := NewChainEvent(s.ev)))
      else if s.pc == NextChain then Some(s.(pc := Select, ev := NewChainEvent(s.ev)))
      else None
    case OcspOk(resp, t) =>
      if s.pc == OcspFetch && s.pair.rawChain.Some? && Accepts(cfg, s.pair.rawChain.value, resp, t)
      then Some(s.(pc := BeforeLock, pair := Pair(s.pair.rawChain, Some(resp), s.pair.rawChain),
                   ev := NewOcspEvent(s.ev), tries := Tried(s)))
      else None
    case OcspFail =>
      if s.pc != OcspFetch then None
      else if s.phase.Serving? then Some(s.(pc := Select, ev := NewOcspEvent(s.ev)))
      else Some(s.(pc := if Tried(s) >= 3 then OcspFailed else RetryWait, ev := NewOcspEvent(s.ev), tries := Tried(s)))
    case AwaitRetry => if s.pc == RetryWait then Await(s, s.ev.or, OcspFetch) else None
    case RLock =>
      if s.pc == BeforeLock && s.stops.pc == NoStop then Some(s.(pc := Sending)) else None
    case Send => DoSend(s)
    case RUnlock => if s.pc == Sent then Some(s.(pc := Select, phase := Serving)) else None
    case ChainEvent => if s.pc == Select then Await(s, s.ev.rc, NextChain) else None
    case OcspEvent => if s.pc == Select then Await(s, s.ev.or, OcspFetch) else None
    case KillSeen => if s.pc == Select && s.killer == Killed then Some(s.(pc := CancelChainEvent)) else None
    case Cancel =>
      if s.pc == CancelStale then CancelEvent(s, s.ev.or, OcspFetch)
      else if s.pc == CancelChainEvent then CancelEvent(s, s.ev.rc, CancelOcspEvent)
      else if s.pc == CancelOcspEvent then CancelEvent(s, s.ev.or, Exited)
      else None
  }

  function NewChainEvent(ev: Events): Events { Events(ev.list + [Pending], |ev.list|, ev.or) }
  function NewOcspEvent(ev: Events): Events { Events(ev.list + [Pending], ev.rc, |ev.list|) }
  function Tried(s: State): nat { if s.phase.Starting? then s.tries + 1 else s.tries }

  /** `maintainRawChain` after a successful fetch: only a new digest updates the chain. */
  function GotChain(s: State, chain: RawChain): Option<State> {
    var updated := s.pair.rawChain.None? || s.pair.rawChain.value.digest != chain.digest;
    var pair := if updated then s.pair.(rawChain := Some(chain)) else s.pair;
    if s.pc == FirstChain then Some(s.(pc := OcspFetch, pair := pair, ev := NewChainEvent(s.ev)))
    else if s.pc == NextChain then
      Some(s.(pc := if updated then CancelStale else Select, pair := pair, ev := NewChainEvent(s.ev)))
    else None
  }

  /** Waiting for an event; on a cancelled one the receive would return at once. */
  function Await(s: State, id: nat, pc: AugPc): Option<State> {
    if id >= |s.ev.list| || s.ev.list[id] == Pending || s.ev.list[id] == Consumed then None
    else if s.ev.list[id] == Cancelled then Some(s.(crash := AwaitCancelled))
    else Some(s.(pc := pc, ev := s.ev.(list := s.ev.list[id := Consumed])))
  }

  function CancelEvent(s: State, id: nat, pc: AugPc): Option<State> {
    if id >= |s.ev.list| then None
    else if s.ev.list[id] == Cancelled then Some(s.(crash := DoubleCancel))
    else Some(s.(pc := pc, ev := s.ev.(list := s.ev.list[id := Cancelled])))
  }

  /** The send blocks on the nil channel and on a full one. */
  function DoSend(s: State): Option<State> {
    if s.pc != Sending || !s.ch.out || s.pair.rawChain.None? || s.pair.ocspResp.None? then None
    else if s.ch.closed then Some(s.(crash := SendOnClosed))
    else if |s.ch.queue| >= 1 then None
    else
      var ac := AugChain(s.pair.rawChain.value, s.pair.ocspResp.value);
      Some(s.(pc := Sent, ch := s.ch.(queue := s.ch.queue + [ac], sent := s.ch.sent + [ac])))
  }

  predicate ReaderHolds(pc: AugPc) { pc == Sending || pc == Sent }

  function DoStop(s: State, step: StopStep): Option<State> {
    match step
    case Call => Some(s.(stops := s.stops.(waiting := s.stops.waiting + 1)))
    case Announce =>
      if s.stops.waiting > 0 && s.stops.pc == NoStop
      then Some(s.(stops := Stops(Announced, s.stops.waiting - 1))) else None
    case Lock =>
      if s.stops.pc == Announced && !ReaderHolds(s.pc) then Some(s.(stops := s.stops.(pc := Locked))) else None
    case Proceed =>
      match s.stops.pc
      case NoStop | Announced => None
      case Locked =>
        if !s.ch.out then Some(s.(stops := s.stops.(pc := NoStop)))
        else if s.killer == NoKiller then Some(s.(crash := NilKiller))
        else Some(s.(killer := Killed, stops := s.stops.(pc := Closing)))
      case Closing =>
        if s.ch.closed then Some(s.(crash := CloseOfClosed))
        else Some(s.(ch := s.ch.(closed := true), stops := s.stops.(pc := Clearing)))
      case Clearing => Some(s.(ch := s.ch.(out := false), stops := s.stops.(pc := NoStop)))
  }

  function DoMan(s: State, step: ManStep): Option<State> {
    match step
    case Out =>
      if (s.man.pc == CallOut || (s.man.pc == InStart && s.phase.Serving?)) && s.stops.pc == NoStop
      then Some(s.(man := s.man.(pc := Receiving(s.ch.out)))) else None
    case Receive =>
      if s.man.pc != Receiving(true) then None
      else if s.ch.queue != [] then
        Some(s.(ch := s.ch.(queue := s.ch.queue[1..], received := s.ch.received + [s.ch.queue[0]]),
                man := Take(s.man, Some(s.ch.queue[0]))))
      else if s.ch.closed then Some(s.(man := Take(s.man, None)))
      else None
    case Assign =>
      if s.man.pc.Got? then Some(s.(man := s.man.(data := s.man.pc.value, pc := CallOut))) else None
    case MakeManagerKiller =>
      if s.man.pc == StartReceived then Some(s.(man := s.man.(pc := CallOut, killer := Alive))) else None
    case SeeKill =>
      if s.man.pc.Receiving? && s.man.killer == Killed then Some(s.(man := s.man.(pc := ManExited))) else None
    case Kill =>
      if s.man.killer == NoKiller then Some(s.(crash := NilManagerKiller))
      else if s.man.killer == Killed then Some(s)
      else Some(s.(man := s.man.(closers := s.man.closers + 1)))
    case CloseKiller =>
      if s.man.closers == 0 then None
      else if s.man.killer == Killed then Some(s.(crash := KillerClosedTwice))
      else Some(s.(man := s.man.(killer := Killed, closers := s.man.closers - 1)))
    case CacheWrite(i, locked) =>
      if i >= |s.man.writes| then None
      else if locked && s.man.writes[i].None? then Some(s.(crash := NilWrite))
      else Some(s.(man := s.man.(writes := s.man.writes[..i] + s.man.writes[i + 1..],
                                 written := s.man.written + [s.man.writes[i]])))
  }

  /** A received value is handed to a goroutine that writes it to the cache. The first one goes
      straight to `data`; the daemon assigns its own in a step of their own. */
  function Take(man: Manager, v: Option<AugChain>): Manager {
    var writes := man.writes + [v];
    if man.killer == NoKiller then man.(pc := StartReceived, data := v, writes := writes)
    else man.(pc := Got(v), writes := writes)
  }

  // ---- Runs ----

  function Exec(cfg: Config, s: State, steps: seq<Step>): Option<State>
    decreases |steps|
  {
    if steps == [] then Some(s)
    else if Do(cfg, s, steps[0]).None? then None
    else Exec(cfg, Do(cfg, s, steps[0]).value, steps[1..])
  }

  ghost predicate Reachable(cfg: Config, s: State) {
    exists steps :: Exec(cfg, INIT, steps) == Some(s)
  }

  // ---- Invariants ----

  /** The response was accepted by a Fetch for this very chain. */
  ghost predicate Paired(cfg: Config, ac: AugChain) {
    exists t :: Accepts(cfg, ac.chain, ac.ocsp, t)
  }

  ghost predicate AllPaired(cfg: Config, acs: seq<AugChain>) {
    forall i :: 0 <= i < |acs| ==> Paired(cfg, acs[i])
  }

  /** The response was accepted for the chain held at its fetch; between the fetch and the send
      that is still the chain, elsewhere it need not be. */
  ghost predicate PairInv(cfg: Config, pc: AugPc, p: Pair, sent: seq<AugChain>) {
    && AllPaired(cfg, sent)
    && (p.ocspResp.Some? <==> p.okFor.Some?)
    && (p.ocspResp.Some? ==> p.rawChain.Some? && Paired(cfg, AugChain(p.okFor.value, p.ocspResp.value)))
    && (pc == BeforeLock || pc == Sending ==> p.ocspResp.Some? && p.rawChain == p.okFor)
    && (p.rawChain.None? ==> pc == Unstarted || pc == MakeKiller || pc == FirstChain || pc == ChainFailed)
  }

  /** The lock and the channel. */
  ghost predicate ChannelInv(pc: AugPc, killer: Killer, ch: Channel, stop: StopPc, crash: Crash) {
    && ch.sent == ch.received + ch.queue && |ch.queue| <= 1
    && (WriterHolds(stop) ==> !ReaderHolds(pc))
    && (pc == Unstarted ==> !ch.out && !ch.closed && ch.sent == [])
    && (pc == Unstarted || pc == MakeKiller <==> killer == NoKiller)
    && (stop == Closing ==> ch.out && !ch.closed && killer == Killed)
    && (stop == Clearing ==> ch.out && ch.closed)
    && (ch.closed && stop != Clearing ==> !ch.out)
    && (!ch.out && pc != Unstarted ==> ch.closed)
    && (ch.closed ==> killer == Killed)
    && (pc == CancelChainEvent || pc == CancelOcspEvent || pc == Exited ==> killer == Killed)
    && (crash == NilKiller ==> pc == MakeKiller)
    && crash != SendOnClosed && crash != CloseOfClosed && crash != DoubleCancel && crash != AwaitCancelled
  }

  /** The events the augmentor holds: it will await or cancel each of them. */
  function Held(pc: AugPc, ev: Events): set<nat> {
    match pc
    case Unstarted | MakeKiller | FirstChain | Exited => {}
    case OcspFetch | ChainFailed => {ev.rc}
    case NextChain | CancelOcspEvent => {ev.or}
    case _ => {ev.rc, ev.or}
  }

  predicate Live(e: Event) { e == Pending || e == Fired }

  /** An event is still to happen exactly when the augmentor holds it. */
  ghost predicate EventInv(pc: AugPc, ev: Events) {
    && (forall id :: id in Held(pc, ev) ==> id < |ev.list|)
    && (forall id :: 0 <= id < |ev.list| ==> (Live(ev.list[id]) <==> id in Held(pc, ev)))
    && (HoldsBoth(pc) ==> ev.rc != ev.or)
  }

  predicate HoldsBoth(pc: AugPc) {
    match pc
    case RetryWait | BeforeLock | Sending | Sent | Select | CancelStale | CancelChainEvent | OcspFailed => true
    case _ => false
  }

  /** What Start has done so far: at most three fetches, and one send as its very last act. */
  predicate StartInv(pc: AugPc, phase: Phase, tries: nat, ch: Channel, man: ManPc) {
    && (pc == Unstarted || pc == MakeKiller || pc == FirstChain ==> tries == 0)
    && (phase.Starting? && pc == OcspFetch ==> tries < 3)
    && (pc == RetryWait ==> 0 < tries < 3)
    && (pc == OcspFailed ==> tries == 3)
    && tries <= 3
    && (phase.Starting? ==>
         |ch.sent| == (if pc == Sent then 1 else 0) && ch.received == [] && man == InStart
         && pc != Select && pc != NextChain && pc != CancelStale)
    && (phase.Serving? ==> |ch.sent| >= 1)
  }

  /** What the manager holds: the value it received last, and nil only from a closed channel. */
  ghost predicate ManagerInv(man: Manager, ch: Channel) {
    && (man.killer == NoKiller && man.pc != StartReceived ==>
         ch.received == [] && man.data.None? && (man.pc == InStart || man.pc.Receiving?))
    && (man.killer != NoKiller ==> man.pc != InStart && man.pc != StartReceived)
    && (man.closers > 0 ==> man.killer != NoKiller)
    && (man.pc == ManExited ==> man.killer == Killed)
    && (man.pc.Got? ==> HoldsLast(man.pc.value, ch))
    && ((man.killer != NoKiller && !man.pc.Got?) || man.pc == StartReceived ==> HoldsLast(man.data, ch))
    && (man.data.Some? ==> man.data.value in ch.received)
    && WritesInv(man.writes, ch)
  }

  /** Only received values are written, and nil only from a closed channel. */
  ghost predicate WritesInv(writes: seq<Option<AugChain>>, ch: Channel) {
    forall i :: 0 <= i < |writes| ==> if writes[i].None? then ch.closed else writes[i].value in ch.received
  }

  predicate HoldsLast(v: Option<AugChain>, ch: Channel) {
    if v.None? then ch.closed else ch.received != [] && v.value == ch.received[|ch.received| - 1]
  }

  ghost predicate Inv(cfg: Config, s: State) {
    && PairInv(cfg, s.pc, s.pair, s.ch.sent)
    && ChannelInv(s.pc, s.killer, s.ch, s.stops.pc, s.crash)
    && EventInv(s.pc, s.ev)
    && StartInv(s.pc, s.phase, s.tries, s.ch, s.man.pc)
    && ManagerInv(s.man, s.ch)
  }

  // ---- Every step keeps them ----

  lemma {:induction false} StopKeeps(cfg: Config, s: State, step: StopStep)
    requires Inv(cfg, s) && s.crash == NoCrash && DoStop(s, step).Some?
    ensures Inv(cfg, DoStop(s, step).value)
  {
    var t := DoStop(s, step).value;
    StopKeepsChannel(s, step);
    StopKeepsManager(s.man, s.ch, t.ch);
  }

  lemma {:induction false} StopKeepsChannel(s: State, step: StopStep)
    requires ChannelInv(s.pc, s.killer, s.ch, s.stops.pc, s.crash) && s.crash == NoCrash && DoStop(s, step).Some?
    ensures var t := DoStop(s, step).value;
      ChannelInv(t.pc, t.killer, t.ch, t.stops.pc, t.crash)
      && t == s.(killer := t.killer, ch := t.ch, stops := t.stops, crash := t.crash)
      && t.ch == s.ch.(out := t.ch.out, closed := t.ch.closed) && (s.ch.closed ==> t.ch.closed)
  {
  }

  lemma {:induction false} StopKeepsManager(man: Manager, ch: Channel, ch': Channel)
    requires ManagerInv(man, ch) && ch' == ch.(out := ch'.out, closed := ch'.closed) && (ch.closed ==> ch'.closed)
    ensures ManagerInv(man, ch')
  {
  }

  lemma {:induction false} FireKeeps(cfg: Config, s: State, id: nat)
    requires Inv(cfg, s) && s.crash == NoCrash && DoFire(s, id).Some?
    ensures Inv(cfg, DoFire(s, id).value)
  {
  }

  lemma {:induction false} WritesKept(
      writes: seq<Option<AugChain>>, ch: Channel, more: seq<Option<AugChain>>, ch': Channel)
    requires WritesInv(writes, ch) && ch.closed == ch'.closed && ch.received <= ch'.received
    requires forall i :: 0 <= i < |more| ==>
      more[i] in writes || (if more[i].None? then ch'.closed else more[i].value in ch'.received)
    ensures WritesInv(more, ch')
  {
    assert forall v :: v in ch.received ==> v in ch'.received;
  }

  /** Receiving a value, or nil from a closed channel. */
  lemma {:induction false} TakeKeeps(man: Manager, ch: Channel, ch': Channel, v: Option<AugChain>)
    requires ManagerInv(man, ch) && man.pc == Receiving(true)
    requires v.None? ==> ch.closed && ch' == ch
    requires v.Some? ==> ch.queue != [] && v.value == ch.queue[0]
    requires v.Some? ==> ch' == ch.(queue := ch.queue[1..], received := ch.received + [v.value])
    ensures ManagerInv(Take(man, v), ch')
  {
    assert v.Some? ==> ch'.received[|ch'.received| - 1] == v.value && v.value in ch'.received;
    WritesKept(man.writes, ch, man.writes + [v], ch');
    assert man.data.Some? ==> man.data.value in ch'.received;
  }

  lemma {:induction false} ManKeepsManager(s: State, step: ManStep)
    requires ManagerInv(s.man, s.ch) && s.crash == NoCrash && DoMan(s, step).Some?
    ensures ManagerInv(DoMan(s, step).value.man, DoMan(s, step).value.ch)
  {
    var t := DoMan(s, step).value;
    match step
    case Receive => TakeKeeps(s.man, s.ch, t.ch, if s.ch.queue != [] then Some(s.ch.queue[0]) else None);
    case CacheWrite(_, _) => WritesKept(s.man.writes, s.ch, t.man.writes, s.ch);
    case _ =>
  }

  lemma {:induction false} ManKeeps(cfg: Config, s: State, step: ManStep)
    requires Inv(cfg, s) && s.crash == NoCrash && DoMan(s, step).Some?
    ensures Inv(cfg, DoMan(s, step).value)
  {
    ManKeepsManager(s, step);
    ManKeepsChannel(s, step);
  }

  lemma {:induction false} ManKeepsChannel(s: State, step: ManStep)
    requires ChannelInv(s.pc, s.killer, s.ch, s.stops.pc, s.crash) && s.crash == NoCrash && DoMan(s, step).Some?
    requires StartInv(s.pc, s.phase, s.tries, s.ch, s.man.pc)
    ensures var t := DoMan(s, step).value;
      ChannelInv(t.pc, t.killer, t.ch, t.stops.pc, t.crash) && t.ch.sent == s.ch.sent
      && StartInv(t.pc, t.phase, t.tries, t.ch, t.man.pc) && t == s.(ch := t.ch, man := t.man, crash := t.crash)
  {
    if step.Receive? && s.ch.queue != [] {
      assert s.ch.queue == [s.ch.queue[0]] + s.ch.queue[1..];
      Assoc(s.ch.received, [s.ch.queue[0]], s.ch.queue[1..]);
    }
  }

  lemma {:induction false} AugKeepsPairs(cfg: Config, s: State, step: AugStep)
    requires PairInv(cfg, s.pc, s.pair, s.ch.sent) && DoAug(cfg, s, step).Some?
    ensures var t := DoAug(cfg, s, step).value; PairInv(cfg, t.pc, t.pair, t.ch.sent)
  {
    if step.OcspOk? {
      assert Paired(cfg, AugChain(s.pair.rawChain.value, step.resp));
    }
  }

  /** The augmentor never sends on a closed channel, never cancels an event twice and never awaits
      a cancelled one. */
  lemma {:induction false} AugNeverCrashes(cfg: Config, s: State, step: AugStep)
    requires ChannelInv(s.pc, s.killer, s.ch, s.stops.pc, s.crash) && EventInv(s.pc, s.ev)
    requires s.crash == NoCrash && DoAug(cfg, s, step).Some?
    ensures DoAug(cfg, s, step).value.crash == NoCrash
  {
  }

  lemma {:induction false} AugKeepsChannel(cfg: Config, s: State, step: AugStep)
    requires ChannelInv(s.pc, s.killer, s.ch, s.stops.pc, s.crash)
    requires DoAug(cfg, s, step).Some? && DoAug(cfg, s, step).value.crash == NoCrash
    ensures var t := DoAug(cfg, s, step).value; ChannelInv(t.pc, t.killer, t.ch, t.stops.pc, t.crash)
  {
  }

  lemma {:induction false} AugKeepsStart(cfg: Config, s: State, step: AugStep)
    requires StartInv(s.pc, s.phase, s.tries, s.ch, s.man.pc) && DoAug(cfg, s, step).Some?
    ensures var t := DoAug(cfg, s, step).value; StartInv(t.pc, t.phase, t.tries, t.ch, t.man.pc)
  {
  }

  lemma {:induction false} AugKeepsManager(cfg: Config, s: State, step: AugStep)
    requires ManagerInv(s.man, s.ch) && ChannelInv(s.pc, s.killer, s.ch, s.stops.pc, s.crash)
    requires DoAug(cfg, s, step).Some?
    ensures ManagerInv(DoAug(cfg, s, step).value.man, DoAug(cfg, s, step).value.ch)
  {
  }

  /** A fetch hands over one new event. */
  lemma {:induction false} EventAdded(pc: AugPc, ev: Events, pc': AugPc, ev': Events)
    requires EventInv(pc, ev) && ev'.list == ev.list + [Pending]
    requires Held(pc', ev') == Held(pc, ev) + {|ev.list|}
    requires HoldsBoth(pc') ==> ev'.rc != ev'.or
    ensures EventInv(pc', ev')
  {
  }

  /** Awaiting or cancelling an event gives it up. */
  lemma {:induction false} EventRetired(pc: AugPc, ev: Events, pc': AugPc, ev': Events, id: nat, e: Event)
    requires EventInv(pc, ev) && id in Held(pc, ev) && !Live(e)
    requires ev' == ev.(list := ev.list[id := e]) && Held(pc', ev') == Held(pc, ev) - {id} && !HoldsBoth(pc')
    ensures EventInv(pc', ev')
  {
  }

  lemma {:induction false} EventsSame(pc: AugPc, ev: Events, pc': AugPc)
    requires EventInv(pc, ev) && Held(pc', ev) == Held(pc, ev) && (HoldsBoth(pc') ==> HoldsBoth(pc))
    ensures EventInv(pc', ev)
  {
  }

  lemma {:induction false} AugKeepsEvents(cfg: Config, s: State, step: AugStep)
    requires EventInv(s.pc, s.ev) && DoAug(cfg, s, step).Some? && DoAug(cfg, s, step).value.crash == NoCrash
    ensures EventInv(DoAug(cfg, s, step).value.pc, DoAug(cfg, s, step).value.ev)
  {
    var t := DoAug(cfg, s, step).value;
    match step
    case StartMake | StartKiller | RLock | Send | RUnlock | KillSeen => EventsSame(s.pc, s.ev, t.pc);
    case ChainOk(_) | ChainFail | OcspOk(_, _) | OcspFail => EventAdded(s.pc, s.ev, t.pc, t.ev);
    case AwaitRetry | OcspEvent => EventRetired(s.pc, s.ev, t.pc, t.ev, s.ev.or, Consumed);
    case ChainEvent => EventRetired(s.pc, s.ev, t.pc, t.ev, s.ev.rc, Consumed);
    case Cancel =>
      EventRetired(s.pc, s.ev, t.pc, t.ev, if s.pc == CancelChainEvent then s.ev.rc else s.ev.or, Cancelled);
  }

  lemma {:induction false} StepKeeps(cfg: Config, s: State, step: Step)
    requires Inv(cfg, s) && Do(cfg, s, step).Some?
    ensures Inv(cfg, Do(cfg, s, step).value)
  {
    match step
    case Aug(a) =>
      AugNeverCrashes(cfg, s, a);
      AugKeepsPairs(cfg, s, a);
      AugKeepsChannel(cfg, s, a);
      AugKeepsStart(cfg, s, a);
      AugKeepsManager(cfg, s, a);
      AugKeepsEvents(cfg, s, a);
    case Fire(id) => FireKeeps(cfg, s, id);
    case Stop(k) => StopKeeps(cfg, s, k);
    case Man(m) => ManKeeps(cfg, s, m);
  }
}
