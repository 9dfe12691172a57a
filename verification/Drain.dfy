/** The drain protocol as interleaved atomic steps of any number of RPC threads, control
    connections and one server thread. */
module Drain {
  import opened Prelude
  import opened DrainController

  // ---------------------------------------------------------------- actors

  /** Progress of the thread running admit_rpc: not yet past the lock; refused; counted but not
      yet back from add_callback; serving with the callback registered; told that registration
      failed (by exception or by False) and about to release; and gone after that release. */
  datatype RpcStage = Arrived | Refused | Counted | Serving | RegistrationFailed | Gone

  /** released is the closure's once-only flag; releasing marks the one call that found it
      unset and has yet to take the counter's lock; freed means the counter was decremented. */
  datatype Rpc = Rpc(stage: RpcStage, released: bool, releasing: bool, freed: bool)
  {
    predicate Admitted() { !stage.Arrived? && !stage.Refused? }

    predicate Active() { Admitted() && !freed }

    predicate Coherent()
    {
      && (releasing || freed ==> released)
      && (released ==> (releasing != freed) && Admitted())
      && (stage.Gone? ==> released)
    }

    /** A call of release(): only the first call gets past the flag. */
    function EnterRelease(): Rpc
    {
      if released then this else this.(released := true, releasing := true)
    }
  }

  /** A BEGIN connection is refused, or registers an operation that ends with the connection.
      A STOP connection closes admission, asks the server to shut down, acknowledges, and
      reports STOPPED once the node is stopped; it may break at any point. */
  datatype Conn =
    | BeginArrived | BeginRefused | BeginActive | BeginEnded
    | StopArrived | StopDraining | StopRequested | StopAcknowledged | StopReported | StopBroken
  {
    predicate Registered() { BeginActive? || BeginEnded? }
  }

  /** Where the server thread is: start-up, then the ordered teardown. */
  datatype Phase =
    | Starting | ControlUp | GrpcUp | Running
    | CloseAdmission | AnnounceLeave | AwaitIdle
    | StopGrpc | StopExecutor | StopMembership | CloseStorage | PublishStopped
    | CloseControl | Exited
  {
    function Rank(): nat
    {
      match this
      case Starting => 0 case ControlUp => 1 case GrpcUp => 2 case Running => 3
      case CloseAdmission => 4 case AnnounceLeave => 5 case AwaitIdle => 6
      case StopGrpc => 7 case StopExecutor => 8 case StopMembership => 9 case CloseStorage => 10
      case PublishStopped => 11 case CloseControl => 12 case Exited => 13
    }
  }

  datatype State = State(
    ctl: Counters,
    rpcs: map<nat, Rpc>,
    conns: map<nat, Conn>,
    phase: Phase,
    controlStarted: bool,
    serverStarted: bool,
    grpcStarted: bool,
    shutdownRequested: bool,
    fault: bool)

  const INITIAL := State(FRESH, map[], map[], Starting, false, false, false, false, false)

  // ---------------------------------------------------------------- steps

  datatype RpcStep =
    | Arrives
    | PassesLock
    | CallbackRegistered
    | CallbackNotRegistered
    | CallbackFires
    | ThreadReleases
    | CounterReleased

  datatype ConnStep =
    | BeginConnects | StopConnects
    | BeginTries | BeginCloses
    | StopDrains | StopRequests | StopAcknowledges | StopReports | StopBreaks

  datatype ServerStep = Signal | StartsControl | StartsGrpc | FlagsGrpc | LeavesMainLoop | TearsDown

  datatype Event = OfRpc(r: nat, rpcStep: RpcStep) | OfConn(c: nat, connStep: ConnStep) | OfServer(serverStep: ServerStep)

  /** The release callback may fire in any stage after admission, any number of times, whatever
      add_callback answered. */
  predicate RpcEnabled(s: State, r: nat, step: RpcStep)
  {
    if step.Arrives? then s.serverStarted && r !in s.rpcs
    else
      && r in s.rpcs
      && match step
         case PassesLock => s.rpcs[r].stage.Arrived?
         case CallbackRegistered => s.rpcs[r].stage.Counted?
         case CallbackNotRegistered => s.rpcs[r].stage.Counted?
         case CallbackFires => s.rpcs[r].Admitted()
         case ThreadReleases => s.rpcs[r].stage.RegistrationFailed?
         case CounterReleased => s.rpcs[r].releasing
         case Arrives => false
  }

  predicate ConnEnabled(s: State, c: nat, step: ConnStep)
  {
    if step.BeginConnects? || step.StopConnects? then s.controlStarted && c !in s.conns
    else
      && c in s.conns
      && match step
         case BeginTries => s.conns[c].BeginArrived?
         case BeginCloses => s.conns[c].BeginActive?
         case StopDrains => s.conns[c].StopArrived?
         case StopRequests => s.conns[c].StopDraining?
         case StopAcknowledges => s.conns[c].StopRequested?
         case StopReports => s.conns[c].StopAcknowledged? && s.ctl.stopped
         case StopBreaks => s.conns[c].StopRequested? || s.conns[c].StopAcknowledged?
         case _ => false
  }

  /** The wait for idleness is skipped when neither listener ever started. */
  predicate ServerEnabled(s: State, step: ServerStep)
  {
    match step
    case Signal => true
    case StartsControl => s.phase.Starting?
    case StartsGrpc => s.phase.ControlUp?
    case FlagsGrpc => s.phase.GrpcUp?
    case LeavesMainLoop => s.phase.Rank() <= Running.Rank()
    case TearsDown =>
      && CloseAdmission.Rank() <= s.phase.Rank() < Exited.Rank()
      && (s.phase.AwaitIdle? && (s.controlStarted || s.grpcStarted) ==> s.ctl.Idle())
  }

  predicate Enabled(s: State, e: Event)
  {
    match e
    case OfRpc(r, step) => RpcEnabled(s, r, step)
    case OfConn(c, step) => ConnEnabled(s, c, step)
    case OfServer(step) => ServerEnabled(s, step)
  }

  function NextRpc(s: State, r: nat, step: RpcStep): Rpc
    requires RpcEnabled(s, r, step)
  {
    match step
    case Arrives => Rpc(Arrived, false, false, false)
    case PassesLock => s.rpcs[r].(stage := if s.ctl.draining then Refused else Counted)
    case CallbackRegistered => s.rpcs[r].(stage := Serving)
    case CallbackNotRegistered => s.rpcs[r].(stage := RegistrationFailed)
    case CallbackFires => s.rpcs[r].EnterRelease()
    case ThreadReleases => s.rpcs[r].EnterRelease().(stage := Gone)
    case CounterReleased => s.rpcs[r].(releasing := false, freed := true)
  }

  /** Effect on the shared counters; None is the "incoherent counter" failure. */
  function RpcCounters(ctl: Counters, step: RpcStep): Option<Counters>
  {
    match step
    case PassesLock => Some(ctl.Admit())
    case CounterReleased => ctl.Release()
    case _ => Some(ctl)
  }

  function ApplyRpc(s: State, r: nat, step: RpcStep): State
    requires RpcEnabled(s, r, step)
  {
    var after := RpcCounters(s.ctl, step);
    s.(rpcs := s.rpcs[r := NextRpc(s, r, step)],
       ctl := if after.Some? then after.value else s.ctl,
       fault := s.fault || after.None?)
  }

  function NextConn(s: State, c: nat, step: ConnStep): Conn
    requires ConnEnabled(s, c, step)
  {
    match step
    case BeginConnects => BeginArrived
    case StopConnects => StopArrived
    case BeginTries => if s.ctl.draining then BeginRefused else BeginActive
    case BeginCloses => BeginEnded
    case StopDrains => StopDraining
    case StopRequests => StopRequested
    case StopAcknowledges => StopAcknowledged
    case StopReports => StopReported
    case StopBreaks => StopBroken
  }

  function ConnCounters(ctl: Counters, step: ConnStep): Option<Counters>
  {
    match step
    case BeginTries => Some(ctl.TryBegin())
    case BeginCloses => ctl.End()
    case StopDrains => Some(ctl.CloseAdmission())
    case _ => Some(ctl)
  }

  function ApplyConn(s: State, c: nat, step: ConnStep): State
    requires ConnEnabled(s, c, step)
  {
    var after := ConnCounters(s.ctl, step);
    s.(conns := s.conns[c := NextConn(s, c, step)],
       ctl := if after.Some? then after.value else s.ctl,
       shutdownRequested := s.shutdownRequested || step.StopRequests?,
       fault := s.fault || after.None?)
  }

  function NextPhase(phase: Phase, step: ServerStep): Phase
  {
    match step
    case Signal => phase
    case StartsControl => ControlUp
    case StartsGrpc => GrpcUp
    case FlagsGrpc => Running
    case LeavesMainLoop => CloseAdmission
    case TearsDown => AfterTeardownStep(phase)
  }

  /** The order of the finally block. */
  function AfterTeardownStep(phase: Phase): Phase
  {
    match phase
    case CloseAdmission => AnnounceLeave
    case AnnounceLeave => AwaitIdle
    case AwaitIdle => StopGrpc
    case StopGrpc => StopExecutor
    case StopExecutor => StopMembership
    case StopMembership => CloseStorage
    case CloseStorage => PublishStopped
    case PublishStopped => CloseControl
    case _ => Exited
  }

  function ServerCounters(ctl: Counters, phase: Phase, step: ServerStep): Counters
  {
    if step.Signal? || (step.TearsDown? && phase.CloseAdmission?) then ctl.CloseAdmission()
    else if step.TearsDown? && phase.PublishStopped? then ctl.Publish()
    else ctl
  }

  function ApplyServer(s: State, step: ServerStep): State
    requires ServerEnabled(s, step)
  {
    s.(phase := NextPhase(s.phase, step),
       ctl := ServerCounters(s.ctl, s.phase, step),
       controlStarted := s.controlStarted || step.StartsControl?,
       serverStarted := s.serverStarted || step.StartsGrpc?,
       grpcStarted := s.grpcStarted || step.FlagsGrpc?,
       shutdownRequested := s.shutdownRequested || step.Signal?)
  }

  function Apply(s: State, e: Event): State
    requires Enabled(s, e)
  {
    match e
    case OfRpc(r, step) => ApplyRpc(s, r, step)
    case OfConn(c, step) => ApplyConn(s, c, step)
    case OfServer(step) => ApplyServer(s, step)
  }

  /** es is possible from s, and Run is where it leads. */
  predicate ValidRun(s: State, es: seq<Event>)
    decreases es
  {
    es == [] || (Enabled(s, es[0]) && ValidRun(Apply(s, es[0]), es[1..]))
  }

  function Run(s: State, es: seq<Event>): State
    requires ValidRun(s, es)
    decreases es
  {
    if es == [] then s else Run(Apply(s, es[0]), es[1..])
  }

  // ---------------------------------------------------------------- the invariant

  function ActiveRpcs(rpcs: map<nat, Rpc>): set<nat> { set r | r in rpcs && rpcs[r].Active() }

  function ActiveOps(conns: map<nat, Conn>): set<nat> { set c | c in conns && conns[c].BeginActive? }

  /** Work that was ever let in. */
  function AdmittedRpcs(s: State): set<nat> { set r | r in s.rpcs && s.rpcs[r].Admitted() }

  function AdmittedOps(s: State): set<nat> { set c | c in s.conns && s.conns[c].Registered() }

  ghost predicate CountersExact(s: State)
  {
    s.ctl.rpcs == |ActiveRpcs(s.rpcs)| && s.ctl.localOps == |ActiveOps(s.conns)| && !s.fault
  }

  ghost predicate RpcsCoherent(s: State)
  {
    forall r :: r in s.rpcs ==> s.rpcs[r].Coherent()
  }

  ghost predicate StartupOrder(s: State)
  {
    && (!s.controlStarted ==> s.conns == map[])
    && (!s.serverStarted ==> s.rpcs == map[])
    && (s.serverStarted ==> s.controlStarted)
    && (s.phase.Starting? ==> !s.controlStarted)
    && (s.phase.ControlUp? || s.phase.GrpcUp? || s.phase.Running? ==> s.controlStarted)
    && (s.phase.GrpcUp? || s.phase.Running? || s.grpcStarted ==> s.serverStarted)
  }

  ghost predicate TeardownOrder(s: State)
  {
    && (s.phase.Rank() > CloseAdmission.Rank() ==> s.ctl.draining)
    && (s.phase.Rank() > AwaitIdle.Rank() ==> s.ctl.Idle())
    && (s.ctl.stopped <==> s.phase.Rank() > PublishStopped.Rank())
    && (forall c :: c in s.conns && s.conns[c].StopReported? ==> s.ctl.stopped)
  }

  ghost predicate Inv(s: State)
  {
    CountersExact(s) && RpcsCoherent(s) && StartupOrder(s) && TeardownOrder(s)
  }

  lemma CountChange(a: set<nat>, b: set<nat>, x: nat)
    requires a - {x} == b - {x}
    ensures |b| == |a| + (if x in b then 1 else 0) - (if x in a then 1 else 0)
  {
    assert x in a ==> a == (a - {x}) + {x};
    assert x !in a ==> a == a - {x};
    assert x in b ==> b == (b - {x}) + {x};
    assert x !in b ==> b == b - {x};
  }

  lemma RpcStepKeepsCounters(s: State, r: nat, step: RpcStep)
    requires Inv(s) && RpcEnabled(s, r, step)
    ensures CountersExact(ApplyRpc(s, r, step)) && RpcsCoherent(ApplyRpc(s, r, step))
  {
    var t := ApplyRpc(s, r, step);
    var before, after := ActiveRpcs(s.rpcs), ActiveRpcs(t.rpcs);
    assert before - {r} == after - {r};
    CountChange(before, after, r);
    if step.CounterReleased? {
      assert s.rpcs[r].Coherent();
      assert r in before;
      assert |before| > 0;
    }
  }

  lemma ConnStepKeepsCounters(s: State, c: nat, step: ConnStep)
    requires Inv(s) && ConnEnabled(s, c, step)
    ensures CountersExact(ApplyConn(s, c, step)) && RpcsCoherent(ApplyConn(s, c, step))
  {
    var t := ApplyConn(s, c, step);
    var before, after := ActiveOps(s.conns), ActiveOps(t.conns);
    assert before - {c} == after - {c};
    CountChange(before, after, c);
    if step.BeginCloses? {
      assert c in before;
      assert |before| > 0;
    }
  }

  lemma RpcStepKeepsOrder(s: State, r: nat, step: RpcStep)
    requires Inv(s) && RpcEnabled(s, r, step)
    requires CountersExact(ApplyRpc(s, r, step))
    ensures StartupOrder(ApplyRpc(s, r, step)) && TeardownOrder(ApplyRpc(s, r, step))
  {
    hide ActiveRpcs, ActiveOps, NextRpc;
    assert step.CounterReleased? && s.ctl.Idle() ==> s.ctl.Release().None?;
  }

  lemma ConnStepKeepsOrder(s: State, c: nat, step: ConnStep)
    requires Inv(s) && ConnEnabled(s, c, step)
    requires CountersExact(ApplyConn(s, c, step))
    ensures StartupOrder(ApplyConn(s, c, step)) && TeardownOrder(ApplyConn(s, c, step))
  {
    hide ActiveRpcs, ActiveOps;
    assert step.BeginCloses? && s.ctl.Idle() ==> s.ctl.End().None?;
  }

  lemma ServerStepKeepsInv(s: State, step: ServerStep)
    requires Inv(s) && ServerEnabled(s, step)
    ensures Inv(ApplyServer(s, step))
  {
    if s.phase.AwaitIdle? && !s.controlStarted {
      assert ActiveRpcs(s.rpcs) == {} && ActiveOps(s.conns) == {};
    }
    hide ActiveRpcs, ActiveOps;
  }

  /** Every atomic step keeps the invariant. */
  lemma StepKeepsInv(s: State, e: Event)
    requires Inv(s) && Enabled(s, e)
    ensures Inv(Apply(s, e))
  {
    hide CountersExact, RpcsCoherent, StartupOrder, TeardownOrder, ApplyRpc, ApplyConn, ApplyServer;
    match e
    case OfRpc(r, step) =>
      RpcStepKeepsCounters(s, r, step);
      RpcStepKeepsOrder(s, r, step);
    case OfConn(c, step) =>
      ConnStepKeepsCounters(s, c, step);
      ConnStepKeepsOrder(s, c, step);
    case OfServer(step) =>
      ServerStepKeepsInv(s, step);
  }

  lemma InitialInv()
    ensures Inv(INITIAL)
  {
    assert ActiveRpcs(map[]) == {} && ActiveOps(map[]) == {};
  }

  lemma {:induction false} RunKeepsInv(s: State, es: seq<Event>)
    requires Inv(s) && ValidRun(s, es)
    ensures Inv(Run(s, es))
    decreases es
  {
    if es != [] {
      StepKeepsInv(s, es[0]);
      RunKeepsInv(Apply(s, es[0]), es[1..]);
    }
  }

  // ---------------------------------------------------------------- main results

  /** In every interleaving the two counters equal the number of admitted and unreleased RPCs
      and leases, and neither "incoherent counter" failure can be raised. */
  lemma CountersAlwaysExact(es: seq<Event>)
    requires ValidRun(INITIAL, es)
    ensures var s := Run(INITIAL, es);
            s.ctl.rpcs == |ActiveRpcs(s.rpcs)| && s.ctl.localOps == |ActiveOps(s.conns)| && !s.fault
  {
    InitialInv();
    RunKeepsInv(INITIAL, es);
  }

  function Releases(es: seq<Event>, r: nat): nat
  {
    if es == [] then 0 else (if es[0] == OfRpc(r, CounterReleased) then 1 else 0) + Releases(es[1..], r)
  }

  function Freed(s: State, r: nat): nat { if r in s.rpcs && s.rpcs[r].freed then 1 else 0 }

  lemma FreedStep(s: State, e: Event, r: nat)
    requires Inv(s) && Enabled(s, e)
    ensures Freed(Apply(s, e), r) == Freed(s, r) + (if e == OfRpc(r, CounterReleased) then 1 else 0)
  {
    assert r in s.rpcs ==> s.rpcs[r].Coherent();
  }

  lemma {:induction false} ReleasesFrom(s: State, es: seq<Event>, r: nat)
    requires Inv(s) && ValidRun(s, es)
    ensures Freed(Run(s, es), r) == Freed(s, r) + Releases(es, r)
    decreases es
  {
    hide Inv, Enabled, Apply;
    if es != [] {
      StepKeepsInv(s, es[0]);
      FreedStep(s, es[0], r);
      ReleasesFrom(Apply(s, es[0]), es[1..], r);
    }
  }

  /** Each RPC gives its slot back at most once, whatever add_callback answered and however
      often the callback fires; and as soon as anybody has called release for it, or its
      thread has gone, the slot is either back or held by the one call that will return it. */
  lemma ReleasedExactlyOnce(es: seq<Event>, r: nat)
    requires ValidRun(INITIAL, es)
    ensures Releases(es, r) <= 1
    ensures var s := Run(INITIAL, es);
            r in s.rpcs && (s.rpcs[r].released || s.rpcs[r].stage.Gone?) ==>
              Releases(es, r) == (if s.rpcs[r].releasing then 0 else 1)
    ensures var s := Run(INITIAL, es);
            r in s.rpcs && s.rpcs[r].Admitted() ==>
              (r in ActiveRpcs(s.rpcs) <==> Releases(es, r) == 0)
  {
    InitialInv();
    RunKeepsInv(INITIAL, es);
    ReleasesFrom(INITIAL, es, r);
    var s := Run(INITIAL, es);
    assert r in s.rpcs ==> s.rpcs[r].Coherent();
  }

  lemma StepAfterDraining(s: State, e: Event)
    requires s.ctl.draining && Enabled(s, e)
    ensures Apply(s, e).ctl.draining
    ensures AdmittedRpcs(Apply(s, e)) == AdmittedRpcs(s) && AdmittedOps(Apply(s, e)) == AdmittedOps(s)
  {
    var t := Apply(s, e);
    match e
    case OfRpc(r, step) =>
      assert NextRpc(s, r, step).Admitted() <==> r in s.rpcs && s.rpcs[r].Admitted();
    case OfConn(c, step) =>
      assert NextConn(s, c, step).Registered() <==> c in s.conns && s.conns[c].Registered();
    case OfServer(step) =>
      assert t.rpcs == s.rpcs && t.conns == s.conns;
  }

  /** Once draining has been requested nothing more is ever admitted. */
  lemma {:induction false} NothingAdmittedAfterDraining(s: State, es: seq<Event>)
    requires s.ctl.draining && ValidRun(s, es)
    ensures Run(s, es).ctl.draining
    ensures AdmittedRpcs(Run(s, es)) == AdmittedRpcs(s)
    ensures AdmittedOps(Run(s, es)) == AdmittedOps(s)
    decreases es
  {
    if es != [] {
      StepAfterDraining(s, es[0]);
      NothingAdmittedAfterDraining(Apply(s, es[0]), es[1..]);
    }
  }

  lemma StepKeepsStopped(s: State, e: Event)
    requires Enabled(s, e) && s.ctl.stopped
    ensures Apply(s, e).ctl.stopped
  {
  }

  lemma {:induction false} RunKeepsStopped(s: State, es: seq<Event>)
    requires ValidRun(s, es) && s.ctl.stopped
    ensures Run(s, es).ctl.stopped
    decreases es
  {
    if es != [] {
      StepKeepsStopped(s, es[0]);
      RunKeepsStopped(Apply(s, es[0]), es[1..]);
    }
  }

  lemma {:induction false} RunSplits(s: State, es: seq<Event>, fs: seq<Event>)
    requires ValidRun(s, es + fs)
    ensures ValidRun(s, es) && ValidRun(Run(s, es), fs) && Run(s, es + fs) == Run(Run(s, es), fs)
    decreases es
  {
    if es == [] {
      assert es + fs == fs;
    } else {
      assert (es + fs)[1..] == es[1..] + fs;
      RunSplits(Apply(s, es[0]), es[1..], fs);
    }
  }

  /** STOPPED reaches a stop client only after every admitted RPC and lease has ended; from
      then on, whatever happens next, no work is active and both counters stay zero. */
  lemma StoppedMeansIdleForever(es: seq<Event>, later: seq<Event>, c: nat)
    requires ValidRun(INITIAL, es + later)
    requires ValidRun(INITIAL, es) && c in Run(INITIAL, es).conns && Run(INITIAL, es).conns[c].StopReported?
    ensures Run(INITIAL, es).ctl.Idle()
    ensures var s := Run(INITIAL, es + later);
            && s.ctl.Idle() && ActiveRpcs(s.rpcs) == {} && ActiveOps(s.conns) == {}
            && s.ctl.stopped && s.ctl.draining && !s.fault
  {
    InitialInv();
    RunKeepsInv(INITIAL, es);
    RunSplits(INITIAL, es, later);
    RunKeepsInv(INITIAL, es + later);
    RunKeepsStopped(Run(INITIAL, es), later);
  }

  /** The wait for idleness is never stuck on work nobody can finish: while a counter is
      positive, some lease can end, some release can be entered or some counter decremented. */
  lemma ActiveWorkCanFinish(es: seq<Event>)
    requires ValidRun(INITIAL, es) && !Run(INITIAL, es).ctl.Idle()
    ensures var s := Run(INITIAL, es);
            || (exists c :: Enabled(s, OfConn(c, BeginCloses)))
            || (exists r :: Enabled(s, OfRpc(r, CounterReleased)))
            || (exists r :: Enabled(s, OfRpc(r, CallbackFires)) && !s.rpcs[r].released)
  {
    CountersAlwaysExact(es);
    InitialInv();
    RunKeepsInv(INITIAL, es);
    var s := Run(INITIAL, es);
    if s.ctl.localOps != 0 {
      assert ActiveOps(s.conns) != {};
      var c :| c in ActiveOps(s.conns);
      assert Enabled(s, OfConn(c, BeginCloses));
    } else {
      assert ActiveRpcs(s.rpcs) != {};
      var r :| r in ActiveRpcs(s.rpcs);
      assert s.rpcs[r].Coherent();
      if s.rpcs[r].releasing {
        assert Enabled(s, OfRpc(r, CounterReleased));
      } else {
        assert Enabled(s, OfRpc(r, CallbackFires));
      }
    }
  }

  // ---------------------------------------------------------------- progress

  /** Work that is still in the way of going idle. */
  function Outstanding(s: State): int { s.ctl.rpcs + s.ctl.localOps }

  predicate Ends(e: Event)
  {
    (e.OfConn? && e.connStep.BeginCloses?) || (e.OfRpc? && e.rpcStep.CounterReleased?)
  }

  function Endings(es: seq<Event>): nat
  {
    if es == [] then 0 else (if Ends(es[0]) then 1 else 0) + Endings(es[1..])
  }

  lemma OutstandingCounts(s: State)
    requires Inv(s)
    ensures s.ctl.rpcs >= 0 && s.ctl.localOps >= 0
  {
  }

  /** While draining, each step that ends work lowers the outstanding work by one, no step raises
      either counter, and no other step changes them. */
  lemma DrainStep(s: State, e: Event)
    requires Inv(s) && s.ctl.draining && Enabled(s, e)
    ensures var t := Apply(s, e);
            && t.ctl.rpcs <= s.ctl.rpcs && t.ctl.localOps <= s.ctl.localOps
            && Outstanding(t) == Outstanding(s) - (if Ends(e) then 1 else 0)
  {
    StepKeepsInv(s, e);
    hide ActiveRpcs, ActiveOps, RpcsCoherent, StartupOrder, TeardownOrder, NextRpc, NextConn;
  }

  /** Over every run from any draining state neither counter has grown, and the outstanding work
      has shrunk by exactly the number of endings: the node is idle exactly when all of it has
      ended, and no run ends more than there was. */
  lemma {:induction false} DrainProgress(s: State, es: seq<Event>)
    requires Inv(s) && s.ctl.draining && ValidRun(s, es)
    ensures var t := Run(s, es);
            && t.ctl.rpcs <= s.ctl.rpcs && t.ctl.localOps <= s.ctl.localOps
            && Outstanding(s) == Outstanding(t) + Endings(es)
            && (t.ctl.Idle() <==> Endings(es) == Outstanding(s))
    decreases es
  {
    OutstandingCounts(s);
    hide Inv, Enabled, Apply;
    if es != [] {
      DrainStep(s, es[0]);
      StepKeepsInv(s, es[0]);
      StepAfterDraining(s, es[0]);
      DrainProgress(Apply(s, es[0]), es[1..]);
    }
  }

  lemma {:induction false} RunJoins(s: State, es: seq<Event>, fs: seq<Event>)
    requires ValidRun(s, es) && ValidRun(Run(s, es), fs)
    ensures ValidRun(s, es + fs) && Run(s, es + fs) == Run(Run(s, es), fs)
    decreases es
  {
    if es == [] {
      assert es + fs == fs;
    } else {
      assert (es + fs)[0] == es[0] && (es + fs)[1..] == es[1..] + fs;
      RunJoins(Apply(s, es[0]), es[1..], fs);
    }
  }

  lemma OneStepRun(s: State, e: Event)
    requires Enabled(s, e)
    ensures ValidRun(s, [e]) && Run(s, [e]) == Apply(s, e)
  {
    assert [e][1..] == [];
    assert ValidRun(Apply(s, e), []);
  }

  /** Some active work can be ended, in one step or two. */
  lemma EndSomeWork(s: State) returns (es: seq<Event>)
    requires Inv(s) && !s.ctl.Idle()
    ensures ValidRun(s, es) && Inv(Run(s, es)) && Run(s, es).phase == s.phase && Outstanding(Run(s, es)) == Outstanding(s) - 1
  {
    hide ValidRun, Run;
    if s.ctl.localOps != 0 {
      var c :| c in ActiveOps(s.conns);
      var e := OfConn(c, BeginCloses);
      OneStepRun(s, e);
      StepKeepsInv(s, e);
      return [e];
    }
    var r :| r in ActiveRpcs(s.rpcs);
    assert s.rpcs[r].Coherent();
    var e, f := OfRpc(r, CallbackFires), OfRpc(r, CounterReleased);
    OneStepRun(s, e);
    StepKeepsInv(s, e);
    var t := Apply(s, e);
    OneStepRun(t, f);
    StepKeepsInv(t, f);
    RunJoins(s, [e], [f]);
    es := [e] + [f];
  }

  /** Idleness can be reached from wherever the invariant holds. */
  lemma {:induction false} CanDrain(s: State) returns (es: seq<Event>)
    requires Inv(s)
    ensures ValidRun(s, es) && Inv(Run(s, es)) && Run(s, es).phase == s.phase && Run(s, es).ctl.Idle()
    decreases Outstanding(s)
  {
    OutstandingCounts(s);
    hide Inv, Enabled, Apply;
    if s.ctl.Idle() {
      return [];
    }
    var es0 := EndSomeWork(s);
    var es1 := CanDrain(Run(s, es0));
    RunJoins(s, es0, es1);
    es := es0 + es1;
  }

  /** The protocol never gets stuck: whatever has happened, the node can still be stopped. */
  lemma CanAlwaysStop(es: seq<Event>) returns (later: seq<Event>)
    requires ValidRun(INITIAL, es)
    ensures ValidRun(INITIAL, es + later) && Run(INITIAL, es + later).ctl.stopped
  {
    hide ValidRun, Run;
    InitialInv();
    RunKeepsInv(INITIAL, es);
    later := CanStopFrom(Run(INITIAL, es));
    RunJoins(INITIAL, es, later);
  }

  lemma {:induction false} CanStopFrom(s: State) returns (es: seq<Event>)
    requires Inv(s)
    ensures ValidRun(s, es) && Run(s, es).ctl.stopped
    decreases Exited.Rank() - s.phase.Rank()
  {
    if s.ctl.stopped {
      return [];
    }
    StoppedByRank(s);
    hide Inv, ValidRun, Run, Enabled, Apply, Phase.Rank;
    var drained := CanDrain(s);
    var t := Run(s, drained);
    var e := ServerCanGoOn(t);
    StepKeepsInv(t, e);
    OneStepRun(t, e);
    var rest := CanStopFrom(Apply(t, e));
    RunJoins(t, [e], rest);
    RunJoins(s, drained, [e] + rest);
    es := drained + ([e] + rest);
  }

  /** On an idle node the server thread can always take its next step. */
  lemma ServerCanGoOn(s: State) returns (e: Event)
    requires s.ctl.Idle() && s.phase.Rank() <= PublishStopped.Rank()
    ensures Enabled(s, e) && Apply(s, e).phase.Rank() > s.phase.Rank()
  {
    e := OfServer(if s.phase.Rank() <= Running.Rank() then LeavesMainLoop else TearsDown);
  }

  lemma StoppedByRank(s: State)
    requires Inv(s) && !s.ctl.stopped
    ensures s.phase.Rank() <= PublishStopped.Rank() < Exited.Rank()
  {
  }
}
