/** The counters and flags that local control and RPC admission share. Every method body runs
    under one lock, so each is a single atomic step of the protocol in module Drain. */
module DrainController {
  import opened Prelude

  /** A snapshot of the shared fields. */
  datatype Counters = Counters(draining: bool, stopped: bool, localOps: int, rpcs: int)
  {
    function CloseAdmission(): Counters { this.(draining := true) }

    function TryBegin(): Counters { if draining then this else this.(localOps := localOps + 1) }

    /** None is the "incoherent counter" failure. */
    function End(): Option<Counters> { if localOps <= 0 then None else Some(this.(localOps := localOps - 1)) }

    function Admit(): Counters { if draining then this else this.(rpcs := rpcs + 1) }

    function Release(): Option<Counters> { if rpcs <= 0 then None else Some(this.(rpcs := rpcs - 1)) }

    predicate Idle() { localOps == 0 && rpcs == 0 }

    function Publish(): Counters { this.(stopped := true) }
  }

  const FRESH := Counters(false, false, 0, 0)

  class NodeDrainController {
    var draining: bool
    var stopped: bool
    var activeLocalOperations: int
    var activeRpcs: int

    ghost function View(): Counters
      reads this
    {
      Counters(draining, stopped, activeLocalOperations, activeRpcs)
    }

    constructor ()
      ensures View() == FRESH
    {
      draining, stopped, activeLocalOperations, activeRpcs := false, false, 0, 0;
    }

    /** True only for the request that actually closed admission. */
    method RequestDraining() returns (first: bool)
      modifies this
      ensures View() == old(View()).CloseAdmission() && first == !old(draining)
    {
      first := !draining;
      draining := true;
    }

    method TryBeginLocalOperation() returns (ok: bool)
      modifies this
      ensures View() == old(View()).TryBegin() && ok == !old(draining)
    {
      if draining {
        return false;
      }
      activeLocalOperations := activeLocalOperations + 1;
      return true;
    }

    method EndLocalOperation() returns (coherent: bool)
      modifies this
      ensures coherent <==> old(View()).End().Some?
      ensures View() == if coherent then old(View()).End().value else old(View())
    {
      if activeLocalOperations <= 0 {
        return false;
      }
      activeLocalOperations := activeLocalOperations - 1;
      return true;
    }

    /** The locked part of admit_rpc. */
    method AdmitRpc() returns (admitted: bool)
      modifies this
      ensures View() == old(View()).Admit() && admitted == !old(draining)
    {
      var rejected := draining;
      if !rejected {
        activeRpcs := activeRpcs + 1;
      }
      return !rejected;
    }

    /** The locked part of the release callback. */
    method ReleaseRpc() returns (coherent: bool)
      modifies this
      ensures coherent <==> old(View()).Release().Some?
      ensures View() == if coherent then old(View()).Release().value else old(View())
    {
      if activeRpcs <= 0 {
        return false;
      }
      activeRpcs := activeRpcs - 1;
      return true;
    }

    method MarkStopped()
      modifies this
      ensures View() == old(View()).Publish()
    {
      stopped := true;
    }
  }
}
