/** The signal handler installed for every started machine: each interrupt
    or termination request asks the guest to shut down cleanly, each quit
    request kills the engine process. */
module Signals {
  import opened HostOps

  /** The three signals the handler subscribes to. */
  datatype Signal = Interrupt | Terminate | Quit

  datatype Reaction = GracefulShutdown | ForcedStop

  /** The dispatch of the handler's `switch`. */
  function Classify(s: Signal): (r: Reaction)
    ensures r == GracefulShutdown <==> (s == Terminate || s == Interrupt)
    ensures r == ForcedStop <==> s == Quit
  {
    match s
    case Terminate => GracefulShutdown
    case Interrupt => GracefulShutdown
    case Quit => ForcedStop
  }

  /** The machine call a signal leads to. */
  function ReactionOp(m: Machine, s: Signal): Op
  {
    match Classify(s)
    case GracefulShutdown => Shutdown(m)
    case ForcedStop => StopVmm(m)
  }

  /** The calls made on `m` for the signals received, in order of arrival. */
  function Reactions(m: Machine, received: seq<Signal>): (ops: seq<Op>)
    ensures |ops| == |received|
    ensures forall i :: 0 <= i < |ops| ==> ops[i] == Shutdown(m) || ops[i] == StopVmm(m)
  {
    if received == [] then [] else Reactions(m, received[..|received| - 1]) + [ReactionOp(m, received[|received| - 1])]
  }

  /** One call per signal: a stop for every quit request and a shutdown
      request for every other signal, each on the handler's own machine. */
  lemma {:induction false} ReactionsAt(m: Machine, received: seq<Signal>)
    ensures |Reactions(m, received)| == |received|
    ensures forall i :: 0 <= i < |received| ==>
      Reactions(m, received)[i] == (if received[i] == Quit then StopVmm(m) else Shutdown(m))
  {
    if received != [] {
      ReactionsAt(m, received[..|received| - 1]);
    }
  }

  /** The handler's loop over the signals delivered to it (the channel is
      `received`); the outcome of each call is ignored. */
  method ServeSignals(host: Host, m: Machine, received: seq<Signal>)
    modifies host
    ensures host.trace == old(host.trace) + Reactions(m, received)
    ensures host.machines == old(host.machines)
  {
    var i := 0;
    while i < |received|
      invariant 0 <= i <= |received|
      invariant host.trace == old(host.trace) + Reactions(m, received[..i])
      invariant host.machines == old(host.machines)
    {
      var s := received[i];
      var _ := host.Run(if Classify(s) == ForcedStop then StopVmm(m) else Shutdown(m));
      assert received[..i + 1][..i] == received[..i];
      i := i + 1;
    }
    assert received[..i] == received;
  }
}
