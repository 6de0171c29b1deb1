/** The host as the orchestrator sees it: privileged commands (`ip`, `rm`,
    `sysctl`) and calls into the hypervisor SDK are opaque operations that
    succeed or fail. Which operations fail is fixed when the host is made
    (`failing`); every operation issued is recorded, in order, in `trace`. */
module HostOps {
  import opened Format

  /** A hypervisor machine: numbered in order of creation on this host, and
      bound to its control socket. */
  datatype Machine = Machine(serial: nat, socketPath: string)

  datatype Op =
    | Exec(argv: seq<string>)         // run a host command and wait for it
    | NewMachine(socketPath: string)  // build a machine for a configuration
    | Start(m: Machine)               // boot the machine's guest
    | StopVmm(m: Machine)             // kill the engine process
    | Shutdown(m: Machine)            // ask the guest to power off

  class Host {
    /** The operations that fail on this host. */
    const failing: set<Op>
    /** Every operation issued so far, oldest first. */
    var trace: seq<Op>
    /** How many machines have been created. */
    var machines: nat

    constructor (failing: set<Op>)
      ensures this.failing == failing && trace == [] && machines == 0
    {
      this.failing := failing;
      trace := [];
      machines := 0;
    }

    /** Issues `op`; it succeeds unless the host fails it. */
    method Run(op: Op) returns (ok: bool)
      modifies this
      ensures trace == old(trace) + [op] && machines == old(machines)
      ensures ok <==> op !in failing
    {
      trace := trace + [op];
      ok := op !in failing;
    }

    /** Builds a new machine bound to `socketPath`, unless that fails. */
    method CreateMachine(socketPath: string) returns (m: Option<Machine>)
      modifies this
      ensures trace == old(trace) + [NewMachine(socketPath)]
      ensures NewMachine(socketPath) in failing ==> m == None && machines == old(machines)
      ensures NewMachine(socketPath) !in failing ==>
        m == Some(Machine(old(machines), socketPath)) && machines == old(machines) + 1
    {
      trace := trace + [NewMachine(socketPath)];
      if NewMachine(socketPath) in failing {
        m := None;
      } else {
        m := Some(Machine(machines, socketPath));
        machines := machines + 1;
      }
    }
  }
}
