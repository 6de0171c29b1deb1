/** `createVMM`: prepare the tap device and control socket on the host, then
    create and start the machine. The first command's outcome is ignored; the
    first failure among the others ends the attempt with an error, and no
    later operation is issued. */
module Provision {
  import opened Format
  import opened VmOptions
  import opened HostOps

  datatype ProvisionError =
    | CreateLink      // `ip tuntap add` failed
    | DeleteSocket    // `rm -f <socket>` failed
    | LinkUp          // `ip link set <tap> up` failed
    | FirstSysctl     // enabling proxy ARP failed
    | SecondSysctl    // disabling IPv6 failed
    | CreateMachine   // the SDK refused the configuration
    | StartMachine    // the machine did not start

  datatype Result<T> = Ok(value: T) | Err(error: ProvisionError)

  /** The text each error starts with, before the wrapped cause. */
  function Message(e: ProvisionError): (s: string)
    ensures |s| > 6 && s[..6] == "Failed"
  {
    match e
    case CreateLink => "Failed creating ip link"
    case DeleteSocket => "Failed to delete old socket path"
    case LinkUp => "Failed creating ip link"
    case FirstSysctl => "Failed doing first sysctl"
    case SecondSysctl => "Failed doing second sysctl"
    case CreateMachine => "Failed creating machine"
    case StartMachine => "Failed to start machine"
  }

  /** Every operation `createVMM` may issue, in order, when the next machine
      created on the host gets `serial`. */
  function Plan(o: Options, serial: nat): (p: seq<Op>)
    ensures |p| == 8
    ensures forall j :: 0 <= j < 6 ==> p[j].Exec?
    ensures p[6] == NewMachine(o.fcSocketPath) && p[7] == Start(Machine(serial, o.fcSocketPath))
    ensures forall j :: 1 <= j < 8 ==> p[j] != p[0]
  {
    [ Exec(["ip", "link", "del", o.tapDev]),
      Exec(["ip", "tuntap", "add", "dev", o.tapDev, "mode", "tap"]),
      Exec(["rm", "-f", o.fcSocketPath]),
      Exec(["ip", "link", "set", o.tapDev, "up"]),
      Exec(["sysctl", "-w", "net.ipv4.conf." + o.tapDev + ".proxy_arp=1"]),
      Exec(["sysctl", "-w", "net.ipv6.conf." + o.tapDev + ".disable_ipv6=1"]),
      NewMachine(o.fcSocketPath),
      Start(Machine(serial, o.fcSocketPath)) ]
  }

  /** The error reported when step `k` of the plan fails. */
  function ErrorAt(k: nat): ProvisionError
    requires 1 <= k < 8
  {
    [CreateLink, DeleteSocket, LinkUp, FirstSysctl, SecondSysctl, CreateMachine, StartMachine][k - 1]
  }

  /** The first step at or after `from` that fails, or `|plan|` if none does. */
  function FirstFailure(plan: seq<Op>, failing: set<Op>, from: nat): (k: nat)
    requires from <= |plan|
    ensures from <= k <= |plan|
    ensures k < |plan| ==> plan[k] in failing
    ensures forall j :: from <= j < k ==> plan[j] !in failing
    decreases |plan| - from
  {
    if from == |plan| then from
    else if plan[from] in failing then from
    else FirstFailure(plan, failing, from + 1)
  }

  /** The characterisation of FirstFailure determines it. */
  lemma FirstFailureIs(plan: seq<Op>, failing: set<Op>, from: nat, k: nat)
    requires from <= k <= |plan|
    requires k < |plan| ==> plan[k] in failing
    requires forall j :: from <= j < k ==> plan[j] !in failing
    ensures FirstFailure(plan, failing, from) == k
  {
  }

  /** The step that decides the attempt: the first failing one after step 0, or 8. */
  function Decisive(o: Options, failing: set<Op>, serial: nat): nat
  {
    FirstFailure(Plan(o, serial), failing, 1)
  }

  /** The operations an attempt issues: the plan up to and including the
      first failure after step 0. */
  function Attempted(o: Options, failing: set<Op>, serial: nat): (a: seq<Op>)
    ensures 2 <= |a| <= 8 && a == Plan(o, serial)[..|a|]
    ensures forall j :: 1 <= j < |a| - 1 ==> a[j] !in failing
    ensures |a| < 8 ==> a[|a| - 1] in failing
  {
    var k := Decisive(o, failing, serial);
    Plan(o, serial)[..if k == 8 then 8 else k + 1]
  }

  /** What an attempt returns. */
  function Outcome(o: Options, failing: set<Op>, serial: nat): (r: Result<Machine>)
    ensures r.Ok? <==> forall j :: 1 <= j < 8 ==> Plan(o, serial)[j] !in failing
    ensures r.Ok? ==> r.value == Machine(serial, o.fcSocketPath)
  {
    var k := Decisive(o, failing, serial);
    if k == 8 then Ok(Machine(serial, o.fcSocketPath)) else Err(ErrorAt(k))
  }

  /** An attempt whose step `k` is the first failure after step 0 issues the
      plan up to step `k` and reports that step's error. */
  lemma FailsAt(o: Options, failing: set<Op>, serial: nat, k: nat)
    requires 1 <= k < 8
    requires forall j :: 1 <= j < k ==> Plan(o, serial)[j] !in failing
    requires Plan(o, serial)[k] in failing
    ensures Decisive(o, failing, serial) == k
    ensures Attempted(o, failing, serial) == Plan(o, serial)[..k + 1]
    ensures Outcome(o, failing, serial) == Err(ErrorAt(k))
  {
    FirstFailureIs(Plan(o, serial), failing, 1, k);
  }

  /** An attempt in which no step after step 0 fails issues the whole plan. */
  lemma Succeeds(o: Options, failing: set<Op>, serial: nat)
    requires forall j :: 1 <= j < 8 ==> Plan(o, serial)[j] !in failing
    ensures Decisive(o, failing, serial) == 8
    ensures Attempted(o, failing, serial) == Plan(o, serial)
    ensures Outcome(o, failing, serial) == Ok(Machine(serial, o.fcSocketPath))
  {
    FirstFailureIs(Plan(o, serial), failing, 1, 8);
  }

  /** Two errors report the same text exactly when they are the same error,
      or are the failures of `ip tuntap add` and `ip link set up`. */
  lemma MessagesAmbiguous(e: ProvisionError, e': ProvisionError)
    ensures Message(e) == Message(e') <==> e == e' || {e, e'} == {CreateLink, LinkUp}
  {
  }

  /** FirstFailure only looks at the steps from `from` on. */
  lemma {:induction false} FirstFailureLooksAhead(plan: seq<Op>, f: set<Op>, g: set<Op>, from: nat)
    requires from <= |plan|
    requires forall j :: from <= j < |plan| ==> (plan[j] in f <==> plan[j] in g)
    ensures FirstFailure(plan, f, from) == FirstFailure(plan, g, from)
    decreases |plan| - from
  {
    if from < |plan| && plan[from] !in f {
      FirstFailureLooksAhead(plan, f, g, from + 1);
    }
  }

  /** Whether the first command (deleting a stale tap device) fails makes no
      difference: the attempt issues the same operations and ends the same way. */
  lemma FirstStepIgnored(o: Options, failing: set<Op>, serial: nat)
    ensures var failing' := failing + {Plan(o, serial)[0]};
      && Attempted(o, failing', serial) == Attempted(o, failing, serial)
      && Outcome(o, failing', serial) == Outcome(o, failing, serial)
  {
    var plan := Plan(o, serial);
    forall j | 1 <= j < |plan|
      ensures plan[j] in failing + {plan[0]} <==> plan[j] in failing
    {
      assert plan[j] != plan[0];
    }
    FirstFailureLooksAhead(plan, failing + {plan[0]}, failing, 1);
  }

  /** A successful attempt has started the machine it returns. */
  lemma StartsWhatItReturns(o: Options, failing: set<Op>, serial: nat)
    requires Outcome(o, failing, serial).Ok?
    ensures Start(Outcome(o, failing, serial).value) in Attempted(o, failing, serial)
  {
    assert Attempted(o, failing, serial)[7] == Start(Machine(serial, o.fcSocketPath));
  }

  /** `createVMM` over the host (the SDK's command builder and configuration
      record only feed `NewMachine`; signal handlers are in `Signals`). */
  method CreateVmm(host: Host, o: Options) returns (r: Result<Machine>)
    modifies host
    ensures host.trace == old(host.trace) + Attempted(o, host.failing, old(host.machines))
    ensures r == Outcome(o, host.failing, old(host.machines))
    ensures host.machines == old(host.machines) + (if Decisive(o, host.failing, old(host.machines)) > 6 then 1 else 0)
  {
    ghost var serial := host.machines;
    ghost var plan := Plan(o, serial);
    ghost var before := host.trace;
    var ok := host.Run(Exec(["ip", "link", "del", o.tapDev]));
    ok := host.Run(Exec(["ip", "tuntap", "add", "dev", o.tapDev, "mode", "tap"]));
    assert host.trace == before + plan[..2];
    if !ok {
      assert FirstFailure(plan, host.failing, 1) == 1;
      return Err(CreateLink);
    }
    ok := host.Run(Exec(["rm", "-f", o.fcSocketPath]));
    assert host.trace == before + plan[..3];
    if !ok {
      assert FirstFailure(plan, host.failing, 2) == 2;
      return Err(DeleteSocket);
    }
    ok := host.Run(Exec(["ip", "link", "set", o.tapDev, "up"]));
    assert host.trace == before + plan[..4];
    if !ok {
      assert FirstFailure(plan, host.failing, 3) == 3;
      return Err(LinkUp);
    }
    ok := host.Run(Exec(["sysctl", "-w", "net.ipv4.conf." + o.tapDev + ".proxy_arp=1"]));
    assert host.trace == before + plan[..5];
    if !ok {
      assert FirstFailure(plan, host.failing, 4) == 4;
      return Err(FirstSysctl);
    }
    ok := host.Run(Exec(["sysctl", "-w", "net.ipv6.conf." + o.tapDev + ".disable_ipv6=1"]));
    assert host.trace == before + plan[..6];
    if !ok {
      assert FirstFailure(plan, host.failing, 5) == 5;
      return Err(SecondSysctl);
    }
    var m := host.CreateMachine(o.fcSocketPath);
    assert host.trace == before + plan[..7];
    if m.None? {
      assert FirstFailure(plan, host.failing, 6) == 6;
      return Err(CreateMachine);
    }
    ok := host.Run(Start(m.value));
    assert host.trace == before + plan;
    if !ok {
      assert FirstFailure(plan, host.failing, 7) == 7;
      return Err(StartMachine);
    }
    assert FirstFailure(plan, host.failing, 8) == 8;
    return Ok(m.value);
  }
}
