/** The orchestrator's request handlers over its two pieces of global state:
    the allocation byte `ipByte`, advanced once per create request, and the
    registry `runningVMs` from instance identifier to running machine. */
module Service {
  import opened Format
  import opened VmOptions
  import opened Identity
  import opened Identifier
  import opened HostOps
  import opened Provision

  /** The value `ipByte` holds before the first request. */
  const InitialIpByte: byte := 3

  /** The reason reported when the random source fails. */
  const UuidFailure: string := "failed to generate uuid"

  /** The allocation byte after `k` create requests: one step per request,
      wrapping at 256 like Go's `byte`. */
  function ByteAfter(k: nat): (b: byte)
    ensures k <= 252 ==> b == 3 + k
    ensures 253 <= k < 509 ==> b == k - 253
  {
    (InitialIpByte + k) % 256
  }

  /** One more request advances the byte by one, wrapping at 256. */
  lemma ByteStep(k: nat)
    ensures ByteAfter(k + 1) == (ByteAfter(k) + 1) % 256
  {
  }

  /** The JSON body of a successful create. */
  datatype CreateResponse = CreateResponse(ipAddress: string, id: string)

  /** A create either answers, or ends the process (`log.Fatalf`) with a reason. */
  datatype CreateOutcome = Created(response: CreateResponse) | Fatal(reason: string)

  /** A delete either stops and forgets the machine, or finds no entry and
      calls stop on a nil machine, which panics; the server recovers from
      the panic and the request ends with nothing changed. */
  datatype DeleteOutcome = Deleted | NilMachine

  /** The stop calls cleanup makes when it visits the identifiers in `order`. */
  function Stops(order: seq<string>, vms: map<string, Machine>): seq<Op>
    requires forall i :: 0 <= i < |order| ==> order[i] in vms
  {
    if order == [] then [] else Stops(order[..|order| - 1], vms) + [StopVmm(vms[order[|order| - 1]])]
  }

  /** Visiting one more identifier adds one stop at the end. */
  lemma StopsSnoc(order: seq<string>, id: string, vms: map<string, Machine>)
    requires forall i :: 0 <= i < |order| ==> order[i] in vms
    requires id in vms
    ensures forall i :: 0 <= i < |order + [id]| ==> (order + [id])[i] in vms
    ensures Stops(order + [id], vms) == Stops(order, vms) + [StopVmm(vms[id])]
  {
    assert (order + [id])[..|order|] == order;
  }

  /** Cleanup visits every registered machine: one stop per entry, in the
      order visited, so every registered machine is stopped. */
  lemma {:induction false} StopsAt(order: seq<string>, vms: map<string, Machine>)
    requires forall i :: 0 <= i < |order| ==> order[i] in vms
    ensures |Stops(order, vms)| == |order|
    ensures forall i :: 0 <= i < |order| ==> Stops(order, vms)[i] == StopVmm(vms[order[i]])
  {
    if order != [] {
      StopsAt(order[..|order| - 1], vms);
    }
  }

  /** When `order` lists every key, every registered machine is stopped. */
  lemma StopsEveryEntry(order: seq<string>, vms: map<string, Machine>)
    requires forall i :: 0 <= i < |order| ==> order[i] in vms
    requires forall id :: id in vms ==> id in order
    ensures forall id :: id in vms ==> StopVmm(vms[id]) in Stops(order, vms)
  {
    StopsAt(order, vms);
    forall id | id in vms
      ensures StopVmm(vms[id]) in Stops(order, vms)
    {
      var i :| 0 <= i < |order| && order[i] == id;
      assert Stops(order, vms)[i] == StopVmm(vms[id]);
    }
  }

  /** Every registered machine was started on the host, under a serial the
      host has handed out, and no machine is registered twice. */
  ghost predicate Registered(vms: map<string, Machine>, trace: seq<Op>, machines: nat)
  {
    && (forall id :: id in vms ==> Start(vms[id]) in trace && vms[id].serial < machines)
    && (forall a, b :: a in vms && b in vms && a != b ==> vms[a].serial != vms[b].serial)
  }

  /** Further host activity keeps the registry's machines accounted for. */
  lemma RegisteredGrows(vms: map<string, Machine>, trace: seq<Op>, more: seq<Op>, machines: nat, machines': nat)
    requires Registered(vms, trace, machines) && machines <= machines'
    ensures Registered(vms, trace + more, machines')
  {
    forall id | id in vms
      ensures Start(vms[id]) in trace + more
    {
      assert Start(vms[id]) in trace;
    }
  }

  /** Registering the machine just created and started keeps the registry
      accounted for, even when the identifier replaces an older entry. */
  lemma RegisteredInsert(vms: map<string, Machine>, trace: seq<Op>, machines: nat, id: string, m: Machine)
    requires Registered(vms, trace, machines)
    requires Start(m) in trace && m.serial == machines
    ensures Registered(vms[id := m], trace, machines + 1)
  {
  }

  /** The loop of `cleanup`: visits each key of `vms` once, in an order of
      its own choosing, and issues a stop on that key's machine. */
  method StopEach(host: Host, vms: map<string, Machine>) returns (order: seq<string>)
    modifies host
    ensures forall i, j :: 0 <= i < j < |order| ==> order[i] != order[j]
    ensures forall i :: 0 <= i < |order| ==> order[i] in vms
    ensures forall id :: id in vms ==> id in order
    ensures host.trace == old(host.trace) + Stops(order, vms)
    ensures host.machines == old(host.machines)
  {
    var left := vms.Keys;
    order := [];
    while left != {}
      invariant forall i, j :: 0 <= i < j < |order| ==> order[i] != order[j]
      invariant forall i :: 0 <= i < |order| ==> order[i] in vms && order[i] !in left
      invariant left <= vms.Keys
      invariant forall id :: id in vms ==> id in left || id in order
      invariant host.trace == old(host.trace) + Stops(order, vms)
      invariant host.machines == old(host.machines)
      decreases left
    {
      var id :| id in left;
      StopsSnoc(order, id, vms);
      var _ := host.Run(StopVmm(vms[id]));
      order := order + [id];
      left := left - {id};
    }
  }

  class Orchestrator {
    /** The host the machines run on. */
    const host: Host
    /** The last allocation byte handed out (3 before any request). */
    var ipByte: byte
    /** The running machines, by instance identifier. */
    var runningVMs: map<string, Machine>
    /** How many create requests have been served. */
    ghost var creates: nat

    /** The counter has advanced once per create request; every registered
        machine was started on the host, and no machine is registered twice. */
    ghost predicate Valid()
      reads this, host
    {
      && ipByte == ByteAfter(creates)
      && Registered(runningVMs, host.trace, host.machines)
    }

    /** The state the program starts in. */
    constructor (host: Host)
      ensures this.host == host && ipByte == InitialIpByte && runningVMs == map[] && creates == 0
      ensures Valid()
    {
      this.host := host;
      ipByte := InitialIpByte;
      runningVMs := map[];
      creates := 0;
    }

    /** `createRequestHandler` for a decoded request; `entropy` is what the
        random source gives `pseudo_uuid` (`None` when it fails). The counter
        advances before anything else, and whether or not the request ends
        in a fatal error. */
    method Create(req: CreateRequest, entropy: Option<seq<byte>>) returns (out: CreateOutcome)
      requires Valid()
      requires entropy.Some? ==> |entropy.value| == 16
      modifies this, host
      ensures Valid() && creates == old(creates) + 1
      ensures ipByte == (old(ipByte) + 1) % 256
      ensures Launched(GetOptions(ipByte, req), entropy, old(host.machines), old(host.trace), old(runningVMs), out)
    {
      ByteStep(creates);
      ipByte := (ipByte + 1) % 256;
      creates := creates + 1;
      var o := GetOptions(ipByte, req);
      out := Launch(o, entropy);
    }

    /** What the handler's remaining steps do with the derived options `o`,
        from a host that has made `serial` machines and issued `trace`, and
        a registry `vms`: run `createVMM`, draw the identifier, answer and
        register the machine, or stop at the first fatal error. */
    ghost predicate Launched(o: Options, entropy: Option<seq<byte>>, serial: nat, trace: seq<Op>,
                             vms: map<string, Machine>, out: CreateOutcome)
      requires entropy.Some? ==> |entropy.value| == 16
      reads this, host
    {
      && host.trace == trace + Attempted(o, host.failing, serial)
      && host.machines == serial + (if Decisive(o, host.failing, serial) > 6 then 1 else 0)
      && match Outcome(o, host.failing, serial)
         case Err(e) => out == Fatal(Message(e)) && runningVMs == vms
         case Ok(m) =>
           if entropy.None? then out == Fatal(UuidFailure) && runningVMs == vms
           else
             var id := PseudoUuid(entropy.value);
             out == Created(CreateResponse(o.fcIp, id)) && runningVMs == vms[id := m]
    }

    /** The handler once its options are derived. */
    method Launch(o: Options, entropy: Option<seq<byte>>) returns (out: CreateOutcome)
      requires Registered(runningVMs, host.trace, host.machines)
      requires entropy.Some? ==> |entropy.value| == 16
      modifies this, host
      ensures Registered(runningVMs, host.trace, host.machines)
      ensures ipByte == old(ipByte) && creates == old(creates)
      ensures Launched(o, entropy, old(host.machines), old(host.trace), old(runningVMs), out)
    {
      ghost var serial := host.machines;
      ghost var before := host.trace;
      var r := CreateVmm(host, o);
      RegisteredGrows(runningVMs, before, Attempted(o, host.failing, serial), serial, host.machines);
      if r.Err? {
        return Fatal(Message(r.error));
      }
      if entropy.None? {
        return Fatal(UuidFailure);
      }
      var id := PseudoUuid(entropy.value);
      StartsWhatItReturns(o, host.failing, serial);
      RegisteredInsert(runningVMs, host.trace, serial, id, r.value);
      runningVMs := runningVMs[id := r.value];
      return Created(CreateResponse(o.fcIp, id));
    }

    /** `deleteRequestHandler` for a decoded request. */
    method Delete(id: string) returns (out: DeleteOutcome)
      requires Valid()
      modifies this, host
      ensures Valid() && ipByte == old(ipByte) && creates == old(creates)
      ensures host.machines == old(host.machines)
      ensures id in old(runningVMs) ==>
        && out == Deleted
        && host.trace == old(host.trace) + [StopVmm(old(runningVMs)[id])]
        && runningVMs == old(runningVMs) - {id}
      ensures id !in old(runningVMs) ==>
        out == NilMachine && host.trace == old(host.trace) && runningVMs == old(runningVMs)
    {
      if id !in runningVMs {
        return NilMachine;
      }
      var _ := host.Run(StopVmm(runningVMs[id]));
      runningVMs := runningVMs - {id};
      return Deleted;
    }

    /** `cleanup`: a stop call on every registered machine, in the order the
        map is ranged over (returned as `order`, each identifier once). */
    method Cleanup() returns (order: seq<string>)
      requires Valid()
      modifies host
      ensures Valid() && host.machines == old(host.machines)
      ensures forall i, j :: 0 <= i < j < |order| ==> order[i] != order[j]
      ensures forall i :: 0 <= i < |order| ==> order[i] in runningVMs
      ensures forall id :: id in runningVMs ==> id in order
      ensures host.trace == old(host.trace) + Stops(order, runningVMs)
    {
      order := StopEach(host, runningVMs);
      RegisteredGrows(runningVMs, old(host.trace), Stops(order, runningVMs), host.machines, host.machines);
    }
  }

  /** The first create request gets byte 4 and so the guest address 172.17.0.4. */
  lemma FirstCreate()
    ensures ByteAfter(1) == 4
    ensures GuestIp(ByteAfter(1)) == "172.17.0.4"
  {
    assert ByteAfter(1) == 4;
    assert Decimal(172) == "172" && Decimal(17) == "17" && Decimal(0) == "0" && Decimal(4) == "4";
  }

  /** Any 256 consecutive create requests get pairwise distinct guest
      addresses, tap devices, sockets and MAC addresses. */
  lemma DistinctWithinWindow(i: nat, j: nat, ri: CreateRequest, rj: CreateRequest)
    requires i < j < i + 256
    ensures var oi, oj := GetOptions(ByteAfter(i), ri), GetOptions(ByteAfter(j), rj);
      && oi.fcIp != oj.fcIp
      && oi.tapDev != oj.tapDev
      && oi.fcSocketPath != oj.fcSocketPath
      && oi.tapMacAddr != oj.tapMacAddr
  {
    assert ByteAfter(i) != ByteAfter(j);
    IdentityInjective(ByteAfter(i), ByteAfter(j), ri, rj);
  }

  /** Request `k + 256` gets the same byte, so the same identity, as request `k`. */
  lemma WrapAliases(k: nat, req: CreateRequest)
    ensures ByteAfter(k + 256) == ByteAfter(k)
    ensures GetOptions(ByteAfter(k + 256), req) == GetOptions(ByteAfter(k), req)
  {
    assert ByteAfter(k + 256) == ByteAfter(k);
  }

  /** After wrapping, the counter hands out the subnet's broadcast address
      (request 252), its network address (request 253) and the gateway's own
      address (request 254) as guest addresses. */
  lemma WrapReachesReserved()
    ensures GuestIp(ByteAfter(252)) == Ipv4String(172, 17, 0, 255)
    ensures GuestIp(ByteAfter(253)) == Ipv4String(172, 17, 0, 0)
    ensures GuestIp(ByteAfter(254)) == GatewayIp
  {
    assert ByteAfter(252) == 255 && ByteAfter(253) == 0 && ByteAfter(254) == 1;
    FixedAddresses();
  }
}
