# fc-ex orchestrator: a verified model

`fc-ex` is a small HTTP service that starts and stops Firecracker micro-VMs.
A create request advances a global allocation byte and derives a network
identity from it: guest IP, tap device, MAC address, control socket and
kernel command line. It then prepares the host's tap device in a fixed
sequence of privileged commands, creates and starts the machine, names it
with a random identifier, and records it in a registry. A delete request
stops one registered machine and forgets it. Cleanup stops every registered
machine. Every started machine also gets a signal handler that maps
interrupt and termination to a clean shutdown, and quit to a forced stop.

The model has these modules:

- `Format` (`format.dfy`): the text rendering the program relies on.
  - Go's `byte`.
  - Decimal numerals, as `%d` and `net.IP.String` print them.
  - Two-digit hexadecimal, as `%02x` and `%X` print it.
  - Splitting on a separator, used by the reference parsers.
- `VmOptions` (`vm_options.dfy`): `getOptions` as a pure function of the
  allocation byte and the decoded request, with the program's constants.
- `Identity` (`identity.dfy`): reference parsers for each rendered value, and
  the proofs that every value gives the byte back. As a result, distinct
  bytes give distinct identities. Also the proof that the kernel command
  line's `ip=` parameter carries the guest IP, gateway and netmask.
- `Identifier` (`identifier.dfy`): `pseudo_uuid` over sixteen given bytes,
  its shape, and its inverse.
- `HostOps` (`host.dfy`): the host as a class. Commands and hypervisor calls
  are opaque operations. A fixed set of them fail, and every operation
  issued is appended to a trace. Machines are numbered in order of creation.
- `Provision` (`provision.dfy`): `createVMM` as a straight-line method with
  early returns. It is proved against `Plan`, the ordered list of
  operations, and `FirstFailure`, which picks the step that decides the
  attempt.
- `Signals` (`signals.dfy`): the handler's dispatch, and its loop over the
  signals delivered to it.
- `Service` (`service.dfy`): the handlers over the global state, as the
  class `Orchestrator`.
  - Fields: `ipByte` and `runningVMs`.
  - Operations: `Create`, `Delete` and `Cleanup`.
  - Invariant: the counter equals `ByteAfter(creates)`. Every registered
    machine has been started, and no machine is registered twice.

The counter starts at 3 and is incremented before use, so the first create
gets byte 4 and guest IP 172.17.0.4 (`Service.FirstCreate`).

## Model

| member | source | states |
|---|---|---|
| Format.Decimal | main.go:131-133 | a byte's `%d` numeral is non-empty, all digits, without a leading zero |
| Format.DecimalRoundTrip | main.go:121-133 | reading a decimal numeral back gives the number it was printed from |
| Format.Hex2 | main.go:132 | `%02x` of a byte is exactly two hexadecimal digits, high nibble first, whose value is the byte; lower-case unless upper case is asked for |
| Format.HexUpper | main.go:117 | `%X` of a byte slice is two upper-case hexadecimal digits per byte |
| Format.HexUpperRoundTrip | main.go:117 | reading `%X` output back in pairs gives the original bytes |
| VmOptions.Ipv4String | main.go:121 | `net.IP.String` of an IPv4 address is at least seven characters, all digits and dots |
| VmOptions.GetOptions | main.go:120-137 | the request chooses only the root drive. Binary, kernel, one CPU and 512 MiB are fixed, and `id`/`ipId` keep their zero values. The kernel command line starts with the fixed boot parameters |
| Identity.Ipv4RoundTrip | main.go:121 | the dotted-decimal form of `net.IPv4(a, b, c, d)` parses back to the octets a, b, c, d |
| Identity.FixedAddresses | main.go:122-123 | the gateway and mask literals are the dotted quads 172.17.0.1 and 255.255.255.0 |
| Identity.GuestIpInGatewaySubnet | main.go:121-123 | the guest IP is 172.17.0.n; it lies in the /24 of the gateway, under the netmask the command line names |
| Identity.MacOctets | main.go:132 | the MAC address is 17 characters long and ends in two lower-case hex digits; it reads back as 02:FC:00:00:00 followed by the byte |
| Identity.TapDevNumber | main.go:133 | the tap device is `fc-tap-` followed by the byte's decimal numeral |
| Identity.SocketPathNumber | main.go:131 | the socket path is `/tmp/firecracker-`, the byte's decimal numeral, then `.sock` |
| Identity.IdentityInjective | main.go:120-137 | distinct bytes give distinct guest IPs, tap devices, socket paths and MAC addresses |
| Identity.BootParamsHaveNoIp | main.go:124 | none of the fixed boot parameters contains a space or is an `ip=` parameter |
| Identity.IpParamIsLastWord | main.go:124-125 | after the fixed boot parameters, the `ip=` lookup sees only the appended word |
| Identity.CmdLineCarriesGuestIp | main.go:121-129 | the `ip=` parameter of the kernel command line has seven fields. The client field is the guest IP (`FcIP`). Then come an empty server, gateway 172.17.0.1, mask 255.255.255.0, an empty hostname, device eth0 and autoconf off |
| Identifier.PseudoUuid | main.go:109-117 | the identifier is 36 characters with dashes at positions 8, 13, 18 and 23 |
| Identifier.UuidShape | main.go:117 | the identifier is 36 characters long. Dashes sit at positions 8, 13, 18 and 23, and every other character is an upper-case hex digit |
| Identifier.UuidRoundTrip | main.go:111-117 | parsing the identifier's 4-2-2-2-6 byte groups gives back the sixteen random bytes |
| Identifier.UuidInjective | main.go:111-117 | distinct random bytes give distinct identifiers |
| HostOps.Host.Run | main.go:162-181 | running a command appends it to the trace; it succeeds exactly when the host does not fail it |
| HostOps.Host.CreateMachine | main.go:183-186 | `NewMachine` is recorded. On success it returns a fresh machine bound to the socket; on failure it returns no machine |
| Provision.FirstFailure | main.go:163-190 | the deciding step is the first failing step at or after the start, or the end of the plan when none fails |
| Provision.CreateVmm | main.go:162-197 | the operations issued are the plan up to and including the first failing step after step 0, in order. The result is that step's error, or the started machine. A machine is created only when the five checked commands (`ip tuntap add`, `rm`, `ip link set up` and both `sysctl` calls) and `NewMachine` succeed; the stale-link deletion may fail |
| Provision.FailsAt | main.go:163-190 | when step k is the first failure after step 0, the attempt issues steps 0..k and reports step k's error |
| Provision.Succeeds | main.go:183-197 | when no step after step 0 fails, the whole plan is issued and the started machine is returned |
| Provision.Plan | main.go:162-190 | the attempt is eight operations: six host commands, then `NewMachine` on the socket, then `Start` of the machine it made; no later step repeats the stale-link deletion |
| Provision.Attempted | main.go:162-190 | the operations issued are a prefix of the plan of at least two steps. No step strictly between the first and the last fails, and a prefix that stops short of the end stops at a failing step |
| Provision.Outcome | main.go:162-197 | an attempt succeeds exactly when every step after step 0 succeeds, and then it returns the machine made on the options' socket |
| Provision.Message | main.go:164-189 | every error text starts with `Failed` |
| Provision.MessagesAmbiguous | main.go:163-172 | two errors have the same text exactly when they are the same error, or the failures of `ip tuntap add` and `ip link set up`, which share "Failed creating ip link" |
| Provision.FirstStepIgnored | main.go:162 | whether the stale-link deletion fails changes neither the operations issued nor the outcome |
| Provision.StartsWhatItReturns | main.go:188-197 | a returned machine is one whose start was issued |
| Signals.Classify | main.go:252-259 | SIGTERM and interrupt map to a clean shutdown; SIGQUIT, and only SIGQUIT, maps to a forced stop |
| Signals.Reactions | main.go:251-259 | one reaction per received signal, each a `Shutdown` or a `StopVMM` of the handler's machine |
| Signals.ReactionsAt | main.go:251-259 | one call per received signal, in order: a stop for each quit request, a shutdown request for every other signal |
| Signals.ServeSignals | main.go:251-260 | the handler loop issues exactly the reactions to the received signals |
| Service.ByteAfter | main.go:43-76 | after k requests the byte is 3 + k while that stays below 256, and k - 253 in the first wrap |
| Service.ByteStep | main.go:76 | each request advances the allocation byte by one modulo 256 |
| Service.FirstCreate | main.go:76 | starting from 3, the first create gets byte 4 and guest IP 172.17.0.4 |
| Service.DistinctWithinWindow | main.go:76-83 | any two of 256 consecutive create requests get distinct IPs, tap devices, sockets and MACs |
| Service.WrapAliases | main.go:76 | request k + 256 gets the same byte, so the same identity, as request k |
| Service.WrapReachesReserved | main.go:76 | after wrapping, requests 252, 253 and 254 get 172.17.0.255 (broadcast), 172.17.0.0 (network) and the gateway's own address |
| Service.RegisteredInsert | main.go:101 | registering the freshly started machine keeps every registered machine started and distinct, even when the identifier replaces an entry |
| Service.StopEach | main.go:54-56 | the loop visits each key of the registry once, issues one stop per key on that key's machine in the order visited, and creates no machine |
| Service.StopsAt | main.go:53-57 | cleanup issues one stop per visited identifier, on that identifier's machine |
| Service.StopsEveryEntry | main.go:53-57 | when the visit covers every key, every registered machine is stopped |
| Service.Orchestrator.constructor | main.go:42-43 | the program starts with byte 3 and an empty registry |
| Service.Orchestrator.Create | main.go:75-107 | the counter advances first, modulo 256. `createVMM` runs on the options for the new byte. An error is fatal with that error's message, and a random-source failure is fatal. Otherwise the response carries `FcIP` and the identifier, and exactly that entry is inserted. One machine is created exactly when `NewMachine` is reached and succeeds. The invariant is kept |
| Service.Orchestrator.Launch | main.go:84-101 | after the options are derived: provision, draw the identifier, answer and register, or stop at the first fatal error; the host's machine count grows by one exactly when `NewMachine` succeeds |
| Service.Orchestrator.Delete | main.go:59-73 | a present identifier's machine is stopped and only that entry is removed. A missing identifier reaches a nil machine and changes nothing. No machine is created |
| Service.Orchestrator.Cleanup | main.go:53-57 | each registered identifier is visited exactly once, and a stop is issued on its machine, in the order visited. No machine is created and the invariant is kept |

## Left out

- The HTTP server, routing, request-body reading and JSON are not modelled. The handlers take the decoded request. An unreadable body (a fatal error) is not modelled. A body that fails to decode leaves the zero request, which callers can pass as an empty root-drive path. Marshalling the response cannot fail for this record.
- `deleteRequestHandler` checks the stale read error a second time after decoding. That check cannot fire once the body was read, so it is not modelled.
- Host commands (`ip`, `rm`, `sysctl`) and the Firecracker SDK (`NewMachine`, `Start`, `StopVMM`, `Shutdown`) are opaque operations. Only their order and their success or failure are modelled. Host networking itself is not modelled.
- The command builder and the configuration record built by `getConfig` only feed `NewMachine`. That record is not modelled. The `Id` and `IpId` options are fields of `Options` that `getOptions` never sets, so they keep their zero values.
- The exit-watcher goroutine, contexts and cancellation are not modelled.
- Handlers run concurrently in the program. Here they run one at a time, so the unsynchronised access to `ipByte` and `runningVMs` is not modelled.
- `crypto/rand` is a parameter. `None` stands for a failed read.
- `log.Fatalf` becomes a `Fatal` outcome carrying the error's text, without the wrapped cause. The process exit that follows is not modelled. Because of that exit, `main`'s deferred cleanup never runs when the server stops. `Cleanup` is modelled as an operation on its own.
- Go does not fix the order in which a map is ranged over. `Cleanup` picks the next identifier arbitrarily and returns the order it used.
- Signals.ServeSignals: models a finite prefix of the signals delivered. The source's loop never ends. The goroutine and channel are not modelled. Each new machine's handler calls `signal.Reset`, so only the latest handler receives signals; that interplay is not modelled. The log messages name the wrong signals (a quit request is logged as SIGTERM); logging is not modelled.
- Machine serial numbers are a modelling device. They identify the handle `NewMachine` returns, so the registry can be shown to hold distinct machines.
- The boot-argument constant is written as the eight parameters, each followed by a space. This is the same string as the source's literal.
