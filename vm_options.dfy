/** The per-instance network identity: `getOptions` turns the allocation
    byte into the guest IP, tap device, MAC address, control socket and the
    kernel command line that carries the guest's static IP configuration. */
module VmOptions {
  import opened Format

  const FirecrackerBinary: string := "/home/ubuntu/firecracker/firecracker"
  const KernelImage: string := "/home/ubuntu/.ops/nightly/kernel.img"
  const GatewayIp: string := "172.17.0.1"
  const NetMask: string := "255.255.255.0"
  const GuestDevice: string := "eth0"
  const Autoconf: string := "off"
  const CpuCount: int := 1
  const MemSizeMib: int := 512

  /** The kernel parameters `getOptions` places before `ip=`. */
  const BootParams: seq<string> :=
    ["ro", "console=ttyS0", "noapic", "reboot=k", "panic=1", "pci=off", "nomodules", "random.trust_cpu=on"]
  /** The same parameters as one string, each followed by a space. */
  const BootArgs: string :=
    "ro" + " " + ("console=ttyS0" + " " + ("noapic" + " " + ("reboot=k" + " " + ("panic=1" + " "
      + ("pci=off" + " " + ("nomodules" + " " + ("random.trust_cpu=on" + " ")))))))

  const TapPrefix: string := "fc-tap-"
  const SocketPrefix: string := "/tmp/firecracker-"
  const SocketSuffix: string := ".sock"
  const MacPrefix: string := "02:FC:00:00:00:"

  /** The decoded body of a create request. */
  datatype CreateRequest = CreateRequest(rootDrivePath: string)

  /** The option record; `id` and `ipId` are never set by `getOptions` and
      keep Go's zero values. */
  datatype Options = Options(
    id: string,
    ipId: byte,
    fcBinary: string,
    fcKernelImage: string,
    fcKernelCmdLine: string,
    fcRootDrivePath: string,
    fcSocketPath: string,
    tapMacAddr: string,
    tapDev: string,
    fcCpuCount: int,
    fcMemSz: int,
    fcIp: string)

  /** `net.IPv4(a, b, c, d).String()`: the dotted-decimal form of an IPv4 address. */
  function Ipv4String(a: byte, b: byte, c: byte, d: byte): (s: string)
    ensures |s| >= 7
    ensures forall i :: 0 <= i < |s| ==> s[i] == '.' || IsDigit(s[i])
  {
    Decimal(a) + "." + (Decimal(b) + "." + (Decimal(c) + "." + Decimal(d)))
  }

  /** The guest address for allocation byte `n`. */
  function GuestIp(n: byte): string { Ipv4String(172, 17, 0, n) }

  /** The value of the `ip=` kernel parameter: client, server, gateway, netmask,
      hostname, device and autoconfiguration fields, separated by colons. */
  function IpConfig(ip: string): string
  {
    ip + "::" + GatewayIp + ":" + NetMask + "::" + GuestDevice + ":" + Autoconf
  }

  /** The options for allocation byte `n`. The request supplies only the
      root drive; `id` and `ipId` are never set; the command line starts with
      the fixed boot parameters. The per-byte values are characterised by the
      lemmas of module `Identity`. */
  function GetOptions(n: byte, req: CreateRequest): (o: Options)
    ensures o.id == "" && o.ipId == 0
    ensures o.fcRootDrivePath == req.rootDrivePath
    ensures o.fcBinary == FirecrackerBinary && o.fcKernelImage == KernelImage
    ensures o.fcCpuCount == CpuCount && o.fcMemSz == MemSizeMib
    ensures |o.fcKernelCmdLine| > |BootArgs| && o.fcKernelCmdLine[..|BootArgs|] == BootArgs
  {
    var ip := GuestIp(n);
    Options(
      id := "",
      ipId := 0,
      fcBinary := FirecrackerBinary,
      fcKernelImage := KernelImage,
      fcKernelCmdLine := BootArgs + "ip=" + IpConfig(ip),
      fcRootDrivePath := req.rootDrivePath,
      fcSocketPath := SocketPrefix + Decimal(n) + SocketSuffix,
      tapMacAddr := MacPrefix + Hex2(n, false),
      tapDev := TapPrefix + Decimal(n),
      fcCpuCount := CpuCount,
      fcMemSz := MemSizeMib,
      fcIp := ip)
  }
}
