/** Reference parsers for every value `getOptions` renders, and the proofs
    that each value gives the allocation byte back (so distinct bytes give
    distinct values) and that the kernel command line's `ip=` parameter
    carries the guest address, gateway and netmask. */
module Identity {
  import opened Format
  import opened VmOptions

  // ---------------------------------------------------------------------
  // Reference parsers for the rendered values
  // ---------------------------------------------------------------------

  predicate IsNumeral(s: string) { |s| >= 1 && IsDigits(s) }

  /** The four octets of a dotted-quad IPv4 address. */
  function ParseIpv4(s: string): Option<seq<nat>>
  {
    var parts := Split(s, '.');
    if |parts| == 4 && IsNumeral(parts[0]) && IsNumeral(parts[1])
       && IsNumeral(parts[2]) && IsNumeral(parts[3])
    then Some([DecimalValue(parts[0]), DecimalValue(parts[1]),
               DecimalValue(parts[2]), DecimalValue(parts[3])])
    else None
  }

  predicate IsOctet(s: string) { |s| == 2 && IsHexDigit(s[0]) && IsHexDigit(s[1]) }

  function OctetValue(s: string): nat
    requires IsOctet(s)
  {
    16 * HexValue(s[0]) + HexValue(s[1])
  }

  /** The six octets of a colon-separated MAC address (either case). */
  function ParseMac(s: string): Option<seq<nat>>
  {
    var p := Split(s, ':');
    if |p| == 6 && IsOctet(p[0]) && IsOctet(p[1]) && IsOctet(p[2])
       && IsOctet(p[3]) && IsOctet(p[4]) && IsOctet(p[5])
    then Some([OctetValue(p[0]), OctetValue(p[1]), OctetValue(p[2]),
               OctetValue(p[3]), OctetValue(p[4]), OctetValue(p[5])])
    else None
  }

  /** The number in a name of the form `prefix` + numeral + `suffix`. */
  function NumberBetween(s: string, prefix: string, suffix: string): Option<nat>
  {
    if |s| >= |prefix| + |suffix| && s[..|prefix|] == prefix && s[|s| - |suffix|..] == suffix
       && IsNumeral(s[|prefix|..|s| - |suffix|])
    then Some(DecimalValue(s[|prefix|..|s| - |suffix|]))
    else None
  }

  /** `w` is a `key=value` kernel parameter for the given key. */
  predicate HasKey(w: string, key: string)
  {
    |w| > |key| && w[..|key|] == key && w[|key|] == '='
  }

  /** The value of the first `key=value` word of a kernel command line. */
  function ParamIn(words: seq<string>, key: string): Option<string>
  {
    if words == [] then None
    else if HasKey(words[0], key) then Some(words[0][|key| + 1..])
    else ParamIn(words[1..], key)
  }

  /** The colon-separated fields of the command line's `ip=` parameter. */
  function IpConfigFields(cmdLine: string): Option<seq<string>>
  {
    match ParamIn(Split(cmdLine, ' '), "ip")
    case None => None
    case Some(v) => Some(Split(v, ':'))
  }

  /** Two addresses are in one subnet: they agree on every octet the mask keeps. */
  predicate SameSubnet(a: seq<nat>, b: seq<nat>, mask: seq<nat>)
    requires |a| == |b| == |mask| == 4
  {
    forall i :: 0 <= i < 4 ==> (mask[i] == 255 ==> a[i] == b[i]) && (mask[i] == 255 || mask[i] == 0)
  }

  // ---------------------------------------------------------------------
  // Properties of GetOptions
  // ---------------------------------------------------------------------

  lemma {:induction false} Ipv4Fields(a: byte, b: byte, c: byte, d: byte)
    ensures Split(Ipv4String(a, b, c, d), '.') == [Decimal(a), Decimal(b), Decimal(c), Decimal(d)]
  {
    SplitWord(Decimal(d), '.', []);
    SplitWord(Decimal(c), '.', Decimal(d));
    SplitWord(Decimal(b), '.', Decimal(c) + "." + Decimal(d));
    SplitWord(Decimal(a), '.', Decimal(b) + "." + (Decimal(c) + "." + Decimal(d)));
  }

  /** Reading a rendered address back gives its four octets. */
  lemma Ipv4RoundTrip(a: byte, b: byte, c: byte, d: byte)
    ensures ParseIpv4(Ipv4String(a, b, c, d)) == Some([a, b, c, d])
  {
    Ipv4Fields(a, b, c, d);
    DecimalRoundTrip(a);
    DecimalRoundTrip(b);
    DecimalRoundTrip(c);
    DecimalRoundTrip(d);
  }

  /** The numerals of the fixed octets. */
  lemma FixedNumerals()
    ensures Decimal(0) == "0" && Decimal(1) == "1" && Decimal(17) == "17"
    ensures Decimal(172) == "172" && Decimal(255) == "255"
  {
    assert Decimal(17) == Decimal(1) + "7";
    assert Decimal(172) == Decimal(17) + "2";
    assert Decimal(25) == Decimal(2) + "5";
    assert Decimal(255) == Decimal(25) + "5";
  }

  /** The gateway and netmask literals are the dotted quads 172.17.0.1 and 255.255.255.0. */
  lemma FixedAddresses()
    ensures GatewayIp == Ipv4String(172, 17, 0, 1)
    ensures NetMask == Ipv4String(255, 255, 255, 0)
  {
    FixedNumerals();
  }

  lemma FixedOctets()
    ensures ParseIpv4(GatewayIp) == Some([172, 17, 0, 1])
    ensures ParseIpv4(NetMask) == Some([255, 255, 255, 0])
  {
    FixedAddresses();
    Ipv4RoundTrip(172, 17, 0, 1);
    Ipv4RoundTrip(255, 255, 255, 0);
  }

  /** The guest IP (`fcIp` of `GetOptions(n, _)`) lies in the /24 of the
      gateway that the command line names. */
  lemma GuestIpInGatewaySubnet(n: byte)
    ensures ParseIpv4(GuestIp(n)) == Some([172, 17, 0, n])
    ensures ParseIpv4(GatewayIp) == Some([172, 17, 0, 1])
    ensures ParseIpv4(NetMask) == Some([255, 255, 255, 0])
    ensures SameSubnet([172, 17, 0, n], [172, 17, 0, 1], [255, 255, 255, 0])
  {
    assert SameSubnet([172, 17, 0, n], [172, 17, 0, 1], [255, 255, 255, 0]);
    Ipv4RoundTrip(172, 17, 0, n);
    FixedOctets();
  }

  lemma MacFields(h: string)
    requires Free(h, ':')
    ensures Split(MacPrefix + h, ':') == ["02", "FC", "00", "00", "00", h]
  {
    assert Terminated(["02", "FC", "00", "00", "00"], ':') == MacPrefix;
    SplitTerminated(["02", "FC", "00", "00", "00"], h, ':');
  }

  /** The MAC address is 17 characters ending in two lower-case hexadecimal
      digits, and reads back as 02:FC:00:00:00 followed by the byte. */
  lemma MacOctets(n: byte, req: CreateRequest)
    ensures var mac := GetOptions(n, req).tapMacAddr;
      && |mac| == 17 && IsLowerHexDigit(mac[15]) && IsLowerHexDigit(mac[16])
      && ParseMac(mac) == Some([0x02, 0xFC, 0, 0, 0, n])
  {
    MacFields(Hex2(n, false));
  }

  lemma TapDevNumber(n: byte, req: CreateRequest)
    ensures NumberBetween(GetOptions(n, req).tapDev, TapPrefix, "") == Some(n)
  {
    var s := GetOptions(n, req).tapDev;
    assert s[|TapPrefix|..|s|] == Decimal(n);
    DecimalRoundTrip(n);
  }

  lemma SocketPathNumber(n: byte, req: CreateRequest)
    ensures NumberBetween(GetOptions(n, req).fcSocketPath, SocketPrefix, SocketSuffix) == Some(n)
  {
    var s := GetOptions(n, req).fcSocketPath;
    assert s[..|SocketPrefix|] == SocketPrefix;
    assert s[|s| - |SocketSuffix|..] == SocketSuffix;
    assert s[|SocketPrefix|..|s| - |SocketSuffix|] == Decimal(n);
    DecimalRoundTrip(n);
  }

  /** Distinct allocation bytes give distinct guest IPs, tap devices, socket
      paths and MAC addresses, whatever the requests. */
  lemma IdentityInjective(a: byte, b: byte, ra: CreateRequest, rb: CreateRequest)
    requires a != b
    ensures var oa, ob := GetOptions(a, ra), GetOptions(b, rb);
      && oa.fcIp != ob.fcIp
      && oa.tapDev != ob.tapDev
      && oa.fcSocketPath != ob.fcSocketPath
      && oa.tapMacAddr != ob.tapMacAddr
  {
    Ipv4RoundTrip(172, 17, 0, a);
    Ipv4RoundTrip(172, 17, 0, b);
    TapDevNumber(a, ra);
    TapDevNumber(b, rb);
    SocketPathNumber(a, ra);
    SocketPathNumber(b, rb);
    MacOctets(a, ra);
    MacOctets(b, rb);
  }

  /** A word list that has no `key=` word does not change the lookup. */
  lemma {:induction false} ParamInSkip(ws: seq<string>, rest: seq<string>, key: string)
    requires forall k :: 0 <= k < |ws| ==> !HasKey(ws[k], key)
    ensures ParamIn(ws + rest, key) == ParamIn(rest, key)
  {
    if ws == [] {
      assert ws + rest == rest;
    } else {
      assert (ws + rest)[1..] == ws[1..] + rest;
      ParamInSkip(ws[1..], rest, key);
    }
  }

  lemma BootParamsHaveNoIp()
    ensures forall k :: 0 <= k < |BootParams| ==> Free(BootParams[k], ' ') && !HasKey(BootParams[k], "ip")
  {
    forall k | 0 <= k < |BootParams|
      ensures Free(BootParams[k], ' ') && !HasKey(BootParams[k], "ip")
    {
      assert BootParams[k][0] != 'i';
    }
  }

  /** Four fields free of `sep`, joined by `sep`, split back into themselves. */
  lemma FourFields(d: string, e: string, f: string, g: string, sep: char)
    requires Free(d, sep) && Free(e, sep) && Free(f, sep) && Free(g, sep)
    ensures Split(d + [sep] + (e + [sep] + (f + [sep] + g)), sep) == [d, e, f, g]
  {
    SplitWord(g, sep, []);
    SplitWord(f, sep, g);
    SplitWord(e, sep, f + [sep] + g);
    SplitWord(d, sep, e + [sep] + (f + [sep] + g));
  }

  /** Three fields free of `sep`, each followed by `sep`, in front of `rest`. */
  lemma ThreeFieldsThen(a: string, b: string, c: string, rest: string, sep: char)
    requires Free(a, sep) && Free(b, sep) && Free(c, sep)
    ensures Split(a + [sep] + (b + [sep] + (c + [sep] + rest)), sep) == [a, b, c] + Split(rest, sep)
  {
    SplitWord(c, sep, rest);
    SplitWord(b, sep, c + [sep] + rest);
    SplitWord(a, sep, b + [sep] + (c + [sep] + rest));
  }

  /** Seven fields free of `sep`, joined by `sep`, split back into themselves. */
  lemma SevenFields(a: string, b: string, c: string, d: string, e: string, f: string, g: string, sep: char)
    requires Free(a, sep) && Free(b, sep) && Free(c, sep) && Free(d, sep)
    requires Free(e, sep) && Free(f, sep) && Free(g, sep)
    ensures Split(a + [sep] + (b + [sep] + (c + [sep] + (d + [sep] + (e + [sep] + (f + [sep] + g))))), sep)
         == [a, b, c, d, e, f, g]
  {
    FourFields(d, e, f, g, sep);
    ThreeFieldsThen(a, b, c, d + [sep] + (e + [sep] + (f + [sep] + g)), sep);
  }

  /** A rendered address has only digits and dots. */
  lemma Ipv4Chars(a: byte, b: byte, c: byte, d: byte)
    ensures Free(Ipv4String(a, b, c, d), ':') && Free(Ipv4String(a, b, c, d), ' ')
  {
    var s := Ipv4String(a, b, c, d);
    forall i | 0 <= i < |s| ensures s[i] == '.' || IsDigit(s[i]) {
    }
  }

  /** The `ip=` template as seven colon-separated fields, two of them empty. */
  lemma IpTemplateFields(ip: string, gw: string, mask: string, dev: string, auto: string)
    ensures ip + "::" + gw + ":" + mask + "::" + dev + ":" + auto
         == ip + [':'] + ("" + [':'] + (gw + [':'] + (mask + [':'] + ("" + [':'] + (dev + [':'] + auto)))))
  {
    assert "::" == [':'] + [':'];
  }

  lemma IpConfigFieldsOf(ip: string)
    requires Free(ip, ':')
    ensures Split(IpConfig(ip), ':') == [ip, "", GatewayIp, NetMask, "", GuestDevice, Autoconf]
  {
    IpTemplateFields(ip, GatewayIp, NetMask, GuestDevice, Autoconf);
    SevenFields(ip, "", GatewayIp, NetMask, "", GuestDevice, Autoconf, ':');
  }

  /** After the boot arguments, the `ip=` lookup sees only the last word. */
  lemma IpParamIsLastWord(w: string)
    requires Free(w, ' ')
    ensures ParamIn(Split(BootArgs + w, ' '), "ip") == ParamIn([w], "ip")
  {
    BootParamsHaveNoIp();
    TerminatedEight("ro", "console=ttyS0", "noapic", "reboot=k", "panic=1", "pci=off", "nomodules", "random.trust_cpu=on", ' ');
    assert Terminated(BootParams, ' ') == BootArgs;
    SplitTerminated(BootParams, w, ' ');
    ParamInSkip(BootParams, [w], "ip");
  }

  lemma ParamOfWord(v: string)
    ensures ParamIn(["ip=" + v], "ip") == Some(v)
  {
    var w := "ip=" + v;
    assert w[..2] == "ip" && w[2] == '=';
    assert w[3..] == v;
  }

  lemma CmdLineFields(ip: string)
    requires Free(ip, ':') && Free(ip, ' ')
    ensures IpConfigFields(BootArgs + ("ip=" + IpConfig(ip)))
         == Some([ip, "", GatewayIp, NetMask, "", GuestDevice, Autoconf])
  {
    var w := "ip=" + IpConfig(ip);
    assert Free(w, ' ');
    IpParamIsLastWord(w);
    ParamOfWord(IpConfig(ip));
    IpConfigFieldsOf(ip);
  }

  /** The kernel command line is the fixed boot arguments followed by the `ip=`
      parameter, whose client field is the guest IP and whose gateway, netmask,
      device and autoconfiguration fields are the fixed ones. */
  lemma CmdLineCarriesGuestIp(n: byte, req: CreateRequest)
    ensures var o := GetOptions(n, req);
      IpConfigFields(o.fcKernelCmdLine) == Some([o.fcIp, "", GatewayIp, NetMask, "", GuestDevice, Autoconf])
  {
    Ipv4Chars(172, 17, 0, n);
    CmdLineFields(GuestIp(n));
    var ip := GuestIp(n);
    assert BootArgs + "ip=" + IpConfig(ip) == BootArgs + ("ip=" + IpConfig(ip));
  }
}
