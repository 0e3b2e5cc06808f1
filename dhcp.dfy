/**
  dhcp.py: the address arithmetic of `ip_expr` and `Dnsmasq_base._gateway`, the
  per-network names, paths and argv of a dnsmasq instance, the pid-file guard in
  front of `kill`, and the edits of the `mac,ip` hosts file.
 */
module Dhcp {
  import opened Wrappers
  import opened Text
  import opened Config
  import opened Inet
  import Lists

  /** What the Python code raises (or, for `MissingNetUid`, the `TypeError` of
      concatenating `False` or `None` to a string). */
  datatype DhcpError = BadAddress | InvalidMask | HostBitsSet | Overflow | MissingNetUid | BadPid

  // ---------------------------------------------------------------- address blocks

  function Pow2(n: nat): (p: nat)
    ensures p >= 1
  {
    if n == 0 then 1 else 2 * Pow2(n - 1)
  }

  /** A prefix length IPy accepts for IPv4. */
  predicate ValidMask(mask: int) {
    0 <= mask <= 32
  }

  /** `2 ** (32 - mask)`: how many addresses a block with this prefix length holds. */
  function BlockSize(mask: int): (n: nat)
    requires ValidMask(mask)
    ensures n >= 1
  {
    Pow2(32 - mask)
  }

  /** `x` with its `n` lowest bits cleared: `x & ~(2 ** n - 1)`. */
  function ClearLow(x: nat, n: nat): (r: nat)
    ensures r <= x < r + Pow2(n)
  {
    if n == 0 then x else 2 * ClearLow(x / 2, n - 1)
  }

  /** The host bits of `net`, the low `32 - mask` ones, are all zero. */
  predicate IsNetwork(net: int, mask: int)
    requires ValidMask(mask)
  {
    net >= 0 && ClearLow(net, 32 - mask) == net
  }

  /** `net` is a network address of the prefix length, and its block holds `ip`. */
  predicate InBlock(ip: int, net: int, mask: int)
    requires ValidMask(mask)
  {
    IsNetwork(net, mask) && net <= ip < net + BlockSize(mask)
  }

  lemma {:induction false} Pow2Add(a: nat, b: nat)
    ensures Pow2(a) * Pow2(b) == Pow2(a + b)
  {
    if a > 0 {
      Pow2Add(a - 1, b);
      assert Pow2(a) * Pow2(b) == 2 * (Pow2(a - 1) * Pow2(b));
    }
  }

  lemma Pow2Of32()
    ensures Pow2(32) == AddrCount
  {
    assert Pow2(8) == 256;
    Pow2Add(8, 8);
    Pow2Add(16, 16);
  }

  /** Clearing the same bits twice clears nothing more. */
  lemma {:induction false} ClearLowIdempotent(x: nat, n: nat)
    ensures ClearLow(ClearLow(x, n), n) == ClearLow(x, n)
  {
    if n > 0 {
      var c := ClearLow(x / 2, n - 1);
      ClearLowIdempotent(x / 2, n - 1);
      assert (2 * c) / 2 == c;
    }
  }

  /** A value with its low `n` bits clear is the one such value at most `2 ** n` below
      each address above it. */
  lemma {:induction false} ClearLowUnique(x: nat, y: nat, n: nat)
    requires ClearLow(y, n) == y && y <= x < y + Pow2(n)
    ensures ClearLow(x, n) == y
  {
    if n > 0 {
      assert (2 * ClearLow(y / 2, n - 1)) / 2 == ClearLow(y / 2, n - 1);
      ClearLowUnique(x / 2, y / 2, n - 1);
    }
  }

  /** A block of `2 ** n` addresses that starts on a multiple of its size inside
      `2 ** t` values, for `n <= t`, ends inside them too. */
  lemma {:induction false} AlignedFits(x: nat, n: nat, t: nat)
    requires n <= t && ClearLow(x, n) == x && x < Pow2(t)
    ensures x + Pow2(n) <= Pow2(t)
  {
    if n > 0 {
      assert (2 * ClearLow(x / 2, n - 1)) / 2 == ClearLow(x / 2, n - 1);
      AlignedFits(x / 2, n - 1, t - 1);
    }
  }

  /** A block starting at a network address ends inside the address space. */
  lemma BlockFits(net: Addr, mask: int)
    requires ValidMask(mask) && IsNetwork(net, mask)
    ensures net + BlockSize(mask) <= AddrCount
  {
    Pow2Of32();
    AlignedFits(net, 32 - mask, 32);
  }

  /** Each address lies in exactly one block of a prefix length. */
  lemma BlockUnique(ip: int, x: int, y: int, mask: int)
    requires ValidMask(mask) && InBlock(ip, x, mask) && InBlock(ip, y, mask)
    ensures x == y
  {
    ClearLowUnique(ip, x, 32 - mask);
    ClearLowUnique(ip, y, 32 - mask);
  }

  /** `IP(ip).make_net(mask)`: the block of the prefix length that holds `ip`; IPy
      rejects a prefix length outside 0..32 with `ValueError`. */
  function MakeNet(ip: Addr, mask: int): (r: Result<Addr, DhcpError>)
    ensures r.Success? <==> ValidMask(mask)
    ensures r.Success? ==> InBlock(ip, r.value, mask)
  {
    if !ValidMask(mask) then Failure(InvalidMask)
    else
      ClearLowIdempotent(ip, 32 - mask);
      Success(ClearLow(ip, 32 - mask))
  }

  /** Clearing the host bits of a network address changes nothing. */
  lemma MakeNetIdempotent(ip: Addr, mask: int)
    requires ValidMask(mask)
    ensures MakeNet(MakeNet(ip, mask).value, mask) == MakeNet(ip, mask)
  {
    ClearLowIdempotent(ip, 32 - mask);
  }

  /** The last address of the block of `2 ** (32 - mask)` addresses starting at `net`. */
  function LastAddr(net: int, mask: int): int
    requires ValidMask(mask)
  {
    net + BlockSize(mask) - 1
  }

  /** `IP('%s/%s' % (network, mask)).broadcast()`: the last address of the block
      `network` starts; IPy refuses a network with host bits set (`ValueError`). */
  function Broadcast(network: Addr, mask: int): (r: Result<Addr, DhcpError>)
    ensures r.Success? <==> ValidMask(mask) && IsNetwork(network, mask)
    ensures r.Success? ==> InBlock(r.value, network, mask) && !InBlock(r.value + 1, network, mask)
  {
    if !ValidMask(mask) then Failure(InvalidMask)
    else if ClearLow(network, 32 - mask) != network then Failure(HostBitsSet)
    else
      BlockFits(network, mask);
      Success(LastAddr(network, mask))
  }

  /** `socket.inet_ntoa(struct.pack('I', socket.htonl(v)))`: the dotted quad of `v`;
      `htonl` raises `OverflowError` when `v` does not fit 32 bits. */
  function FormatHostInt(v: int): (r: Result<string, DhcpError>)
    ensures r.Success? <==> 0 <= v < AddrCount
  {
    var n := Htonl(v);
    if n.None? then Failure(Overflow) else Success(InetNtoa(PackNative(n.value)))
  }

  /** The text `FormatHostInt` prints names the value it was given. */
  lemma FormatHostIntNames(v: int)
    requires 0 <= v < AddrCount
    ensures FormatHostInt(v) == Success(Dotted(v))
  {
    FormatHostValue(v);
  }

  // ---------------------------------------------------------------- ip_expr

  /** An `ip_expr` once its constructor has run: the address text and prefix length it
      was given and every attribute the constructor fills in. */
  datatype IpExpr = IpExpr(
    ip: string, mask: int,
    network: string, broadcast: int, netInt: int,
    dhcpListenAddr: string, availableIps: int, gateway: string)

  /** `get_network`: `str(IP(ip).make_net(mask)).split('/')[0]`. */
  function GetNetwork(ip: Option<string>, mask: int): (r: Result<string, DhcpError>)
    ensures r.Success? ==> ip.Some? && IpyAddr(ip.value).Some? && ValidMask(mask)
  {
    var text :- if ip.None? then Failure(BadAddress) else Success(ip.value);
    var addr := IpyAddr(text);
    if addr.None? then Failure(BadAddress)
    else
      var net :- MakeNet(addr.value, mask);
      Success(Dotted(net))
  }

  /** `get_broadcast`: `IP('{}/{}'.format(network, mask)).broadcast()`. */
  function GetBroadcast(network: string, mask: int): Result<Addr, DhcpError> {
    var addr := IpyAddr(network);
    if addr.None? then Failure(BadAddress) else Broadcast(addr.value, mask)
  }

  /** `get_net_int`: `socket.ntohl(struct.unpack("I", socket.inet_aton(network))[0])`. */
  function GetNetInt(network: string): Result<Addr, DhcpError> {
    var b := InetAton(network);
    if b.None? then Failure(BadAddress) else Success(ByteSwap(UnpackNative(b.value)))
  }

  /** `get_dhcp_listen_addr`: the address after the network's. */
  function GetDhcpListenAddr(netInt: int): Result<string, DhcpError> {
    FormatHostInt(netInt + 1)
  }

  /** `get_available_ips`: `2 ** (32 - mask) - 2`. */
  function GetAvailableIps(mask: int): (n: int)
    requires ValidMask(mask)
    ensures n + 2 == BlockSize(mask)
  {
    Pow2(32 - mask) - 2
  }

  /** `get_gateway`: the network address plus the number of usable addresses. */
  function GetGateway(netInt: int, availableIps: int): Result<string, DhcpError> {
    FormatHostInt(netInt + availableIps)
  }

  /** The host-order value `get_gateway` formats: `net_int + available_ips`. */
  function GatewayValue(netInt: int, mask: int): int
    requires ValidMask(mask)
  {
    netInt + GetAvailableIps(mask)
  }

  /** `ip_expr(ip, mask)`: the constructor calls the getters in this order, each on the
      attributes the earlier ones set. */
  function NewIpExpr(ip: string, mask: int): Result<IpExpr, DhcpError> {
    var network :- GetNetwork(Some(ip), mask);
    var broadcast :- GetBroadcast(network, mask);
    var netInt :- GetNetInt(network);
    var listen :- GetDhcpListenAddr(netInt);
    var available := GetAvailableIps(mask);
    var gateway :- GetGateway(netInt, available);
    Success(IpExpr(ip, mask, network, broadcast, netInt, listen, available, gateway))
  }

  /** The network text names the block holding the address, and reads back as that block. */
  lemma NetworkNamesBlock(ip: string, mask: int)
    requires GetNetwork(Some(ip), mask).Success?
    ensures var a := IpyAddr(ip).value;
            var net := MakeNet(a, mask).value;
            GetNetwork(Some(ip), mask).value == Dotted(net) &&
            IpyAddr(Dotted(net)) == Some(net) && InBlock(a, net, mask) &&
            GetNetwork(Some(Dotted(net)), mask) == GetNetwork(Some(ip), mask)
  {
    var net := MakeNet(IpyAddr(ip).value, mask).value;
    IpyDotted(net);
    MakeNetIdempotent(IpyAddr(ip).value, mask);
  }

  /** `get_network` on text IPy reads as an IPv4 address names the block holding the address. */
  lemma NetworkStep(ip: string, mask: int)
    requires IpyAddr(ip).Some? && ValidMask(mask)
    ensures GetNetwork(Some(ip), mask) == Success(Dotted(MakeNet(IpyAddr(ip).value, mask).value))
  {
  }

  /** `get_broadcast` on the text of a network address is the last address of its block. */
  lemma BroadcastStep(net: Addr, mask: int)
    requires ValidMask(mask) && IsNetwork(net, mask)
    ensures net + BlockSize(mask) <= AddrCount
    ensures GetBroadcast(Dotted(net), mask) == Success(LastAddr(net, mask))
  {
    IpyDotted(net);
    BlockFits(net, mask);
  }

  /** `get_net_int` on the text of an address is the address. */
  lemma NetIntStep(net: Addr)
    ensures GetNetInt(Dotted(net)) == Success(net)
  {
    InetAtonNtoa(NetworkBytes(net));
    HostOrderValue(net);
  }

  /** The host-order values `ip_expr` formats stay inside 32 bits except at the two ends
      of the address space with a /32 prefix. */
  lemma HostValuesFit(net: Addr, mask: int)
    requires ValidMask(mask) && IsNetwork(net, mask)
    ensures 0 <= net + 1 < AddrCount <==> !(mask == 32 && net == AddrCount - 1)
    ensures 0 <= net + BlockSize(mask) - 2 < AddrCount <==> !(mask == 32 && net == 0)
    ensures mask <= 30 ==> BlockSize(mask) >= 4
  {
    BlockFits(net, mask);
    if mask < 32 {
      assert BlockSize(mask) == 2 * Pow2(31 - mask);
    }
    if mask <= 30 {
      assert BlockSize(mask) == 4 * Pow2(30 - mask);
    }
  }

  /** Once every getter's result is known, the constructor stores exactly those results. */
  lemma AssembleIpExpr(ip: string, mask: int, network: string, broadcast: int, netInt: int, listen: string, gateway: string)
    requires ValidMask(mask)
    requires GetNetwork(Some(ip), mask) == Success(network)
    requires GetBroadcast(network, mask) == Success(broadcast)
    requires GetNetInt(network) == Success(netInt)
    requires GetDhcpListenAddr(netInt) == Success(listen)
    requires GetGateway(netInt, GetAvailableIps(mask)) == Success(gateway)
    ensures NewIpExpr(ip, mask) == Success(IpExpr(ip, mask, network, broadcast, netInt, listen, GetAvailableIps(mask), gateway))
  {
  }

  /** When formatting the listen address overflows, the constructor raises that error. */
  lemma ListenOverflows(ip: string, mask: int, network: string, broadcast: int, netInt: int)
    requires ValidMask(mask)
    requires GetNetwork(Some(ip), mask) == Success(network)
    requires GetBroadcast(network, mask) == Success(broadcast)
    requires GetNetInt(network) == Success(netInt)
    requires GetDhcpListenAddr(netInt).Failure?
    ensures NewIpExpr(ip, mask) == Failure(Overflow)
  {
  }

  /** When formatting the gateway overflows, the constructor raises that error. */
  lemma GatewayOverflows(ip: string, mask: int, network: string, broadcast: int, netInt: int)
    requires ValidMask(mask)
    requires GetNetwork(Some(ip), mask) == Success(network)
    requires GetBroadcast(network, mask) == Success(broadcast)
    requires GetNetInt(network) == Success(netInt)
    requires GetDhcpListenAddr(netInt).Success?
    requires GetGateway(netInt, GetAvailableIps(mask)).Failure?
    ensures NewIpExpr(ip, mask) == Failure(Overflow)
  {
  }

  /** `get_dhcp_listen_addr` of an integer whose successor fits names that successor. */
  lemma ListenStep(netInt: int)
    requires 0 <= netInt + 1 < AddrCount
    ensures GetDhcpListenAddr(netInt) == Success(Dotted(netInt + 1))
  {
    FormatHostIntNames(netInt + 1);
  }

  /** `get_gateway` of an integer that stays inside 32 bits names that address. */
  lemma GatewayStep(netInt: int, mask: int)
    requires ValidMask(mask) && 0 <= GatewayValue(netInt, mask) < AddrCount
    ensures GetGateway(netInt, GetAvailableIps(mask)) == Success(Dotted(GatewayValue(netInt, mask)))
  {
    GatewayFormats(netInt, mask);
    FormatHostIntNames(GatewayValue(netInt, mask));
  }

  /** `get_gateway` formats the gateway value. */
  lemma GatewayFormats(netInt: int, mask: int)
    requires ValidMask(mask)
    ensures GetGateway(netInt, GetAvailableIps(mask)) == FormatHostInt(GatewayValue(netInt, mask))
  {
  }

  /** `get_gateway` of an integer that falls below zero raises `OverflowError`. */
  lemma GatewayBelowZero(netInt: int, mask: int)
    requires ValidMask(mask) && GatewayValue(netInt, mask) < 0
    ensures GetGateway(netInt, GetAvailableIps(mask)).Failure?
  {
  }

  /** The addresses behind an `ip_expr`: the first and last address of the block, the
      listen address, the number of usable hosts and the gateway. */
  datatype Block = Block(network: int, broadcast: int, listen: int, available: int, gateway: int)

  /** What `ip_expr(ip, mask)` is meant to hold, as addresses rather than the text round
      trips the constructor performs: the block holding the address, its last address,
      the address after the network, the usable host count and the address that many
      after the network. The two /32 blocks at the ends of the address space, whose
      neighbour leaves 32 bits, fail as `htonl` does. */
  function BlockOf(ip: string, mask: int): (r: Result<Block, DhcpError>)
    ensures r.Success? ==> 0 <= r.value.network < AddrCount && 0 <= r.value.listen < AddrCount &&
                           0 <= r.value.gateway < AddrCount
  {
    if IpyAddr(ip).None? then Failure(BadAddress)
    else if !ValidMask(mask) then Failure(InvalidMask)
    else if MakeNet(IpyAddr(ip).value, mask).value + 1 >= AddrCount then Failure(Overflow)
    else if GatewayValue(MakeNet(IpyAddr(ip).value, mask).value, mask) < 0 then Failure(Overflow)
    else
      var net := MakeNet(IpyAddr(ip).value, mask).value;
      BlockFits(net, mask);
      Success(Block(net, LastAddr(net, mask), net + 1, GetAvailableIps(mask), GatewayValue(net, mask)))
  }

  /** The `ip_expr` attributes for a block: every address attribute as its dotted quad. */
  function Render(ip: string, mask: int, b: Block): IpExpr
    requires 0 <= b.network < AddrCount && 0 <= b.listen < AddrCount && 0 <= b.gateway < AddrCount
  {
    IpExpr(ip, mask, Dotted(b.network), b.broadcast, b.network, Dotted(b.listen), b.available, Dotted(b.gateway))
  }

  /** The reference `ip_expr`: the block's addresses, rendered. */
  function IpExprOf(ip: string, mask: int): Result<IpExpr, DhcpError> {
    var b :- BlockOf(ip, mask);
    Success(Render(ip, mask, b))
  }

  /** The successful case of `NewIpExprIsReference`. */
  lemma IpExprSucceeds(ip: string, mask: int, net: Addr)
    requires IpyAddr(ip).Some? && ValidMask(mask)
    requires net == MakeNet(IpyAddr(ip).value, mask).value
    requires 0 <= net + 1 < AddrCount && 0 <= GatewayValue(net, mask) < AddrCount
    ensures NewIpExpr(ip, mask) ==
              Success(IpExpr(ip, mask, Dotted(net), LastAddr(net, mask), net, Dotted(net + 1),
                             GetAvailableIps(mask), Dotted(GatewayValue(net, mask))))
  {
    NetworkStep(ip, mask);
    BroadcastStep(net, mask);
    NetIntStep(net);
    ListenStep(net);
    GatewayStep(net, mask);
    AssembleIpExpr(ip, mask, Dotted(net), LastAddr(net, mask), net, Dotted(net + 1), Dotted(GatewayValue(net, mask)));
  }

  /** `ip_expr` on unreadable text or an invalid prefix length fails as the reference does. */
  lemma BadInputCase(ip: string, mask: int)
    requires !(IpyAddr(ip).Some? && ValidMask(mask))
    ensures NewIpExpr(ip, mask) == IpExprOf(ip, mask)
  {
  }

  /** The reference block of an address whose listen address and gateway fit. */
  lemma FittingBlock(ip: string, mask: int, net: Addr)
    requires IpyAddr(ip).Some? && ValidMask(mask)
    requires net == MakeNet(IpyAddr(ip).value, mask).value
    requires net + 1 < AddrCount && 0 <= GatewayValue(net, mask)
    ensures BlockOf(ip, mask) ==
              Success(Block(net, LastAddr(net, mask), net + 1, GetAvailableIps(mask), GatewayValue(net, mask)))
  {
  }

  /** The reference `ip_expr` of an address whose listen address and gateway fit. */
  lemma FittingRender(ip: string, mask: int, net: Addr)
    requires ValidMask(mask) && net + 1 < AddrCount && 0 <= GatewayValue(net, mask) < AddrCount
    requires BlockOf(ip, mask) ==
               Success(Block(net, LastAddr(net, mask), net + 1, GetAvailableIps(mask), GatewayValue(net, mask)))
    ensures IpExprOf(ip, mask) ==
              Success(IpExpr(ip, mask, Dotted(net), LastAddr(net, mask), net, Dotted(net + 1),
                             GetAvailableIps(mask), Dotted(GatewayValue(net, mask))))
  {
  }

  /** `ip_expr` on a block whose listen address and gateway fit agrees with the reference. */
  lemma FittingCase(ip: string, mask: int, net: Addr)
    requires IpyAddr(ip).Some? && ValidMask(mask)
    requires net == MakeNet(IpyAddr(ip).value, mask).value
    requires net + 1 < AddrCount && 0 <= GatewayValue(net, mask)
    ensures NewIpExpr(ip, mask) == IpExprOf(ip, mask)
  {
    BlockFits(net, mask);
    IpExprSucceeds(ip, mask, net);
    FittingBlock(ip, mask, net);
    FittingRender(ip, mask, net);
  }

  /** `ip_expr` on the last /32 block raises `OverflowError` on the listen address, as
      the reference fails. */
  lemma ListenOverflowCase(ip: string, mask: int, net: Addr)
    requires IpyAddr(ip).Some? && ValidMask(mask)
    requires net == MakeNet(IpyAddr(ip).value, mask).value
    requires net + 1 >= AddrCount
    ensures NewIpExpr(ip, mask) == Failure(Overflow)
  {
    NetworkStep(ip, mask);
    BroadcastStep(net, mask);
    NetIntStep(net);
    ListenOverflows(ip, mask, Dotted(net), LastAddr(net, mask), net);
  }

  /** `ip_expr` on the first /32 block raises `OverflowError` on the gateway, as the
      reference fails. */
  lemma GatewayOverflowCase(ip: string, mask: int, net: Addr)
    requires IpyAddr(ip).Some? && ValidMask(mask)
    requires net == MakeNet(IpyAddr(ip).value, mask).value
    requires net + 1 < AddrCount && GatewayValue(net, mask) < 0
    ensures NewIpExpr(ip, mask) == Failure(Overflow)
  {
    NetworkStep(ip, mask);
    BroadcastStep(net, mask);
    NetIntStep(net);
    ListenStep(net);
    GatewayBelowZero(net, mask);
    GatewayOverflows(ip, mask, Dotted(net), LastAddr(net, mask), net);
  }

  /** `ip_expr(ip, mask)`, with its text round trips through `inet_aton`, `struct`,
      `ntohl`/`htonl` and `inet_ntoa`, computes exactly the reference attributes, and
      fails exactly where and as the reference does. */
  lemma NewIpExprIsReference(ip: string, mask: int)
    ensures NewIpExpr(ip, mask) == IpExprOf(ip, mask)
  {
    if !(IpyAddr(ip).Some? && ValidMask(mask)) {
      BadInputCase(ip, mask);
    } else {
      var net := MakeNet(IpyAddr(ip).value, mask).value;
      if net + 1 >= AddrCount {
        ListenOverflowCase(ip, mask, net);
      } else if GatewayValue(net, mask) < 0 {
        GatewayOverflowCase(ip, mask, net);
      } else {
        FittingCase(ip, mask, net);
      }
    }
  }

  /** `ip_expr` fails exactly on text IPy does not read as an IPv4 address, a prefix
      length outside 0..32, and the two /32 addresses whose neighbour leaves 32 bits. */
  lemma BlockFails(ip: string, mask: int)
    ensures BlockOf(ip, mask).Success? <==>
              IpyAddr(ip).Some? && ValidMask(mask) &&
              !(mask == 32 && (IpyAddr(ip).value == 0 || IpyAddr(ip).value == AddrCount - 1))
    ensures IpyAddr(ip).None? ==> BlockOf(ip, mask) == Failure(BadAddress)
    ensures IpyAddr(ip).Some? && !ValidMask(mask) ==> BlockOf(ip, mask) == Failure(InvalidMask)
  {
    if IpyAddr(ip).Some? && ValidMask(mask) {
      var net := MakeNet(IpyAddr(ip).value, mask).value;
      HostValuesFit(net, mask);
      if mask == 32 {
        assert BlockSize(mask) == 1 && net == IpyAddr(ip).value;
      }
    }
  }

  /** What the addresses of an `ip_expr` mean: the network is the block holding the
      address, the broadcast is the block's last address, the listen address follows the
      network, `available_ips` is the block size less the network and broadcast addresses,
      the gateway is `available_ips` after the network and one before the broadcast, and
      for prefix lengths up to 30 the listen address and the gateway are usable hosts
      strictly inside the block. */
  lemma BlockSpec(ip: string, mask: int)
    requires BlockOf(ip, mask).Success?
    ensures var b := BlockOf(ip, mask).value;
            var a := IpyAddr(ip).value;
            InBlock(a, b.network, mask) &&
            InBlock(b.broadcast, b.network, mask) && !InBlock(b.broadcast + 1, b.network, mask) &&
            b.listen == b.network + 1 &&
            b.available + 2 == BlockSize(mask) &&
            b.gateway == b.network + b.available && b.gateway == b.broadcast - 1 &&
            (mask <= 30 ==> b.network < b.listen < b.gateway < b.broadcast)
  {
    var net := MakeNet(IpyAddr(ip).value, mask).value;
    HostValuesFit(net, mask);
  }

  /** The network text of an `ip_expr` reads back as the block's first address, and
      recomputing the network from that text gives the same text. */
  lemma NetworkTextRoundTrip(ip: string, mask: int)
    requires BlockOf(ip, mask).Success?
    ensures var e := IpExprOf(ip, mask).value;
            IpyAddr(e.network) == Some(e.netInt) &&
            GetNetwork(Some(e.network), mask) == Success(e.network)
  {
    var net := MakeNet(IpyAddr(ip).value, mask).value;
    IpyDotted(net);
    NetworkFixed(net, mask);
  }

  // ---------------------------------------------------------------- Dnsmasq_base

  /** A `Dnsmasq_base` object: the fields its constructor stores, never changed later. */
  datatype Dnsmasq = Dnsmasq(
    ip: Option<string>, mask: int, mac: Option<string>,
    netUid: Option<string>, namespace: Option<string>)

  /** `_network_uid`: the identifier's leading characters, None when it is missing or empty. */
  function NetworkUid(d: Dnsmasq): (r: Option<string>)
    ensures r.Some? <==> Truthy(d.netUid)
  {
    if Truthy(d.netUid) then Some(UidPrefix(d.netUid.value)) else None
  }

  /** `_mkdir_full_path`: the per-network state directory with a trailing separator,
      False (None) without an identifier. */
  function ConfigDir(d: Dnsmasq): Option<string> {
    var uid := NetworkUid(d);
    if uid.None? then None else Some(DhcpConfigFilePrefix + uid.value + "/")
  }

  /** `_mkdir_full_path + name`, which raises `TypeError` when the directory is False. */
  function StateFile(d: Dnsmasq, name: string): Result<string, DhcpError> {
    var dir := ConfigDir(d);
    if dir.None? then Failure(MissingNetUid) else Success(dir.value + name)
  }

  /** `_host` */
  function HostPath(d: Dnsmasq): Result<string, DhcpError> {
    StateFile(d, DhcpHost)
  }

  /** `_pid_file` */
  function PidFilePath(d: Dnsmasq): Result<string, DhcpError> {
    StateFile(d, DhcpPidName)
  }

  /** `_leases_file` */
  function LeasesPath(d: Dnsmasq): Result<string, DhcpError> {
    StateFile(d, DhcpLeasesName)
  }

  /** `_vm_dhcp_path`: the state directory without its separator, False (None) without
      an identifier. */
  function VmDhcpPath(d: Dnsmasq): Option<string> {
    var uid := NetworkUid(d);
    if uid.None? then None else Some(DhcpConfigFilePrefix + uid.value)
  }

  /** `_interface`: `"dhcp" + _network_uid`, a `TypeError` when that is None. */
  function Interface(d: Dnsmasq): Result<string, DhcpError> {
    var uid := NetworkUid(d);
    if uid.None? then Failure(MissingNetUid) else Success(NsDhcpInterfacePrefix + uid.value)
  }

  /** `_network` */
  function DnsmasqNetwork(d: Dnsmasq): Result<string, DhcpError> {
    GetNetwork(d.ip, d.mask)
  }

  /** `_gateway`: recomputes the network from the `_network` text, then adds the usable
      host count. Its `not self._network` guard never fires: the network text is a
      non-empty dotted quad. */
  function DnsmasqGateway(d: Dnsmasq): Result<string, DhcpError> {
    var network :- DnsmasqNetwork(d);
    var again :- GetNetwork(Some(network), d.mask);
    var availed := GetAvailableIps(d.mask);
    var dhcpInt :- GetNetInt(again);
    GetGateway(dhcpInt, availed)
  }

  /** `_gateway` once the network text, its recomputation and its bytes are known. */
  lemma GatewayFromNetwork(d: Dnsmasq, network: string, netInt: int)
    requires ValidMask(d.mask)
    requires DnsmasqNetwork(d) == Success(network)
    requires GetNetwork(Some(network), d.mask) == Success(network)
    requires GetNetInt(network) == Success(netInt)
    ensures DnsmasqGateway(d) == GetGateway(netInt, GetAvailableIps(d.mask))
  {
  }

  /** The text of a network address is its own network. */
  lemma NetworkFixed(net: Addr, mask: int)
    requires ValidMask(mask) && IsNetwork(net, mask)
    ensures GetNetwork(Some(Dotted(net)), mask) == Success(Dotted(net))
  {
    IpyDotted(net);
  }

  /** `_gateway` of a readable address formats the block's network address plus the
      usable host count: the recomputation of the network from its own text and the
      byte round trip change nothing. */
  lemma DnsmasqGatewayValue(d: Dnsmasq, net: Addr)
    requires d.ip.Some? && IpyAddr(d.ip.value).Some? && ValidMask(d.mask)
    requires net == MakeNet(IpyAddr(d.ip.value).value, d.mask).value
    ensures DnsmasqGateway(d) == GetGateway(net, GetAvailableIps(d.mask))
  {
    NetworkStep(d.ip.value, d.mask);
    NetworkFixed(net, d.mask);
    NetIntStep(net);
    GatewayFromNetwork(d, Dotted(net), net);
  }

  /** The gateway of the reference `ip_expr` of a block whose gateway fits. */
  lemma ReferenceGateway(ip: string, mask: int, net: Addr)
    requires IpExprOf(ip, mask).Success?
    requires net == MakeNet(IpyAddr(ip).value, mask).value
    ensures 0 <= GatewayValue(net, mask) < AddrCount
    ensures IpExprOf(ip, mask).value.gateway == Dotted(GatewayValue(net, mask))
  {
  }

  /** Whenever `ip_expr(ip, mask)` succeeds, `Dnsmasq_base._gateway` of an object with
      that address and prefix length names the same gateway (`ip_expr` computes the
      reference attributes, by `NewIpExprIsReference`). */
  lemma GatewaysAgree(d: Dnsmasq)
    requires d.ip.Some? && IpExprOf(d.ip.value, d.mask).Success?
    ensures DnsmasqGateway(d) == Success(IpExprOf(d.ip.value, d.mask).value.gateway)
  {
    ReferenceGateway(d.ip.value, d.mask, MakeNet(IpyAddr(d.ip.value).value, d.mask).value);
    DnsmasqGatewayValue(d, MakeNet(IpyAddr(d.ip.value).value, d.mask).value);
    GatewayStep(MakeNet(IpyAddr(d.ip.value).value, d.mask).value, d.mask);
  }

  /** `Dnsmsq_cmd`: under any namespace at all, the command runs in the network's own
      `qdhcp-` namespace. */
  function DnsmsqCmd(d: Dnsmasq, args: seq<string>): Result<seq<string>, DhcpError> {
    if Truthy(d.namespace) then
      var uid := NetworkUid(d);
      if uid.None? then Failure(MissingNetUid)
      else Success(["ip", "netns", "exec", NsDhcpPrefix + uid.value] + args)
    else Success(args)
  }

  /** The command list `spawn_process` builds, before `Dnsmsq_cmd` prefixes it. */
  function DnsmasqArgs(iface: string, host: string, pidFile: string, network: string,
                       gateway: string, leases: string): seq<string> {
    [ "dnsmasq",
      "--no-hosts",
      "--no-resolv",
      "--strict-order",
      "--bind-interfaces",
      "--interface=" + iface,
      "--dhcp-hostsfile=" + host,
      "--except-interface=lo",
      "--pid-file=" + pidFile,
      "--dhcp-range=tag0," + network + ",static,infinite",
      "--dhcp-option=3," + gateway,
      "--dhcp-no-override",
      "--dhcp-leasefile=" + leases ]
  }

  /** `spawn_process`: the dnsmasq command line, its arguments evaluated in list order. */
  function SpawnArgv(d: Dnsmasq): Result<seq<string>, DhcpError> {
    var iface :- Interface(d);
    var host :- HostPath(d);
    var pidFile :- PidFilePath(d);
    var network :- DnsmasqNetwork(d);
    var gateway :- DnsmasqGateway(d);
    var leases :- LeasesPath(d);
    DnsmsqCmd(d, DnsmasqArgs(iface, host, pidFile, network, gateway, leases))
  }

  /** Every per-network name comes from the identifier's first ten characters: the three
      state files are distinct files of one directory, and the interface and the
      namespace carry the same prefix; without an identifier all of them fail. */
  lemma PerNetworkNames(d: Dnsmasq)
    ensures NetworkUid(d).None? ==>
              HostPath(d).Failure? && PidFilePath(d).Failure? && LeasesPath(d).Failure? &&
              Interface(d).Failure? && VmDhcpPath(d).None?
    ensures NetworkUid(d).Some? ==>
              var p := UidPrefix(d.netUid.value);
              var dir := DhcpConfigFilePrefix + p + "/";
              VmDhcpPath(d) == Some(DhcpConfigFilePrefix + p) &&
              HostPath(d) == Success(dir + "host") &&
              PidFilePath(d) == Success(dir + "pid") &&
              LeasesPath(d) == Success(dir + "leases") &&
              Interface(d) == Success("dhcp" + p) &&
              HostPath(d) != PidFilePath(d) && PidFilePath(d) != LeasesPath(d) &&
              HostPath(d) != LeasesPath(d)
  {
    if NetworkUid(d).Some? {
      var dir := DhcpConfigFilePrefix + UidPrefix(d.netUid.value) + "/";
      assert (dir + "host")[|dir|] == 'h';
      assert (dir + "pid")[|dir|] == 'p';
      assert (dir + "leases")[|dir|] == 'l';
    }
  }

  /** Which namespace value is set does not matter, only that one is. */
  lemma DnsmsqCmdNamespace(d: Dnsmasq, ns: string, args: seq<string>)
    requires ns != "" && Truthy(d.namespace)
    ensures DnsmsqCmd(d.(namespace := Some(ns)), args) == DnsmsqCmd(d, args)
    ensures DnsmsqCmd(d.(namespace := None), args) == Success(args)
    ensures NetworkUid(d).Some? ==>
              DnsmsqCmd(d, args) == Success(["ip", "netns", "exec", "qdhcp-" + UidPrefix(d.netUid.value)] + args)
  {
  }

  /** `spawn_process` once every name it carries is known passes exactly those names. */
  lemma SpawnArgvFields(d: Dnsmasq, iface: string, host: string, pidFile: string, network: string,
                        gateway: string, leases: string)
    requires Interface(d) == Success(iface) && HostPath(d) == Success(host)
    requires PidFilePath(d) == Success(pidFile) && DnsmasqNetwork(d) == Success(network)
    requires DnsmasqGateway(d) == Success(gateway) && LeasesPath(d) == Success(leases)
    ensures SpawnArgv(d) == DnsmsqCmd(d, DnsmasqArgs(iface, host, pidFile, network, gateway, leases))
  {
  }

  /** With an identifier, `Dnsmsq_cmd` keeps the command whole after a namespace prefix
      of four words, or no prefix without a namespace. */
  lemma CommandKept(d: Dnsmasq, args: seq<string>)
    requires NetworkUid(d).Some?
    ensures DnsmsqCmd(d, args).Success?
    ensures var argv := DnsmsqCmd(d, args).value;
            var n := if Truthy(d.namespace) then 4 else 0;
            |argv| == n + |args| && argv[n..] == args &&
            (n == 4 ==> argv[..4] == ["ip", "netns", "exec", "qdhcp-" + NetworkUid(d).value])
  {
  }

  /** The dnsmasq argv for given names: the fixed flags in their order, each name after
      its flag, under the namespace prefix when one is set. */
  lemma CommandFields(d: Dnsmasq, iface: string, host: string, pidFile: string, network: string,
                      gateway: string, leases: string)
    requires NetworkUid(d).Some?
    ensures DnsmsqCmd(d, DnsmasqArgs(iface, host, pidFile, network, gateway, leases)).Success?
    ensures var argv := DnsmsqCmd(d, DnsmasqArgs(iface, host, pidFile, network, gateway, leases)).value;
            var n := if Truthy(d.namespace) then 4 else 0;
            |argv| == n + 13 && argv[n] == "dnsmasq" &&
            (n == 4 ==> argv[..4] == ["ip", "netns", "exec", "qdhcp-" + NetworkUid(d).value]) &&
            argv[n + 5] == "--interface=" + iface &&
            argv[n + 6] == "--dhcp-hostsfile=" + host &&
            argv[n + 8] == "--pid-file=" + pidFile &&
            argv[n + 9] == "--dhcp-range=tag0," + network + ",static,infinite" &&
            argv[n + 10] == "--dhcp-option=3," + gateway &&
            argv[n + 12] == "--dhcp-leasefile=" + leases
  {
    CommandKept(d, DnsmasqArgs(iface, host, pidFile, network, gateway, leases));
  }

  /** A spawned dnsmasq listens on the network's `dhcp` interface, keeps its files in
      the network's directory (see `PerNetworkNames`), serves the block holding the
      object's address and hands out as the router the address `available_ips` after
      the network, the one before its broadcast (see `BlockSpec`); under a namespace, the
      argv is prefixed by the four words entering the network's own namespace. */
  lemma SpawnServesBlock(d: Dnsmasq)
    requires SpawnArgv(d).Success?
    ensures d.ip.Some? && IpyAddr(d.ip.value).Some? && ValidMask(d.mask) && NetworkUid(d).Some?
    ensures var argv := SpawnArgv(d).value;
            var net := MakeNet(IpyAddr(d.ip.value).value, d.mask).value;
            var n := if Truthy(d.namespace) then 4 else 0;
            |argv| == n + 13 && argv[n] == "dnsmasq" &&
            (n == 4 ==> argv[..4] == ["ip", "netns", "exec", "qdhcp-" + NetworkUid(d).value]) &&
            argv[n + 5] == "--interface=" + Interface(d).value &&
            argv[n + 6] == "--dhcp-hostsfile=" + HostPath(d).value &&
            argv[n + 8] == "--pid-file=" + PidFilePath(d).value &&
            argv[n + 9] == "--dhcp-range=tag0," + Dotted(net) + ",static,infinite" &&
            0 <= GatewayValue(net, d.mask) < AddrCount &&
            argv[n + 10] == "--dhcp-option=3," + Dotted(GatewayValue(net, d.mask)) &&
            argv[n + 12] == "--dhcp-leasefile=" + LeasesPath(d).value
  {
    SpawnServesBlockAt(d, MakeNet(IpyAddr(d.ip.value).value, d.mask).value);
  }

  /** `SpawnServesBlock` for the block's network address. */
  lemma SpawnServesBlockAt(d: Dnsmasq, net: Addr)
    requires SpawnArgv(d).Success?
    requires d.ip.Some? && IpyAddr(d.ip.value).Some? && ValidMask(d.mask)
    requires net == MakeNet(IpyAddr(d.ip.value).value, d.mask).value
    ensures NetworkUid(d).Some?
    ensures var argv := SpawnArgv(d).value;
            var n := if Truthy(d.namespace) then 4 else 0;
            |argv| == n + 13 && argv[n] == "dnsmasq" &&
            (n == 4 ==> argv[..4] == ["ip", "netns", "exec", "qdhcp-" + NetworkUid(d).value]) &&
            argv[n + 5] == "--interface=" + Interface(d).value &&
            argv[n + 6] == "--dhcp-hostsfile=" + HostPath(d).value &&
            argv[n + 8] == "--pid-file=" + PidFilePath(d).value &&
            argv[n + 9] == "--dhcp-range=tag0," + Dotted(net) + ",static,infinite" &&
            0 <= GatewayValue(net, d.mask) < AddrCount &&
            argv[n + 10] == "--dhcp-option=3," + Dotted(GatewayValue(net, d.mask)) &&
            argv[n + 12] == "--dhcp-leasefile=" + LeasesPath(d).value
  {
    NetworkStep(d.ip.value, d.mask);
    DnsmasqGatewayValue(d, net);
    GatewayStep(net, d.mask);
    SpawnArgvFields(d, Interface(d).value, HostPath(d).value, PidFilePath(d).value, Dotted(net),
                    Dotted(GatewayValue(net, d.mask)), LeasesPath(d).value);
    CommandFields(d, Interface(d).value, HostPath(d).value, PidFilePath(d).value, Dotted(net),
                  Dotted(GatewayValue(net, d.mask)), LeasesPath(d).value);
  }

  // ---------------------------------------------------------------- the pid file

  /** `_pid`, given what the pid file holds (None: no such file): no pid (None) for a
      missing or empty file, else `int()` of the text, whose `ValueError` escapes. The
      path itself needs the identifier. */
  function Pid(d: Dnsmasq, pidFile: Option<string>): Result<Option<int>, DhcpError> {
    var _ :- PidFilePath(d);
    if pidFile.None? || pidFile.value == "" then Success(None)
    else
      var v := ParseInt(pidFile.value);
      if v.None? then Failure(BadPid) else Success(Some(v.value))
  }

  /** `kill_process` (signal `-9`) and `reload_process` (signal `-HUP`): the command they
      run, None when `_pid` is falsy. */
  function SignalCommand(signal: string, d: Dnsmasq, pidFile: Option<string>): Result<Option<seq<string>>, DhcpError> {
    var pid :- Pid(d, pidFile);
    if pid.Some? && pid.value != 0 then Success(Some(["kill " + signal + " " + IntToString(pid.value)]))
    else Success(None)
  }

  /** A signal is sent exactly when the pid file exists and holds a non-zero integer, and
      the command names that integer. */
  lemma SignalGuard(signal: string, d: Dnsmasq, pidFile: Option<string>)
    ensures (SignalCommand(signal, d, pidFile).Success? && SignalCommand(signal, d, pidFile).value.Some?) <==>
              PidFilePath(d).Success? && pidFile.Some? && pidFile.value != "" &&
              ParseInt(pidFile.value).Some? && ParseInt(pidFile.value).value != 0
    ensures SignalCommand(signal, d, pidFile).Success? && SignalCommand(signal, d, pidFile).value.Some? ==>
              var cmd := SignalCommand(signal, d, pidFile).value.value;
              |cmd| == 1 && StartsWith(cmd[0], "kill " + signal + " ") &&
              ParseInt(cmd[0][|signal| + 6..]) == ParseInt(pidFile.value)
  {
    if SignalCommand(signal, d, pidFile).Success? && SignalCommand(signal, d, pidFile).value.Some? {
      var v := ParseInt(pidFile.value).value;
      var prefix := "kill " + signal + " ";
      var cmd := prefix + IntToString(v);
      assert cmd[..|prefix|] == prefix;
      assert cmd[|signal| + 6..] == IntToString(v);
      IntToStringParses(v);
    }
  }

  // ---------------------------------------------------------------- the hosts file

  /** `'%s' % value`: None prints as `None`. */
  function PyStr(o: Option<string>): string {
    if o.None? then "None" else o.value
  }

  /** The binding `write_host_info` appends: the object's own mac and ip, not the arguments. */
  function HostLine(d: Dnsmasq): (line: string)
    ensures StartsWith(line, PyStr(d.mac)) && |line| > 0 && line[|line| - 1] == '\n'
  {
    var line := PyStr(d.mac) + "," + PyStr(d.ip) + "\n";
    assert line[..|PyStr(d.mac)|] == PyStr(d.mac);
    line
  }

  /** Whether `remove_vm_host_info` keeps a line: it does not start with the mac. */
  function KeepHostLine(mac: string): string -> bool {
    line => !StartsWith(line, mac)
  }

  /** The lines `remove_vm_host_info` writes back for a mac, in their order. */
  function KeptHostLines(content: string, mac: string): seq<string> {
    Lists.Filter(ReadLines(content), KeepHostLine(mac))
  }

  /** The hosts file after `remove_vm_host_info` for a mac. */
  function WithoutHost(content: string, mac: string): string {
    Concat(KeptHostLines(content, mac))
  }

  /** The lines kept are exactly the lines not starting with the mac. */
  lemma KeptHostLinesSpec(content: string, mac: string)
    ensures forall line :: line in KeptHostLines(content, mac) <==>
              line in ReadLines(content) && !StartsWith(line, mac)
  {
    Lists.FilterMembers(ReadLines(content), KeepHostLine(mac));
  }

  /** Removing a mac right after appending one line for it restores a file that ended
      with a newline and held no line for that mac. */
  lemma RemoveAppendedLine(content: string, line: string, mac: string)
    requires content == "" || content[|content| - 1] == '\n'
    requires line != "" && line[|line| - 1] == '\n'
    requires forall k :: 0 <= k < |line| - 1 ==> line[k] != '\n'
    requires StartsWith(line, mac)
    requires forall k :: 0 <= k < |ReadLines(content)| ==> !StartsWith(ReadLines(content)[k], mac)
    ensures WithoutHost(content + line, mac) == content
  {
    ReadLinesAppend(content, line);
    assert KeptHostLines(content + line, mac) == Lists.Filter(ReadLines(content) + [line], KeepHostLine(mac));
    Lists.FilterAppend(ReadLines(content), [line], KeepHostLine(mac));
    Lists.FilterKeepsAll(ReadLines(content), KeepHostLine(mac));
    assert Lists.Filter([line], KeepHostLine(mac)) == [];
    assert ReadLines(content) + [] == ReadLines(content);
    ConcatReadLines(content);
  }

  /** `write_host_info`'s binding is one line when neither the mac nor the ip holds a newline. */
  lemma HostLineIsOneLine(d: Dnsmasq)
    requires '\n' !in PyStr(d.mac) && '\n' !in PyStr(d.ip)
    ensures forall k :: 0 <= k < |HostLine(d)| - 1 ==> HostLine(d)[k] != '\n'
  {
  }

  /** Appending a binding and removing its mac again restores a hosts file that ended
      with a newline and held no line for that mac. */
  lemma WriteThenRemove(content: string, d: Dnsmasq)
    requires content == "" || content[|content| - 1] == '\n'
    requires d.mac.Some? && '\n' !in d.mac.value && '\n' !in PyStr(d.ip)
    requires forall k :: 0 <= k < |ReadLines(content)| ==> !StartsWith(ReadLines(content)[k], d.mac.value)
    ensures WithoutHost(content + HostLine(d), d.mac.value) == content
  {
    HostLineIsOneLine(d);
    RemoveAppendedLine(content, HostLine(d), d.mac.value);
  }

  /** The `mac,ip` bindings file of one network, as its text. */
  class HostsFile {
    var content: string

    constructor (content: string)
      ensures this.content == content
    {
      this.content := content;
    }

    /** `write_host_info(ip, mac)`: with both arguments truthy, appends the object's own
        binding and then reloads dnsmasq (the reload command is returned); an exception
        on the way (no identifier for the path, an unreadable pid) is caught and printed. */
    method WriteHostInfo(d: Dnsmasq, ip: Option<string>, mac: Option<string>, pidFile: Option<string>)
      returns (reload: Option<seq<string>>)
      modifies this
      ensures Truthy(ip) && Truthy(mac) && HostPath(d).Success? ==>
                content == old(content) + HostLine(d)
      ensures !(Truthy(ip) && Truthy(mac) && HostPath(d).Success?) ==>
                content == old(content) && reload == None
      ensures Truthy(ip) && Truthy(mac) && HostPath(d).Success? ==>
                reload == (if SignalCommand("-HUP", d, pidFile).Success? then SignalCommand("-HUP", d, pidFile).value else None)
    {
      reload := None;
      if Truthy(ip) && Truthy(mac) {
        if HostPath(d).Failure? {
          return;
        }
        content := content + HostLine(d);
        var cmd := SignalCommand("-HUP", d, pidFile);
        if cmd.Success? {
          reload := cmd.value;
        }
      }
    }

    /** `remove_vm_host_info`: rewrites the file keeping the lines that do not start with
        the object's mac. Without an identifier the path raises, and a None mac raises at
        the first line; either way the file is left as it was. */
    method RemoveVmHostInfo(d: Dnsmasq) returns (raised: bool)
      modifies this
      ensures raised <==> HostPath(d).Failure? || (d.mac.None? && ReadLines(old(content)) != [])
      ensures raised ==> content == old(content)
      ensures !raised && d.mac.Some? ==> content == WithoutHost(old(content), d.mac.value)
      ensures !raised && d.mac.None? ==> content == old(content)
    {
      if HostPath(d).Failure? {
        return true;
      }
      var lines := ReadLines(content);
      var flines: seq<string> := [];
      for i := 0 to |lines|
        invariant content == old(content)
        invariant d.mac.None? ==> i == 0 && flines == []
        invariant d.mac.Some? ==> flines == Lists.Filter(lines[..i], KeepHostLine(d.mac.value))
      {
        if d.mac.None? {
          return true;
        }
        var keep := KeepHostLine(d.mac.value);
        assert lines[..i + 1] == lines[..i] + [lines[i]];
        Lists.FilterAppend(lines[..i], [lines[i]], keep);
        if StartsWith(lines[i], d.mac.value) {
          continue;
        }
        flines := flines + [lines[i]];
      }
      assert lines[..|lines|] == lines;
      if d.mac.None? {
        ConcatReadLines(content);
      }
      content := Concat(flines);
      raised := false;
    }
  }
}
