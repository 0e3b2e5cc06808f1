/**
  encapsulation.py: the verbs the rest of the system calls to plumb a virtual
  machine's port, a network's DHCP server and a tenant router, and to remove them
  again. Each verb is a fixed sequence of commands chosen by its flags; here it is a
  method that records, in order, what it asks of the host (`Actions.Host`). Return
  values are ignored, so a step that fails does not stop the later ones.

  `Net.Replay` gives the recorded commands a meaning, against which each clean verb
  is shown to undo its create verb.
 */
module Encapsulation {
  import opened Wrappers
  import opened Text
  import opened Config
  import opened Actions
  import opened Net
  import LinuxBridge
  import Ovs
  import IpLib
  import Dhcp
  import Ipset
  import Iptables
  import Firewall
  import Lists

  /** `BaseOVS(VM_bridge_Name)`: every verb's ports go on `br0`. */
  const VmBridge := Ovs.BaseOvs(VmBridgeName)
  /** The longest Linux device name: IFNAMSIZ less the terminating NUL. */
  const MaxDeviceNameLen: nat := 15

  // ---------------------------------------------------------------- names

  /** The VM's own interface, attached to OVS directly when there is no security group. */
  function VmPortName(portUid: string): (name: string)
    ensures |name| <= MaxDeviceNameLen
  {
    VmPortPrefix + UidPrefix(portUid)
  }

  /** The per-port Linux bridge the security-group rules see the traffic on. */
  function BridgeName(portUid: string): (name: string)
    ensures |name| <= MaxDeviceNameLen
  {
    BridgeNamePrefix + UidPrefix(portUid)
  }

  /** The bridge end of the veth pair. */
  function BridgePortName(portUid: string): (name: string)
    ensures |name| <= MaxDeviceNameLen
  {
    VmBridgePortPrefix + UidPrefix(portUid)
  }

  /** The OVS end of the veth pair. */
  function OvsPortName(portUid: string): (name: string)
    ensures |name| <= MaxDeviceNameLen
  {
    VmOvsPortPrefix + UidPrefix(portUid)
  }

  /** `get_ipset_chain_name(port_uid)`, which is None for an empty uid. */
  function IpsetName(portUid: string): string
    requires portUid != ""
  {
    Ipset.GetIpsetChainName(Some(portUid)).value
  }

  /** The namespace of a network's DHCP server: the one given when it is truthy,
      `qdhcp-<net_uid[:10]>` otherwise. Never empty, so the `if dhcp_ns_name` guard
      of `create_vm_dhcp` always holds. */
  function DhcpNamespace(netUid: string, namespace: Option<string>): (ns: string)
    ensures ns != ""
    ensures !Truthy(namespace) ==> StartsWith(ns, NsDhcpPrefix)
  {
    if Truthy(namespace) then namespace.value else NsDhcpPrefix + UidPrefix(netUid)
  }

  /** The DHCP server's listening port. */
  function DhcpPortName(netUid: string): (name: string)
    ensures |name| <= MaxDeviceNameLen
  {
    NsDhcpInterfacePrefix + UidPrefix(netUid)
  }

  /** A router's namespace: the one given when it is truthy, `l3_ns-<l3_uid[:10]>` otherwise. */
  function L3Namespace(l3Uid: string, namespace: Option<string>): (ns: string)
    ensures ns != ""
    ensures !Truthy(namespace) ==> StartsWith(ns, L3NamespacePrefix)
  {
    if Truthy(namespace) then namespace.value else L3NamespacePrefix + UidPrefix(l3Uid)
  }

  /** The router's port on the VM network, named after the network. */
  function L3VmPortName(netUid: string): (name: string)
    ensures |name| <= MaxDeviceNameLen
  {
    L3VmPortPrefix + UidPrefix(netUid)
  }

  /** The router's port on the student network, named after the router. */
  function L3StuPortName(l3Uid: string): (name: string)
    ensures |name| <= MaxDeviceNameLen
  {
    L3StuPortPrefix + UidPrefix(l3Uid)
  }

  /** Two different prefixes never give the same name; one prefix gives the same name
      exactly for the same identifier prefix. */
  lemma PrefixedNames(pre: string, p1: string, p2: string)
    ensures pre + p1 == pre + p2 <==> p1 == p2
  {
    if pre + p1 == pre + p2 {
      assert p1 == (pre + p1)[|pre|..];
      assert p2 == (pre + p2)[|pre|..];
    }
  }

  /** The names of one port's devices all differ, and two ports share any of them
      exactly when their uids agree in the first ten characters. */
  lemma PortNames(u1: string, u2: string)
    ensures |{VmPortName(u1), BridgeName(u1), BridgePortName(u1), OvsPortName(u1)}| == 4
    ensures VmPortName(u1) == VmPortName(u2) <==> UidPrefix(u1) == UidPrefix(u2)
    ensures BridgeName(u1) == BridgeName(u2) <==> UidPrefix(u1) == UidPrefix(u2)
    ensures BridgePortName(u1) == BridgePortName(u2) <==> UidPrefix(u1) == UidPrefix(u2)
    ensures OvsPortName(u1) == OvsPortName(u2) <==> UidPrefix(u1) == UidPrefix(u2)
  {
    PrefixedNames(VmPortPrefix, UidPrefix(u1), UidPrefix(u2));
    PrefixedNames(BridgeNamePrefix, UidPrefix(u1), UidPrefix(u2));
    PrefixedNames(VmBridgePortPrefix, UidPrefix(u1), UidPrefix(u2));
    PrefixedNames(VmOvsPortPrefix, UidPrefix(u1), UidPrefix(u2));
    var p := UidPrefix(u1);
    assert VmPortName(u1)[0] == 't' && BridgeName(u1)[0] == 'q';
    assert BridgeName(u1)[2] == 'r' && BridgePortName(u1)[2] == 'b' && OvsPortName(u1)[2] == 'o';
    assert BridgePortName(u1)[0] == 'q' && OvsPortName(u1)[0] == 'q';
  }

  // ---------------------------------------------------------------- what each verb records

  /** `create_vm_port_about` with a security group, before the chains (lines 30-42):
      the bridge, the veth pair, the bridge end on the bridge, the OVS end on `br0`
      with the VM's VLAN tag, and the three links up. */
  function SgPlumbSteps(portUid: string, vmVlan: int): seq<Action> {
    var br := LinuxBridge.LinuxBridgeManager(BridgeName(portUid));
    [Exec(LinuxBridge.CreateBrArgv(br)),
     Exec(IpLib.AddVethArgv(BridgePortName(portUid), OvsPortName(portUid), None)),
     Exec(LinuxBridge.AddPortArgv(br, BridgePortName(portUid))),
     Exec(Ovs.AddPortArgv(VmBridge, OvsPortName(portUid))),
     Exec(Ovs.SetPortTagArgv(vmVlan, OvsPortName(portUid))),
     Exec(IpLib.SetPortUpArgv(BridgeName(portUid), None)),
     Exec(IpLib.SetPortUpArgv(BridgePortName(portUid), None)),
     Exec(IpLib.SetPortUpArgv(OvsPortName(portUid), None))]
  }

  /** `create_vm_port_about` without a security group (lines 49-50). */
  function PlainPlumbSteps(portUid: string): seq<Action> {
    [Exec(Ovs.AddPortArgv(VmBridge, VmPortName(portUid))),
     Exec(IpLib.SetPortUpArgv(VmPortName(portUid), None))]
  }

  /** `clean_vm_port_about` with a security group, before the chains (lines 162-167). */
  function SgUnplumbSteps(portUid: string): seq<Action> {
    var br := LinuxBridge.LinuxBridgeManager(BridgeName(portUid));
    [Exec(IpLib.SetPortDownArgv(BridgeName(portUid), None)),
     Exec(LinuxBridge.RemoveBrArgv(br)),
     Exec(IpLib.DelVethArgv(BridgePortName(portUid))),
     Exec(Ovs.DeletePortArgv(VmBridge, OvsPortName(portUid)))]
  }

  /** `clean_vm_port_about` without a security group as written (lines 174-175): it
      deletes the veth pair and the OVS port of the security-group layout, and leaves
      the VM's own port on `br0`. */
  function PlainUnplumbAsWritten(portUid: string): seq<Action> {
    [Exec(IpLib.DelVethArgv(BridgePortName(portUid))),
     Exec(Ovs.DeletePortArgv(VmBridge, OvsPortName(portUid)))]
  }

  /** `clean_vm_port_about` without a security group, also detaching the port that
      `create_vm_port_about` attached. */
  function PlainUnplumbSteps(portUid: string): seq<Action> {
    PlainUnplumbAsWritten(portUid) + [Exec(Ovs.DeletePortArgv(VmBridge, VmPortName(portUid)))]
  }

  /** Everything `create_vm_port_about` records with a security group (lines 30-46): the
      plumbing, both directions' chains of the port's firewall driver, then the port's set. */
  function SgCreateSteps(portUid: string, vmVlan: int, firewall: Firewall.IptablesFirewallDriver): seq<Action>
    requires portUid != "" && firewall.Valid()
  {
    SgPlumbSteps(portUid, vmVlan) +
    (firewall.PortChainActions(Firewall.EgressDirection) + firewall.PortChainActions(Firewall.IngressDirection)) +
    [Exec(Ipset.CreateArgv(IpsetName(portUid)))]
  }

  /** Everything `clean_vm_port_about` records with a security group (lines 162-171). */
  function SgCleanSteps(portUid: string, firewall: Firewall.IptablesFirewallDriver): seq<Action>
    requires portUid != "" && firewall.Valid()
  {
    SgUnplumbSteps(portUid) +
    [firewall.DeleteChainAction(firewall.chainSuffix[Firewall.EgressDirection], true),
     firewall.DeleteChainAction(firewall.chainSuffix[Firewall.IngressDirection], true)] +
    [Exec(Ipset.DestroyArgv(IpsetName(portUid)))]
  }

  /** The `Dnsmasq_base` of `create_vm_dhcp`. */
  function DhcpServer(netUid: string, ip: string, mask: int, mac: string, namespace: Option<string>): Dhcp.Dnsmasq {
    Dhcp.Dnsmasq(Some(ip), mask, Some(mac), Some(netUid), Some(DhcpNamespace(netUid, namespace)))
  }

  /** The `Dnsmasq_base(net_uid=net_uid)` of `clean_dhcp_about`; it has no mask, which
      the model writes as 0 (killing and removing files never read it). */
  function DhcpCleaner(netUid: string): Dhcp.Dnsmasq {
    Dhcp.Dnsmasq(None, 0, None, Some(netUid), None)
  }

  /** `create_vm_dhcp(first=True)` (lines 67-78): the namespace, an internal port on
      `br0` moved into it, up, holding the listening address, and the server. */
  function DhcpStartSteps(netUid: string, mask: int, vlan: Option<int>, namespace: Option<string>,
                          listenAddr: string, server: Dhcp.Dnsmasq): seq<Action> {
    var ns := DhcpNamespace(netUid, namespace);
    var port := DhcpPortName(netUid);
    [Exec(IpLib.NetnsAddArgv(ns)),
     Exec(Ovs.AddPortInternalArgv(VmBridge, port, vlan)),
     Exec(IpLib.SetNetnsArgv(port, ns)),
     Exec(IpLib.SetPortUpArgv(port, Some(ns))),
     Exec(IpLib.AddIpArgv(port, listenAddr, mask, Some(ns))),
     DhcpSpawn(server)]
  }

  /** The `first` branch of `create_vm_dhcp` (lines 67-78), through the `IPDevice` of the
      listening port in the server's namespace. */
  method StartDhcpServer(netUid: string, mask: int, vlan: Option<int>, namespace: Option<string>,
                         listenAddr: string, server: Dhcp.Dnsmasq, host: Host)
    modifies host
    ensures host.trace == old(host.trace) + DhcpStartSteps(netUid, mask, vlan, namespace, listenAddr, server)
  {
    var nsName := DhcpNamespace(netUid, namespace);
    var portName := DhcpPortName(netUid);
    var device := IpLib.IpDevice(Some(portName), Some(nsName));
    host.RecordAll([Exec(IpLib.NetnsAddArgv(nsName)),
                    Exec(Ovs.AddPortInternalArgv(VmBridge, portName, vlan))]);
    if nsName != "" {
      host.Record(Exec(IpLib.SetNetnsArgv(portName, device.namespace.value)));
    }
    host.RecordAll([Exec(IpLib.SetPortUpArgv(portName, device.namespace)),
                    Exec(IpLib.AddIpArgv(portName, listenAddr, mask, device.namespace)),
                    DhcpSpawn(server)]);
  }

  /** `clean_dhcp_about` (lines 187-192). */
  function DhcpCleanSteps(netUid: string, namespace: Option<string>): seq<Action> {
    [Exec(Ovs.DeletePortArgv(VmBridge, DhcpPortName(netUid))),
     Exec(IpLib.NetnsDeleteArgv(DhcpNamespace(netUid, namespace))),
     DhcpKill(DhcpCleaner(netUid)),
     DhcpRemoveFiles(DhcpCleaner(netUid))]
  }

  /** `create_l3` (lines 97-110): the namespace, one internal port per side on `br0`,
      both moved into it and up, each holding the gateway of its own network. */
  function L3Steps(l3Uid: string, netUid: string, vmVlan: Option<int>, l3Vlan: Option<int>,
                   vmGateway: string, vmMask: int, stuGateway: string, stuMask: int): seq<Action> {
    var ns := L3Namespace(l3Uid, None);
    var vmPort := L3VmPortName(netUid);
    var stuPort := L3StuPortName(l3Uid);
    [Exec(IpLib.NetnsAddArgv(ns)),
     Exec(Ovs.AddPortInternalArgv(VmBridge, vmPort, vmVlan)),
     Exec(Ovs.AddPortInternalArgv(VmBridge, stuPort, l3Vlan)),
     Exec(IpLib.SetNetnsArgv(vmPort, ns)),
     Exec(IpLib.SetNetnsArgv(stuPort, ns)),
     Exec(IpLib.SetPortUpArgv(vmPort, Some(ns))),
     Exec(IpLib.SetPortUpArgv(stuPort, Some(ns))),
     Exec(IpLib.AddIpArgv(vmPort, vmGateway, vmMask, Some(ns))),
     Exec(IpLib.AddIpArgv(stuPort, stuGateway, stuMask, Some(ns)))]
  }

  /** The commands of `create_l3` once both addresses are read (lines 97-110), through
      an `IPDevice` in the router's namespace. */
  method PlumbL3(l3Uid: string, netUid: string, vmVlan: Option<int>, l3Vlan: Option<int>,
                 vmGateway: string, vmMask: int, stuGateway: string, stuMask: int, host: Host)
    modifies host
    ensures host.trace == old(host.trace) + L3Steps(l3Uid, netUid, vmVlan, l3Vlan, vmGateway, vmMask, stuGateway, stuMask)
  {
    var nsName := L3Namespace(l3Uid, None);
    var vmPort := L3VmPortName(netUid);
    var stuPort := L3StuPortName(l3Uid);
    var device := IpLib.IpDevice(None, Some(nsName));
    host.RecordAll([Exec(IpLib.NetnsAddArgv(nsName)),
                    Exec(Ovs.AddPortInternalArgv(VmBridge, vmPort, vmVlan)),
                    Exec(Ovs.AddPortInternalArgv(VmBridge, stuPort, l3Vlan)),
                    Exec(IpLib.SetNetnsArgv(vmPort, device.namespace.value)),
                    Exec(IpLib.SetNetnsArgv(stuPort, device.namespace.value)),
                    Exec(IpLib.SetPortUpArgv(vmPort, device.namespace)),
                    Exec(IpLib.SetPortUpArgv(stuPort, device.namespace)),
                    Exec(IpLib.AddIpArgv(vmPort, vmGateway, vmMask, device.namespace)),
                    Exec(IpLib.AddIpArgv(stuPort, stuGateway, stuMask, device.namespace))]);
  }

  /** `clean_l3_about` (lines 204-207). */
  function L3CleanSteps(l3Uid: string, netUid: string, namespace: Option<string>): seq<Action> {
    [Exec(Ovs.DeletePortArgv(VmBridge, L3VmPortName(netUid))),
     Exec(Ovs.DeletePortArgv(VmBridge, L3StuPortName(l3Uid))),
     Exec(IpLib.NetnsDeleteArgv(L3Namespace(l3Uid, namespace)))]
  }

  /** The `-A` lines `add_ipset_rule` runs for a port's set, one per address in order. */
  function MemberSteps(ips: seq<string>, name: string): (r: seq<Action>)
    ensures |r| == |ips|
    ensures forall k :: 0 <= k < |ips| ==> r[k] == Exec(Ipset.AddMemberArgv(ips[k], name))
  {
    if ips == [] then [] else [Exec(Ipset.AddMemberArgv(ips[0], name))] + MemberSteps(ips[1..], name)
  }

  // ---------------------------------------------------------------- the verbs

  /** The commands of `create_vm_port_about` with a security group before its chains
      (lines 30-42), through the `IPDevice` of the bridge in the root namespace. */
  method PlumbSgPort(portUid: string, vmVlan: int, host: Host)
    modifies host
    ensures host.trace == old(host.trace) + SgPlumbSteps(portUid, vmVlan)
  {
    var bridgeName := BridgeName(portUid);
    var bridgePortName := BridgePortName(portUid);
    var ovsPortName := OvsPortName(portUid);
    var linuxBridge := LinuxBridge.LinuxBridgeManager(bridgeName);
    var device := IpLib.IpDevice(Some(bridgeName), None);
    host.RecordAll([Exec(LinuxBridge.CreateBrArgv(linuxBridge)),
                    Exec(IpLib.AddVethArgv(bridgePortName, ovsPortName, None)),
                    Exec(LinuxBridge.AddPortArgv(linuxBridge, bridgePortName)),
                    Exec(Ovs.AddPortArgv(VmBridge, ovsPortName)),
                    Exec(Ovs.SetPortTagArgv(vmVlan, ovsPortName)),
                    Exec(IpLib.SetPortUpArgv(bridgeName, device.namespace)),
                    Exec(IpLib.SetPortUpArgv(bridgePortName, device.namespace)),
                    Exec(IpLib.SetPortUpArgv(ovsPortName, device.namespace))]);
  }

  /** The security-group branch of `create_vm_port_about` (lines 30-46), with the port's
      firewall driver and a root-namespace ipset manager on the same host. */
  method CreateSgPort(portUid: string, vmVlan: int, iptables: Firewall.IptablesFirewallDriver,
                      ipset: Ipset.IpsetManager, host: Host)
    requires portUid != "" && iptables.Valid() && iptables.table.Some? && iptables.host == host
    requires ipset.host == host && ipset.namespace == None
    modifies host
    ensures host.trace == old(host.trace) + SgCreateSteps(portUid, vmVlan, iptables)
  {
    SgCreateParts(portUid, vmVlan, iptables);
    PlumbSgPort(portUid, vmVlan, host);
    iptables.AddPortChain();
    ipset.CreateIpsetChain(IpsetName(portUid));
    Lists.AppendFour(old(host.trace), SgPlumbSteps(portUid, vmVlan), iptables.PortChainActions(Firewall.EgressDirection),
                     iptables.PortChainActions(Firewall.IngressDirection), [Exec(Ipset.CreateArgv(IpsetName(portUid)))]);
  }

  /** `create_vm_port_about(port_uid, vm_vlan, use_sg, table)`. The firewall driver it
      creates is returned so that its chain actions can be named. */
  method CreateVmPortAbout(portUid: string, vmVlan: int, useSg: bool, table: Iptables.TableName,
                           binaryName: string, host: Host)
    returns (ghost firewall: Firewall.IptablesFirewallDriver)
    requires useSg ==> portUid != ""
    modifies host
    ensures firewall.Valid() && firewall.host == host && firewall.chainUid == Some(portUid)
    ensures firewall.namespace == None && firewall.table == Some(table) && firewall.binaryName == binaryName
    ensures firewall.uidPrefix == UidPrefix(Strip(portUid))
    ensures useSg ==> host.trace == old(host.trace) + SgCreateSteps(portUid, vmVlan, firewall)
    ensures !useSg ==> host.trace == old(host.trace) + PlainPlumbSteps(portUid)
  {
    var vmPortName := VmPortName(portUid);
    var ipsetChainName := Ipset.GetIpsetChainName(Some(portUid));
    var device := IpLib.IpDevice(Some(BridgeName(portUid)), None);
    var iptables := new Firewall.IptablesFirewallDriver(Some(portUid), None, Some(table), true, binaryName, host);
    var ipset := new Ipset.IpsetManager(None, None, host);
    firewall := iptables;
    if useSg {
      CreateSgPort(portUid, vmVlan, iptables, ipset, host);
    } else {
      host.RecordAll([Exec(Ovs.AddPortArgv(VmBridge, vmPortName)),
                      Exec(IpLib.SetPortUpArgv(vmPortName, device.namespace))]);
    }
  }

  /** `clean_vm_port_about(port_uid, use_sg, table)` as written: without a security group
      it deletes the `qvb-` veth and the `qvo-` port, and leaves the VM's own port on
      `br0` (`PlainCleanLeavesTap`). */
  method CleanVmPortAbout(portUid: string, useSg: bool, table: Iptables.TableName, binaryName: string, host: Host)
    returns (ghost firewall: Firewall.IptablesFirewallDriver)
    requires useSg ==> portUid != ""
    modifies host
    ensures firewall.Valid() && firewall.host == host && firewall.chainUid == Some(portUid)
    ensures firewall.namespace == None && firewall.table == Some(table) && firewall.binaryName == binaryName
    ensures firewall.uidPrefix == UidPrefix(Strip(portUid))
    ensures useSg ==> host.trace == old(host.trace) + SgCleanSteps(portUid, firewall)
    ensures !useSg ==> host.trace == old(host.trace) + PlainUnplumbAsWritten(portUid)
  {
    var iptables := new Firewall.IptablesFirewallDriver(Some(portUid), None, Some(table), true, binaryName, host);
    var ipset := new Ipset.IpsetManager(None, None, host);
    firewall := iptables;
    if useSg {
      CleanSgPort(portUid, iptables, ipset, host);
    } else {
      UnplumbPlainPortAsWritten(portUid, host);
    }
  }

  /** The security-group branch of `clean_vm_port_about` (lines 162-171): every step is
      recorded whatever the earlier ones returned. */
  method CleanSgPort(portUid: string, iptables: Firewall.IptablesFirewallDriver, ipset: Ipset.IpsetManager, host: Host)
    requires portUid != "" && iptables.Valid() && iptables.table.Some? && iptables.host == host
    requires ipset.host == host && ipset.namespace == None
    modifies host
    ensures host.trace == old(host.trace) + SgCleanSteps(portUid, iptables)
  {
    var ipsetChainName := Ipset.GetIpsetChainName(Some(portUid));
    UnplumbSgPort(portUid, host);
    ghost var unplumbed := host.trace;
    iptables.RemovePortChain();
    ghost var unchained := host.trace;
    ipset.DestroyIpsetChainByName(ipsetChainName.value);
    assert host.trace == unchained + [Exec(Ipset.DestroyArgv(IpsetName(portUid)))];
  }

  /** The commands of `clean_vm_port_about` with a security group before its chains
      (lines 162-167), through the `IPDevice` of the bridge in the root namespace. */
  method UnplumbSgPort(portUid: string, host: Host)
    modifies host
    ensures host.trace == old(host.trace) + SgUnplumbSteps(portUid)
  {
    var bridgeName := BridgeName(portUid);
    var bridgePortName := BridgePortName(portUid);
    var ovsPortName := OvsPortName(portUid);
    var linuxBridge := LinuxBridge.LinuxBridgeManager(bridgeName);
    var device := IpLib.IpDevice(Some(bridgeName), None);
    host.RecordAll([Exec(IpLib.SetPortDownArgv(device.name.value, device.namespace)),
                    Exec(LinuxBridge.RemoveBrArgv(linuxBridge)),
                    Exec(IpLib.DelVethArgv(bridgePortName)),
                    Exec(Ovs.DeletePortArgv(VmBridge, ovsPortName))]);
  }

  /** The branch of `clean_vm_port_about` without a security group (lines 174-175), through
      the `IPWrapper` and the `BaseOVS` of `br0`. */
  method UnplumbPlainPortAsWritten(portUid: string, host: Host)
    modifies host
    ensures host.trace == old(host.trace) + PlainUnplumbAsWritten(portUid)
  {
    host.RecordAll([Exec(IpLib.DelVethArgv(BridgePortName(portUid))),
                    Exec(Ovs.DeletePortArgv(VmBridge, OvsPortName(portUid)))]);
  }

  /** The intended branch without a security group: the commands as written, then the
      deletion of the VM's own port that `create_vm_port_about` attached, so that it
      undoes the plain create (`PlainRoundTrip`). */
  method UnplumbPlainPort(portUid: string, host: Host)
    modifies host
    ensures host.trace == old(host.trace) + PlainUnplumbSteps(portUid)
  {
    UnplumbPlainPortAsWritten(portUid, host);
    host.Record(Exec(Ovs.DeletePortArgv(VmBridge, VmPortName(portUid))));
  }

  /** `create_vm_dhcp(net_uid, ip, mask, mac, vlan, namespace, first)`. `ip_expr(ip, mask)`
      is built first, so an address it cannot read stops the verb before any command. */
  method CreateVmDhcp(netUid: string, ip: string, mask: int, mac: string, vlan: Option<int>,
                      namespace: Option<string>, first: bool, host: Host)
    returns (failure: Option<Dhcp.DhcpError>)
    modifies host
    ensures Dhcp.NewIpExpr(ip, mask).Failure? ==>
              failure == Some(Dhcp.NewIpExpr(ip, mask).error) && host.trace == old(host.trace)
    ensures Dhcp.NewIpExpr(ip, mask).Success? && first ==>
              failure == None &&
              host.trace == old(host.trace) + DhcpStartSteps(netUid, mask, vlan, namespace,
                                                             Dhcp.NewIpExpr(ip, mask).value.dhcpListenAddr,
                                                             DhcpServer(netUid, ip, mask, mac, namespace))
    ensures Dhcp.NewIpExpr(ip, mask).Success? && !first ==>
              failure == None &&
              host.trace == old(host.trace) + [DhcpWriteHost(DhcpServer(netUid, ip, mask, mac, namespace), ip, mac),
                                               DhcpReload(DhcpServer(netUid, ip, mask, mac, namespace))]
  {
    var nsName := DhcpNamespace(netUid, namespace);
    var portName := DhcpPortName(netUid);
    var ipAbout := Dhcp.NewIpExpr(ip, mask);
    if ipAbout.Failure? {
      return Some(ipAbout.error);
    }
    var server := Dhcp.Dnsmasq(Some(ip), mask, Some(mac), Some(netUid), Some(nsName));
    if first {
      StartDhcpServer(netUid, mask, vlan, namespace, ipAbout.value.dhcpListenAddr, server, host);
    } else {
      host.RecordAll([DhcpWriteHost(server, ip, mac),
                      DhcpReload(server)]);
    }
    return None;
  }

  /** `clean_dhcp_about(net_uid, namespace)` */
  method CleanDhcpAbout(netUid: string, namespace: Option<string>, host: Host)
    modifies host
    ensures host.trace == old(host.trace) + DhcpCleanSteps(netUid, namespace)
  {
    var nsName := DhcpNamespace(netUid, namespace);
    var portName := DhcpPortName(netUid);
    var server := Dhcp.Dnsmasq(None, 0, None, Some(netUid), None);
    host.RecordAll([Exec(Ovs.DeletePortArgv(VmBridge, portName)),
                    Exec(IpLib.NetnsDeleteArgv(nsName)),
                    DhcpKill(server),
                    DhcpRemoveFiles(server)]);
  }

  /** `create_l3(stu_ip, stu_mask, vm_ip, vm_mask, l3_uid, net_uid, vm_vlan, l3_vlan)`.
      Both `ip_expr`s are built first, the VM side's before the student side's. */
  method CreateL3(stuIp: string, stuMask: int, vmIp: string, vmMask: int, l3Uid: string, netUid: string,
                  vmVlan: Option<int>, l3Vlan: Option<int>, host: Host)
    returns (failure: Option<Dhcp.DhcpError>)
    modifies host
    ensures Dhcp.NewIpExpr(vmIp, vmMask).Failure? ==>
              failure == Some(Dhcp.NewIpExpr(vmIp, vmMask).error) && host.trace == old(host.trace)
    ensures Dhcp.NewIpExpr(vmIp, vmMask).Success? && Dhcp.NewIpExpr(stuIp, stuMask).Failure? ==>
              failure == Some(Dhcp.NewIpExpr(stuIp, stuMask).error) && host.trace == old(host.trace)
    ensures Dhcp.NewIpExpr(vmIp, vmMask).Success? && Dhcp.NewIpExpr(stuIp, stuMask).Success? ==>
              failure == None &&
              host.trace == old(host.trace) + L3Steps(l3Uid, netUid, vmVlan, l3Vlan,
                                                      Dhcp.NewIpExpr(vmIp, vmMask).value.gateway, vmMask,
                                                      Dhcp.NewIpExpr(stuIp, stuMask).value.gateway, stuMask)
  {
    var vmIpAbout := Dhcp.NewIpExpr(vmIp, vmMask);
    if vmIpAbout.Failure? {
      return Some(vmIpAbout.error);
    }
    var userIpAbout := Dhcp.NewIpExpr(stuIp, stuMask);
    if userIpAbout.Failure? {
      return Some(userIpAbout.error);
    }
    PlumbL3(l3Uid, netUid, vmVlan, l3Vlan, vmIpAbout.value.gateway, vmMask, userIpAbout.value.gateway, stuMask, host);
    return None;
  }

  /** `clean_l3_about(l3_uid, net_uid, namespace)` */
  method CleanL3About(l3Uid: string, netUid: string, namespace: Option<string>, host: Host)
    modifies host
    ensures host.trace == old(host.trace) + L3CleanSteps(l3Uid, netUid, namespace)
  {
    var nsName := L3Namespace(l3Uid, namespace);
    host.RecordAll([Exec(Ovs.DeletePortArgv(VmBridge, L3VmPortName(netUid))),
                    Exec(Ovs.DeletePortArgv(VmBridge, L3StuPortName(l3Uid))),
                    Exec(IpLib.NetnsDeleteArgv(nsName))]);
  }

  /** `add_route(l3_uid, cidr, out_port, namespace)`: an on-link route by `out_port`
      inside the router's namespace. */
  method AddRoute(l3Uid: string, cidr: string, outPort: string, namespace: Option<string>, host: Host)
    modifies host
    ensures host.trace == old(host.trace) + [Exec(IpLib.AddOnlinkRouteArgv(outPort, cidr, Some(L3Namespace(l3Uid, namespace))))]
  {
    var nsName := L3Namespace(l3Uid, namespace);
    var device := IpLib.IpDevice(None, Some(nsName));
    host.Record(Exec(IpLib.AddOnlinkRouteArgv(outPort, cidr, device.namespace)));
  }

  /** `delete_route(l3_uid, cidr, out_port, namespace)` */
  method DeleteRoute(l3Uid: string, cidr: string, outPort: string, namespace: Option<string>, host: Host)
    modifies host
    ensures host.trace == old(host.trace) + [Exec(IpLib.DeleteOnlinkRouteArgv(outPort, cidr, Some(L3Namespace(l3Uid, namespace))))]
  {
    var nsName := L3Namespace(l3Uid, namespace);
    var device := IpLib.IpDevice(None, Some(nsName));
    host.Record(Exec(IpLib.DeleteOnlinkRouteArgv(outPort, cidr, device.namespace)));
  }

  /** Outside any namespace, the actions an ipset manager records for `add_ip_members`
      are the plain `-A` lines. */
  lemma MembersOutsideNamespace(m: Ipset.IpsetManager, ips: seq<string>, name: string)
    requires m.namespace == None
    ensures m.AddMembersActions(ips, name) == MemberSteps(ips, name)
  {
    var a := m.AddMembersActions(ips, name);
    var b := MemberSteps(ips, name);
    forall k | 0 <= k < |ips|
      ensures a[k] == b[k]
    {
    }
  }

  /** `add_ipset_rule(port_uid, action, direction, ips, table)`: the addresses go into the
      port's set, and only when there are some; `action` and `direction` are not used. */
  method AddIpsetRule(portUid: string, action: string, direction: string, ips: seq<string>,
                      table: Iptables.TableName, binaryName: string, host: Host)
    requires ips != [] ==> portUid != ""
    modifies host
    ensures ips == [] ==> host.trace == old(host.trace)
    ensures ips != [] ==> host.trace == old(host.trace) + MemberSteps(ips, IpsetName(portUid))
  {
    var iptables := new Firewall.IptablesFirewallDriver(Some(portUid), None, Some(table), true, binaryName, host);
    if ips != [] {
      iptables.AddIpsetRule(ips);
      MembersOutsideNamespace(iptables.ipsetManager, ips, iptables.ipsetName.value);
    }
  }

  /** `add_ip_to_ipset(port_uid, ips, table)` */
  method AddIpToIpset(portUid: string, ips: seq<string>, table: Iptables.TableName, binaryName: string, host: Host)
    requires ips != [] ==> portUid != ""
    modifies host
    ensures ips == [] ==> host.trace == old(host.trace)
    ensures ips != [] ==> host.trace == old(host.trace) + MemberSteps(ips, IpsetName(portUid))
  {
    var iptables := new Firewall.IptablesFirewallDriver(Some(portUid), None, Some(table), true, binaryName, host);
    iptables.AddIpsetRule(ips);
    if ips != [] {
      MembersOutsideNamespace(iptables.ipsetManager, ips, iptables.ipsetName.value);
    }
  }

  /** `add_rule(port_uid, rule, direction, wrap, table)`: the rule goes on the port's
      chain for the direction (the chain `None` when not wrapping). */
  method AddRule(portUid: string, rule: string, direction: string, wrap: bool, table: Iptables.TableName,
                 binaryName: string, host: Host)
    returns (ghost firewall: Firewall.IptablesFirewallDriver)
    requires direction in Firewall.Directions
    modifies host
    ensures firewall.Valid() && firewall.chainUid == Some(portUid) && firewall.binaryName == binaryName
    ensures host.trace == old(host.trace) +
              [firewall.ApplyIn(None, Iptables.Changes({}, [Iptables.IptablesRule(
                 Iptables.Render(firewall.ManagerChain(firewall.chainSuffix[direction], wrap)),
                 Iptables.WrapRule(firewall.WrapName(), rule, true), true)], {}))]
  {
    var iptables := new Firewall.IptablesFirewallDriver(Some(portUid), None, Some(table), true, binaryName, host);
    firewall := iptables;
    iptables.AddIptablesRule(rule, direction, wrap);
  }

  /** `remove_rule(port_uid, rule, direction, wrap, table)`: every line holding the rule
      text goes, whatever its chain. */
  method RemoveRule(portUid: string, rule: string, direction: string, wrap: bool, table: Iptables.TableName,
                    binaryName: string, host: Host)
    returns (ghost firewall: Firewall.IptablesFirewallDriver)
    requires direction in Firewall.Directions
    modifies host
    ensures firewall.Valid() && firewall.chainUid == Some(portUid) && firewall.binaryName == binaryName
    ensures host.trace == old(host.trace) + [firewall.ApplyIn(None, Iptables.Changes({}, [], {rule}))]
  {
    var iptables := new Firewall.IptablesFirewallDriver(Some(portUid), None, Some(table), true, binaryName, host);
    firewall := iptables;
    iptables.DeleteRule(rule, direction, wrap);
  }

  // ---------------------------------------------------------------- what the commands do

  /** Bringing a link up or down, in whichever namespace, changes nothing `Net` tracks. */
  lemma LinkStateIdle(m: Net, name: string, ns: Option<string>)
    ensures Effect(m, Exec(IpLib.SetPortUpArgv(name, ns))) == m
    ensures Effect(m, Exec(IpLib.SetPortDownArgv(name, ns))) == m
  {
  }

  /** Neither is moving a link to a namespace or giving it an address. */
  lemma LinkConfigIdle(m: Net, name: string, ns: string, ip: string, mask: int, where: Option<string>)
    ensures Effect(m, Exec(IpLib.SetNetnsArgv(name, ns))) == m
    ensures Effect(m, Exec(IpLib.AddIpArgv(name, ip, mask, where))) == m
  {
  }

  /** Nor making or deleting a veth pair. */
  lemma VethIdle(m: Net, name: string, peer: string)
    ensures Effect(m, Exec(IpLib.AddVethArgv(name, peer, None))) == m
    ensures Effect(m, Exec(IpLib.DelVethArgv(name))) == m
  {
  }

  /** Nor enslaving a link to a Linux bridge or tagging an OVS port. */
  lemma BridgeMembershipIdle(m: Net, br: LinuxBridge.LinuxBridgeManager, port: string, vlan: int)
    ensures Effect(m, Exec(LinuxBridge.AddPortArgv(br, port))) == m
    ensures Effect(m, Exec(Ovs.SetPortTagArgv(vlan, port))) == m
  {
  }

  /** `add_port` and `delete_port` on `br0` attach and detach exactly that port. */
  lemma AttachDetachEffect(n: Net, port: string)
    ensures Effect(n, Exec(Ovs.AddPortArgv(VmBridge, port))) == n.(ports := n.ports + {(VmBridgeName, port)})
    ensures Effect(n, Exec(Ovs.DeletePortArgv(VmBridge, port))) == n.(ports := n.ports - {(VmBridgeName, port)})
  {
  }

  /** `add_port_internal` attaches the port, tagged or not. */
  lemma InternalAttachEffect(n: Net, port: string, vlan: Option<int>)
    ensures Effect(n, Exec(Ovs.AddPortInternalArgv(VmBridge, port, vlan))) == n.(ports := n.ports + {(VmBridgeName, port)})
  {
    var v := Ovs.AddPortInternalArgv(VmBridge, port, vlan);
    if Ovs.Tagged(vlan) {
      assert v[..5] + v[6..] == Ovs.VsctlArgv(Ovs.InternalPortArgs(VmBridge, port));
      assert v[0] == "ovs-vsctl" && v[2] == "add-port" && v[3] == VmBridgeName && v[4] == port;
    }
  }

  /** `brctl addbr` and `brctl delbr` make and remove exactly that bridge. */
  lemma LinuxBridgeEffect(n: Net, name: string)
    ensures Effect(n, Exec(LinuxBridge.CreateBrArgv(LinuxBridge.LinuxBridgeManager(name)))) == n.(bridges := n.bridges + {name})
    ensures Effect(n, Exec(LinuxBridge.RemoveBrArgv(LinuxBridge.LinuxBridgeManager(name)))) == n.(bridges := n.bridges - {name})
  {
  }

  /** `ip netns add` and `ip netns delete` make and remove exactly that namespace. */
  lemma NamespaceCommandsEffect(n: Net, ns: string)
    ensures Effect(n, Exec(IpLib.NetnsAddArgv(ns))) == n.(namespaces := n.namespaces + {ns})
    ensures Effect(n, Exec(IpLib.NetnsDeleteArgv(ns))) == n.(namespaces := n.namespaces - {ns})
  {
    var v := IpLib.NetnsDeleteArgv(ns);
    assert v == ["ip", "netns", "delete " + ns];
    assert StartsWith(v[2], "delete ") && v[2][7..] == ns;
  }

  /** `ipset create` makes the set, empty, unless it exists; `ipset destroy` removes it. */
  lemma SetCommandsEffect(n: Net, name: string)
    ensures name !in n.sets ==> Effect(n, Exec(Ipset.CreateArgv(name))) == n.(sets := n.sets[name := {}])
    ensures Effect(n, Exec(Ipset.DestroyArgv(name))) == n.(sets := n.sets - {name})
  {
    assert Ipset.CreateArgv(name)[..3] == ["ipset", "create", "-exist"];
    assert Ipset.DestroyArgv(name)[..2] == ["ipset", "destroy"];
  }

  /** `replace` points the router's route at the device; `del` drops it only when it
      leaves by that device. */
  lemma RouteCommandsEffect(n: Net, outPort: string, cidr: string, ns: string)
    requires ns != ""
    ensures Effect(n, Exec(IpLib.AddOnlinkRouteArgv(outPort, cidr, Some(ns)))) ==
            n.(routes := n.routes[RouteKey(Some(ns), cidr) := outPort])
    ensures var key := RouteKey(Some(ns), cidr);
            Effect(n, Exec(IpLib.DeleteOnlinkRouteArgv(outPort, cidr, Some(ns)))) ==
            n.(routes := if key in n.routes && n.routes[key] == outPort then n.routes - {key} else n.routes)
  {
    AddRouteEffect(n, outPort, cidr, ns);
    DelRouteEffect(n, outPort, cidr, ns);
  }

  lemma AddRouteEffect(n: Net, outPort: string, cidr: string, ns: string)
    requires ns != ""
    ensures Effect(n, Exec(IpLib.AddOnlinkRouteArgv(outPort, cidr, Some(ns)))) ==
            n.(routes := n.routes[RouteKey(Some(ns), cidr) := outPort])
  {
    IpLib.ExecuteInNamespace([], "route", ["replace", cidr, "dev", outPort, "scope", "link"], ns);
    RouteLineEffect(n, ns, "replace", cidr, outPort);
  }

  /** `ip netns exec <ns> ip route <verb> <cidr> dev <dev> scope link` acts on that
      namespace's route to `cidr` and on nothing else. */
  lemma RouteLineEffect(n: Net, ns: string, verb: string, cidr: string, dev: string)
    ensures var key := RouteKey(Some(ns), cidr);
            Effect(n, Exec(["ip", "netns", "exec", ns] + ["ip", "route", verb, cidr, "dev", dev, "scope", "link"])) ==
            n.(routes := if verb == "replace" then n.routes[key := dev]
                         else if verb == "del" && key in n.routes && n.routes[key] == dev then n.routes - {key}
                         else n.routes)
  {
    var v := ["ip", "netns", "exec", ns] + ["ip", "route", verb, cidr, "dev", dev, "scope", "link"];
    assert v[4..] == ["ip", "route", verb, cidr, "dev", dev, "scope", "link"];
    assert |v| == 12 && v[0] == "ip" && v[2] == "exec";
  }

  lemma DelRouteEffect(n: Net, outPort: string, cidr: string, ns: string)
    requires ns != ""
    ensures var key := RouteKey(Some(ns), cidr);
            Effect(n, Exec(IpLib.DeleteOnlinkRouteArgv(outPort, cidr, Some(ns)))) ==
            n.(routes := if key in n.routes && n.routes[key] == outPort then n.routes - {key} else n.routes)
  {
    IpLib.ExecuteInNamespace([], "route", ["del", cidr, "dev", outPort, "scope", "link"], ns);
    RouteLineEffect(n, ns, "del", cidr, outPort);
  }

  // ---------------------------------------------------------------- what the verbs do

  /** A run of actions none of which is a command line changes nothing `Net` tracks. */
  lemma NoCommandsIdle(n: Net, t: seq<Action>)
    requires forall k :: 0 <= k < |t| ==> !t[k].Exec?
    ensures Replay(n, t) == n
  {
    forall k | 0 <= k < |t| ensures Idle(t[k]) {
      NonExecIdle(t[k]);
    }
    ReplayIdle(n, t);
  }

  /** A run of command lines declares and removes no chain. */
  lemma {:induction false} CommandsTouchNoChain(t: seq<Action>)
    requires forall k :: 0 <= k < |t| ==> t[k].Exec?
    ensures Firewall.Declared(t) == {} && Firewall.Removed(t) == {}
    decreases |t|
  {
    if t != [] {
      CommandsTouchNoChain(t[1..]);
    }
  }

  /** Without a security group, `create_vm_port_about` attaches the VM's port to `br0`
      and changes nothing else (lines 47-50). */
  lemma PlainPlumbEffect(n: Net, portUid: string)
    ensures Replay(n, PlainPlumbSteps(portUid)) == n.(ports := n.ports + {(VmBridgeName, VmPortName(portUid))})
  {
    var t := PlainPlumbSteps(portUid);
    ReplayTwo(n, t[0], t[1]);
    AttachDetachEffect(n, VmPortName(portUid));
    LinkStateIdle(Effect(n, t[0]), VmPortName(portUid), None);
  }

  /** Without a security group, `clean_vm_port_about` as written leaves the VM's port on
      `br0`: whatever the host held before, the port is there after creating and
      cleaning, so a host that lacked it is not restored. */
  lemma PlainCleanLeavesTap(n: Net, portUid: string)
    ensures var after := Replay(n, PlainPlumbSteps(portUid) + PlainUnplumbAsWritten(portUid));
            (VmBridgeName, VmPortName(portUid)) in after.ports &&
            ((VmBridgeName, VmPortName(portUid)) !in n.ports ==> after != n)
  {
    var t := PlainUnplumbAsWritten(portUid);
    var attached := n.(ports := n.ports + {(VmBridgeName, VmPortName(portUid))});
    ReplayAppend(n, PlainPlumbSteps(portUid), t);
    PlainPlumbEffect(n, portUid);
    ReplayTwo(attached, t[0], t[1]);
    VethIdle(attached, BridgePortName(portUid), "");
    AttachDetachEffect(attached, OvsPortName(portUid));
    PortNames(portUid, portUid);
  }

  /** Without a security group, the corrected `clean_vm_port_about` undoes
      `create_vm_port_about` on a host that held neither the VM's port nor the
      security-group layout's OVS port. */
  lemma PlainRoundTrip(n: Net, portUid: string)
    requires (VmBridgeName, VmPortName(portUid)) !in n.ports
    requires (VmBridgeName, OvsPortName(portUid)) !in n.ports
    ensures Replay(n, PlainPlumbSteps(portUid) + PlainUnplumbSteps(portUid)) == n
  {
    var t := PlainUnplumbAsWritten(portUid);
    var tap := (VmBridgeName, VmPortName(portUid));
    var attached := n.(ports := n.ports + {tap});
    ReplayAppend(n, PlainPlumbSteps(portUid), PlainUnplumbSteps(portUid));
    PlainPlumbEffect(n, portUid);
    ReplayAppend(attached, t, [Exec(Ovs.DeletePortArgv(VmBridge, VmPortName(portUid)))]);
    ReplayTwo(attached, t[0], t[1]);
    VethIdle(attached, BridgePortName(portUid), "");
    AttachDetachEffect(attached, OvsPortName(portUid));
    var cleaned := attached.(ports := attached.ports - {(VmBridgeName, OvsPortName(portUid))});
    assert cleaned == attached;
    ReplayOne(attached, Exec(Ovs.DeletePortArgv(VmBridge, VmPortName(portUid))));
    AttachDetachEffect(attached, VmPortName(portUid));
    assert attached.ports - {tap} == n.ports;
  }

  /** The tag and the three links up that end the security-group plumbing change
      nothing `Net` tracks. */
  lemma SgLinksIdle(m: Net, portUid: string, vmVlan: int)
    ensures Replay(m, SgPlumbSteps(portUid, vmVlan)[4..]) == m
  {
    var t := SgPlumbSteps(portUid, vmVlan)[4..];
    assert t == t[..2] + t[2..] && t[..2] == [t[0], t[1]] && t[2..] == [t[2], t[3]];
    ReplayAppend(m, t[..2], t[2..]);
    ReplayTwo(m, t[0], t[1]);
    ReplayTwo(m, t[2], t[3]);
    BridgeMembershipIdle(m, LinuxBridge.LinuxBridgeManager(BridgeName(portUid)), OvsPortName(portUid), vmVlan);
    LinkStateIdle(m, BridgeName(portUid), None);
    LinkStateIdle(m, BridgePortName(portUid), None);
    LinkStateIdle(m, OvsPortName(portUid), None);
  }

  /** With a security group, the plumbing makes the Linux bridge and attaches the veth's
      OVS end to `br0`; the rest (the veth pair, its bridge end, the tag, the links up)
      is not state `Net` tracks. */
  lemma SgPlumbEffect(n: Net, portUid: string, vmVlan: int)
    ensures Replay(n, SgPlumbSteps(portUid, vmVlan)) ==
            n.(bridges := n.bridges + {BridgeName(portUid)}, ports := n.ports + {(VmBridgeName, OvsPortName(portUid))})
  {
    ReplayFour(n, SgPlumbSteps(portUid, vmVlan));
    LinuxBridgeEffect(n, BridgeName(portUid));
    var bridged := n.(bridges := n.bridges + {BridgeName(portUid)});
    VethIdle(bridged, BridgePortName(portUid), OvsPortName(portUid));
    BridgeMembershipIdle(bridged, LinuxBridge.LinuxBridgeManager(BridgeName(portUid)), BridgePortName(portUid), vmVlan);
    AttachDetachEffect(bridged, OvsPortName(portUid));
    SgLinksIdle(bridged.(ports := bridged.ports + {(VmBridgeName, OvsPortName(portUid))}), portUid, vmVlan);
  }

  /** With a security group, the unplumbing removes the Linux bridge and detaches the
      veth's OVS end from `br0`. */
  lemma SgUnplumbEffect(n: Net, portUid: string)
    ensures Replay(n, SgUnplumbSteps(portUid)) ==
            n.(bridges := n.bridges - {BridgeName(portUid)}, ports := n.ports - {(VmBridgeName, OvsPortName(portUid))})
  {
    var t := SgUnplumbSteps(portUid);
    assert t == t[..2] + t[2..] && t[..2] == [t[0], t[1]] && t[2..] == [t[2], t[3]];
    ReplayAppend(n, t[..2], t[2..]);
    ReplayTwo(n, t[0], t[1]);
    LinkStateIdle(n, BridgeName(portUid), None);
    LinuxBridgeEffect(n, BridgeName(portUid));
    var unbridged := n.(bridges := n.bridges - {BridgeName(portUid)});
    ReplayTwo(unbridged, t[2], t[3]);
    VethIdle(unbridged, BridgePortName(portUid), "");
    AttachDetachEffect(unbridged, OvsPortName(portUid));
  }

  /** What `create_vm_port_about` with a security group does to the host: the Linux
      bridge, the OVS end of the veth on `br0` and the port's empty set. */
  lemma SgCreateEffect(n: Net, portUid: string, vmVlan: int, created: Firewall.IptablesFirewallDriver)
    requires portUid != "" && created.Valid() && IpsetName(portUid) !in n.sets
    ensures Replay(n, SgCreateSteps(portUid, vmVlan, created)) ==
            Net(n.bridges + {BridgeName(portUid)}, n.ports + {(VmBridgeName, OvsPortName(portUid))},
                n.namespaces, n.routes, n.sets[IpsetName(portUid) := {}])
  {
    SgCreateReplay(n, portUid, vmVlan, created);
    SgPlumbEffect(n, portUid, vmVlan);
    ChainsIdle(Replay(n, SgPlumbSteps(portUid, vmVlan)), created);
    CreateSetStep(Replay(n, SgPlumbSteps(portUid, vmVlan)), IpsetName(portUid));
  }

  /** The create is replayed as its plumbing, its chains, then its set. */
  lemma SgCreateReplay(n: Net, portUid: string, vmVlan: int, created: Firewall.IptablesFirewallDriver)
    requires portUid != "" && created.Valid()
    ensures Replay(n, SgCreateSteps(portUid, vmVlan, created)) ==
            Replay(Replay(Replay(n, SgPlumbSteps(portUid, vmVlan)),
                          created.PortChainActions(Firewall.EgressDirection) + created.PortChainActions(Firewall.IngressDirection)),
                   [Exec(Ipset.CreateArgv(IpsetName(portUid)))])
  {
    SgCreateParts(portUid, vmVlan, created);
    ReplayThree(n, SgPlumbSteps(portUid, vmVlan), created.PortChainActions(Firewall.EgressDirection) +
                created.PortChainActions(Firewall.IngressDirection), [Exec(Ipset.CreateArgv(IpsetName(portUid)))]);
  }

  lemma SgCreateParts(portUid: string, vmVlan: int, created: Firewall.IptablesFirewallDriver)
    requires portUid != "" && created.Valid()
    ensures SgCreateSteps(portUid, vmVlan, created) ==
            SgPlumbSteps(portUid, vmVlan) +
            (created.PortChainActions(Firewall.EgressDirection) + created.PortChainActions(Firewall.IngressDirection)) +
            [Exec(Ipset.CreateArgv(IpsetName(portUid)))]
  {
  }

  /** The firewall requests of a port's chains change nothing `Net` tracks. */
  lemma ChainsIdle(m: Net, created: Firewall.IptablesFirewallDriver)
    requires created.Valid()
    ensures Replay(m, created.PortChainActions(Firewall.EgressDirection) + created.PortChainActions(Firewall.IngressDirection)) == m
  {
    created.PortChainsApplyOnly();
    NoCommandsIdle(m, created.PortChainActions(Firewall.EgressDirection) + created.PortChainActions(Firewall.IngressDirection));
  }

  /** Creating an absent set adds it empty. */
  lemma CreateSetStep(m: Net, name: string)
    requires name !in m.sets
    ensures Replay(m, [Exec(Ipset.CreateArgv(name))]) == m.(sets := m.sets[name := {}])
  {
    ReplayOne(m, Exec(Ipset.CreateArgv(name)));
    SetCommandsEffect(m, name);
  }

  /** What `clean_vm_port_about` with a security group does to the host: the Linux
      bridge, the OVS end of the veth and the port's set are gone. */
  lemma SgCleanEffect(n: Net, portUid: string, cleaned: Firewall.IptablesFirewallDriver)
    requires portUid != "" && cleaned.Valid()
    ensures Replay(n, SgCleanSteps(portUid, cleaned)) ==
            Net(n.bridges - {BridgeName(portUid)}, n.ports - {(VmBridgeName, OvsPortName(portUid))},
                n.namespaces, n.routes, n.sets - {IpsetName(portUid)})
  {
    var name := IpsetName(portUid);
    var unplumb := SgUnplumbSteps(portUid);
    var chains := [cleaned.DeleteChainAction(cleaned.chainSuffix[Firewall.EgressDirection], true),
                   cleaned.DeleteChainAction(cleaned.chainSuffix[Firewall.IngressDirection], true)];
    var destroy := [Exec(Ipset.DestroyArgv(name))];
    assert SgCleanSteps(portUid, cleaned) == unplumb + chains + destroy;
    ReplayAppend(n, unplumb + chains, destroy);
    ReplayAppend(n, unplumb, chains);
    SgUnplumbEffect(n, portUid);
    var unplumbed := n.(bridges := n.bridges - {BridgeName(portUid)}, ports := n.ports - {(VmBridgeName, OvsPortName(portUid))});
    NoCommandsIdle(unplumbed, chains);
    ReplayOne(unplumbed, destroy[0]);
    SetCommandsEffect(unplumbed, name);
  }

  /** The plumbing and unplumbing are command lines only: no chain among them. */
  lemma SgStepsTouchNoChain(portUid: string, vmVlan: int)
    ensures Firewall.Declared(SgPlumbSteps(portUid, vmVlan)) == {} && Firewall.Removed(SgPlumbSteps(portUid, vmVlan)) == {}
    ensures Firewall.Declared(SgUnplumbSteps(portUid)) == {} && Firewall.Removed(SgUnplumbSteps(portUid)) == {}
  {
    CommandsTouchNoChain(SgPlumbSteps(portUid, vmVlan));
    CommandsTouchNoChain(SgUnplumbSteps(portUid));
  }

  /** The chains the clean removes are exactly the two the create declared, for drivers
      built from the same uid and binary name. */
  lemma SgChainsRoundTrip(portUid: string, vmVlan: int,
                          created: Firewall.IptablesFirewallDriver, cleaned: Firewall.IptablesFirewallDriver)
    requires portUid != "" && created.Valid() && cleaned.Valid()
    requires created.uidPrefix == cleaned.uidPrefix && created.binaryName == cleaned.binaryName
    ensures Firewall.Declared(SgCreateSteps(portUid, vmVlan, created)) ==
            Firewall.Removed(SgCleanSteps(portUid, cleaned)) ==
            {created.PortChain(Firewall.EgressDirection), created.PortChain(Firewall.IngressDirection)}
  {
    var name := IpsetName(portUid);
    var plumb := SgPlumbSteps(portUid, vmVlan);
    var unplumb := SgUnplumbSteps(portUid);
    var chainsUp := created.PortChainActions(Firewall.EgressDirection) + created.PortChainActions(Firewall.IngressDirection);
    var chainsDown := [cleaned.DeleteChainAction(cleaned.chainSuffix[Firewall.EgressDirection], true),
                       cleaned.DeleteChainAction(cleaned.chainSuffix[Firewall.IngressDirection], true)];
    var create := [Exec(Ipset.CreateArgv(name))];
    var destroy := [Exec(Ipset.DestroyArgv(name))];
    assert SgCreateSteps(portUid, vmVlan, created) == plumb + chainsUp + create;
    assert SgCleanSteps(portUid, cleaned) == unplumb + chainsDown + destroy;
    SgStepsTouchNoChain(portUid, vmVlan);
    Firewall.DeclaredAppend(plumb + chainsUp, create);
    Firewall.DeclaredAppend(plumb, chainsUp);
    Firewall.DeclaredAppend(unplumb + chainsDown, destroy);
    Firewall.DeclaredAppend(unplumb, chainsDown);
    created.RemoveUndoesAdd();
    cleaned.RemoveUndoesAdd();
  }

  /** With a security group, `clean_vm_port_about` undoes `create_vm_port_about` on a
      host that held none of the port's bridge, OVS port and set. */
  lemma SgRoundTrip(n: Net, portUid: string, vmVlan: int,
                    created: Firewall.IptablesFirewallDriver, cleaned: Firewall.IptablesFirewallDriver)
    requires portUid != "" && created.Valid() && cleaned.Valid()
    requires BridgeName(portUid) !in n.bridges && (VmBridgeName, OvsPortName(portUid)) !in n.ports
    requires IpsetName(portUid) !in n.sets
    ensures Replay(n, SgCreateSteps(portUid, vmVlan, created) + SgCleanSteps(portUid, cleaned)) == n
  {
    var up := SgCreateSteps(portUid, vmVlan, created);
    var made := Net(n.bridges + {BridgeName(portUid)}, n.ports + {(VmBridgeName, OvsPortName(portUid))},
                    n.namespaces, n.routes, n.sets[IpsetName(portUid) := {}]);
    ReplayAppend(n, up, SgCleanSteps(portUid, cleaned));
    SgCreateEffect(n, portUid, vmVlan, created);
    SgCleanEffect(made, portUid, cleaned);
    AddRemoveSet(n.bridges, {BridgeName(portUid)});
    AddRemoveSet(n.ports, {(VmBridgeName, OvsPortName(portUid))});
    AddRemoveKey(n.sets, IpsetName(portUid), {});
  }

  /** `create_vm_dhcp(first=True)` makes the server's namespace and attaches its port to
      `br0`; moving the port, raising it, addressing it and starting dnsmasq change
      nothing else `Net` tracks. */
  lemma DhcpStartEffect(n: Net, netUid: string, mask: int, vlan: Option<int>, namespace: Option<string>,
                        listenAddr: string, server: Dhcp.Dnsmasq)
    ensures Replay(n, DhcpStartSteps(netUid, mask, vlan, namespace, listenAddr, server)) ==
            n.(namespaces := n.namespaces + {DhcpNamespace(netUid, namespace)},
               ports := n.ports + {(VmBridgeName, DhcpPortName(netUid))})
  {
    var t := DhcpStartSteps(netUid, mask, vlan, namespace, listenAddr, server);
    var ns := DhcpNamespace(netUid, namespace);
    var port := DhcpPortName(netUid);
    assert t == t[..2] + t[2..4] + t[4..];
    assert t[..2] == [t[0], t[1]] && t[2..4] == [t[2], t[3]] && t[4..] == [t[4], t[5]];
    ReplayAppend(n, t[..2] + t[2..4], t[4..]);
    ReplayAppend(n, t[..2], t[2..4]);
    ReplayTwo(n, t[0], t[1]);
    NamespaceCommandsEffect(n, ns);
    InternalAttachEffect(Effect(n, t[0]), port, vlan);
    var started := n.(namespaces := n.namespaces + {ns}, ports := n.ports + {(VmBridgeName, port)});
    ReplayTwo(started, t[2], t[3]);
    LinkConfigIdle(started, port, ns, listenAddr, mask, Some(ns));
    LinkStateIdle(started, port, Some(ns));
    ReplayTwo(started, t[4], t[5]);
  }

  /** `clean_dhcp_about` detaches the server's port and deletes its namespace. */
  lemma DhcpCleanEffect(n: Net, netUid: string, namespace: Option<string>)
    ensures Replay(n, DhcpCleanSteps(netUid, namespace)) ==
            n.(namespaces := n.namespaces - {DhcpNamespace(netUid, namespace)},
               ports := n.ports - {(VmBridgeName, DhcpPortName(netUid))})
  {
    var t := DhcpCleanSteps(netUid, namespace);
    assert t == t[..2] + t[2..] && t[..2] == [t[0], t[1]] && t[2..] == [t[2], t[3]];
    ReplayAppend(n, t[..2], t[2..]);
    ReplayTwo(n, t[0], t[1]);
    AttachDetachEffect(n, DhcpPortName(netUid));
    NamespaceCommandsEffect(Effect(n, t[0]), DhcpNamespace(netUid, namespace));
    ReplayTwo(Effect(Effect(n, t[0]), t[1]), t[2], t[3]);
  }

  /** `clean_dhcp_about` undoes `create_vm_dhcp(first=True)` for the same network and
      namespace argument, on a host that held neither the namespace nor the port. */
  lemma DhcpRoundTrip(n: Net, netUid: string, mask: int, vlan: Option<int>, namespace: Option<string>,
                      listenAddr: string, server: Dhcp.Dnsmasq)
    requires DhcpNamespace(netUid, namespace) !in n.namespaces
    requires (VmBridgeName, DhcpPortName(netUid)) !in n.ports
    ensures Replay(n, DhcpStartSteps(netUid, mask, vlan, namespace, listenAddr, server) +
                      DhcpCleanSteps(netUid, namespace)) == n
  {
    var up := DhcpStartSteps(netUid, mask, vlan, namespace, listenAddr, server);
    var made := n.(namespaces := n.namespaces + {DhcpNamespace(netUid, namespace)},
                   ports := n.ports + {(VmBridgeName, DhcpPortName(netUid))});
    ReplayAppend(n, up, DhcpCleanSteps(netUid, namespace));
    DhcpStartEffect(n, netUid, mask, vlan, namespace, listenAddr, server);
    DhcpCleanEffect(made, netUid, namespace);
    AddRemoveSet(n.namespaces, {DhcpNamespace(netUid, namespace)});
    AddRemoveSet(n.ports, {(VmBridgeName, DhcpPortName(netUid))});
  }

  /** Moving both router ports into the namespace and raising them there change nothing
      `Net` tracks. */
  lemma L3LinksIdle(m: Net, vmPort: string, stuPort: string, ns: string)
    requires ns != ""
    ensures Replay(m, [Exec(IpLib.SetNetnsArgv(vmPort, ns)), Exec(IpLib.SetNetnsArgv(stuPort, ns))]) == m
    ensures Replay(m, [Exec(IpLib.SetPortUpArgv(vmPort, Some(ns))), Exec(IpLib.SetPortUpArgv(stuPort, Some(ns)))]) == m
  {
    ReplayTwo(m, Exec(IpLib.SetNetnsArgv(vmPort, ns)), Exec(IpLib.SetNetnsArgv(stuPort, ns)));
    ReplayTwo(m, Exec(IpLib.SetPortUpArgv(vmPort, Some(ns))), Exec(IpLib.SetPortUpArgv(stuPort, Some(ns))));
    LinkConfigIdle(m, vmPort, ns, "", 0, None);
    LinkConfigIdle(m, stuPort, ns, "", 0, None);
    LinkStateIdle(m, vmPort, Some(ns));
    LinkStateIdle(m, stuPort, Some(ns));
  }

  /** Nor does giving both router ports their gateways. */
  lemma L3AddressesIdle(m: Net, vmPort: string, vmGateway: string, vmMask: int,
                        stuPort: string, stuGateway: string, stuMask: int, ns: string)
    ensures Replay(m, [Exec(IpLib.AddIpArgv(vmPort, vmGateway, vmMask, Some(ns))),
                       Exec(IpLib.AddIpArgv(stuPort, stuGateway, stuMask, Some(ns)))]) == m
  {
    ReplayTwo(m, Exec(IpLib.AddIpArgv(vmPort, vmGateway, vmMask, Some(ns))),
                 Exec(IpLib.AddIpArgv(stuPort, stuGateway, stuMask, Some(ns))));
    LinkConfigIdle(m, vmPort, ns, vmGateway, vmMask, Some(ns));
    LinkConfigIdle(m, stuPort, ns, stuGateway, stuMask, Some(ns));
  }

  /** Making the router's namespace and attaching its two ports. */
  lemma L3AttachEffect(n: Net, ns: string, vmPort: string, vmVlan: Option<int>, stuPort: string, l3Vlan: Option<int>)
    ensures Replay(n, [Exec(IpLib.NetnsAddArgv(ns)),
                       Exec(Ovs.AddPortInternalArgv(VmBridge, vmPort, vmVlan)),
                       Exec(Ovs.AddPortInternalArgv(VmBridge, stuPort, l3Vlan))]) ==
            n.(namespaces := n.namespaces + {ns}, ports := n.ports + {(VmBridgeName, vmPort), (VmBridgeName, stuPort)})
  {
    var make := Exec(IpLib.NetnsAddArgv(ns));
    var attach := [Exec(Ovs.AddPortInternalArgv(VmBridge, vmPort, vmVlan)),
                   Exec(Ovs.AddPortInternalArgv(VmBridge, stuPort, l3Vlan))];
    assert [make] + attach == [make, attach[0], attach[1]];
    ReplayAppend(n, [make], attach);
    ReplayOne(n, make);
    NamespaceCommandsEffect(n, ns);
    var spaced := n.(namespaces := n.namespaces + {ns});
    ReplayTwo(spaced, attach[0], attach[1]);
    InternalAttachEffect(spaced, vmPort, vmVlan);
    InternalAttachEffect(Effect(spaced, attach[0]), stuPort, l3Vlan);
  }

  /** The steps of `create_l3` in four runs: attach, move, raise, address. */
  lemma L3StepsParts(l3Uid: string, netUid: string, vmVlan: Option<int>, l3Vlan: Option<int>,
                     vmGateway: string, vmMask: int, stuGateway: string, stuMask: int)
    ensures var ns := L3Namespace(l3Uid, None);
            var vmPort, stuPort := L3VmPortName(netUid), L3StuPortName(l3Uid);
            L3Steps(l3Uid, netUid, vmVlan, l3Vlan, vmGateway, vmMask, stuGateway, stuMask) ==
            [Exec(IpLib.NetnsAddArgv(ns)),
             Exec(Ovs.AddPortInternalArgv(VmBridge, vmPort, vmVlan)),
             Exec(Ovs.AddPortInternalArgv(VmBridge, stuPort, l3Vlan))] +
            [Exec(IpLib.SetNetnsArgv(vmPort, ns)), Exec(IpLib.SetNetnsArgv(stuPort, ns))] +
            [Exec(IpLib.SetPortUpArgv(vmPort, Some(ns))), Exec(IpLib.SetPortUpArgv(stuPort, Some(ns)))] +
            [Exec(IpLib.AddIpArgv(vmPort, vmGateway, vmMask, Some(ns))),
             Exec(IpLib.AddIpArgv(stuPort, stuGateway, stuMask, Some(ns)))]
  {
    var ns := L3Namespace(l3Uid, None);
    var vmPort, stuPort := L3VmPortName(netUid), L3StuPortName(l3Uid);
    Lists.SplitNine(Exec(IpLib.NetnsAddArgv(ns)),
                    Exec(Ovs.AddPortInternalArgv(VmBridge, vmPort, vmVlan)),
                    Exec(Ovs.AddPortInternalArgv(VmBridge, stuPort, l3Vlan)),
                    Exec(IpLib.SetNetnsArgv(vmPort, ns)), Exec(IpLib.SetNetnsArgv(stuPort, ns)),
                    Exec(IpLib.SetPortUpArgv(vmPort, Some(ns))), Exec(IpLib.SetPortUpArgv(stuPort, Some(ns))),
                    Exec(IpLib.AddIpArgv(vmPort, vmGateway, vmMask, Some(ns))),
                    Exec(IpLib.AddIpArgv(stuPort, stuGateway, stuMask, Some(ns))));
  }

  /** `create_l3` makes the router's namespace and attaches both its ports to `br0`. */
  lemma L3Effect(n: Net, l3Uid: string, netUid: string, vmVlan: Option<int>, l3Vlan: Option<int>,
                 vmGateway: string, vmMask: int, stuGateway: string, stuMask: int)
    ensures Replay(n, L3Steps(l3Uid, netUid, vmVlan, l3Vlan, vmGateway, vmMask, stuGateway, stuMask)) ==
            n.(namespaces := n.namespaces + {L3Namespace(l3Uid, None)},
               ports := n.ports + {(VmBridgeName, L3VmPortName(netUid)), (VmBridgeName, L3StuPortName(l3Uid))})
  {
    var ns := L3Namespace(l3Uid, None);
    var vmPort, stuPort := L3VmPortName(netUid), L3StuPortName(l3Uid);
    var attach := [Exec(IpLib.NetnsAddArgv(ns)),
                   Exec(Ovs.AddPortInternalArgv(VmBridge, vmPort, vmVlan)),
                   Exec(Ovs.AddPortInternalArgv(VmBridge, stuPort, l3Vlan))];
    var moves := [Exec(IpLib.SetNetnsArgv(vmPort, ns)), Exec(IpLib.SetNetnsArgv(stuPort, ns))];
    var raises := [Exec(IpLib.SetPortUpArgv(vmPort, Some(ns))), Exec(IpLib.SetPortUpArgv(stuPort, Some(ns)))];
    var addresses := [Exec(IpLib.AddIpArgv(vmPort, vmGateway, vmMask, Some(ns))),
                      Exec(IpLib.AddIpArgv(stuPort, stuGateway, stuMask, Some(ns)))];
    L3StepsParts(l3Uid, netUid, vmVlan, l3Vlan, vmGateway, vmMask, stuGateway, stuMask);
    ReplayFourRuns(n, attach, moves, raises, addresses);
    L3AttachEffect(n, ns, vmPort, vmVlan, stuPort, l3Vlan);
    var made := Replay(n, attach);
    L3LinksIdle(made, vmPort, stuPort, ns);
    L3AddressesIdle(made, vmPort, vmGateway, vmMask, stuPort, stuGateway, stuMask, ns);
  }

  /** `clean_l3_about` detaches both router ports and deletes the namespace it names. */
  lemma L3CleanEffect(n: Net, l3Uid: string, netUid: string, namespace: Option<string>)
    ensures Replay(n, L3CleanSteps(l3Uid, netUid, namespace)) ==
            n.(namespaces := n.namespaces - {L3Namespace(l3Uid, namespace)},
               ports := n.ports - {(VmBridgeName, L3VmPortName(netUid)), (VmBridgeName, L3StuPortName(l3Uid))})
  {
    var t := L3CleanSteps(l3Uid, netUid, namespace);
    assert t == t[..2] + t[2..] && t[..2] == [t[0], t[1]] && t[2..] == [t[2]];
    ReplayAppend(n, t[..2], t[2..]);
    ReplayTwo(n, t[0], t[1]);
    AttachDetachEffect(n, L3VmPortName(netUid));
    AttachDetachEffect(Effect(n, t[0]), L3StuPortName(l3Uid));
    ReplayOne(Effect(Effect(n, t[0]), t[1]), t[2]);
    NamespaceCommandsEffect(Effect(Effect(n, t[0]), t[1]), L3Namespace(l3Uid, namespace));
  }

  /** `clean_l3_about` without a namespace argument undoes `create_l3`, on a host that held
      neither the router's namespace nor its ports. */
  lemma L3RoundTrip(n: Net, l3Uid: string, netUid: string, vmVlan: Option<int>, l3Vlan: Option<int>,
                    vmGateway: string, vmMask: int, stuGateway: string, stuMask: int, namespace: Option<string>)
    requires !Truthy(namespace)
    requires L3Namespace(l3Uid, None) !in n.namespaces
    requires (VmBridgeName, L3VmPortName(netUid)) !in n.ports && (VmBridgeName, L3StuPortName(l3Uid)) !in n.ports
    ensures Replay(n, L3Steps(l3Uid, netUid, vmVlan, l3Vlan, vmGateway, vmMask, stuGateway, stuMask) +
                      L3CleanSteps(l3Uid, netUid, namespace)) == n
  {
    var up := L3Steps(l3Uid, netUid, vmVlan, l3Vlan, vmGateway, vmMask, stuGateway, stuMask);
    var both := {(VmBridgeName, L3VmPortName(netUid)), (VmBridgeName, L3StuPortName(l3Uid))};
    var made := n.(namespaces := n.namespaces + {L3Namespace(l3Uid, None)}, ports := n.ports + both);
    ReplayAppend(n, up, L3CleanSteps(l3Uid, netUid, namespace));
    L3Effect(n, l3Uid, netUid, vmVlan, l3Vlan, vmGateway, vmMask, stuGateway, stuMask);
    L3CleanEffect(made, l3Uid, netUid, namespace);
    AddRemoveSet(n.namespaces, {L3Namespace(l3Uid, None)});
    AddRemovePair(n.ports, (VmBridgeName, L3VmPortName(netUid)), (VmBridgeName, L3StuPortName(l3Uid)));
  }

  /** `add_route` then `delete_route` with the same arguments leaves the routes as they
      were when the router had no route to that destination; in between the destination
      leaves by the given port. */
  lemma RouteRoundTrip(n: Net, l3Uid: string, cidr: string, outPort: string, namespace: Option<string>)
    requires RouteKey(Some(L3Namespace(l3Uid, namespace)), cidr) !in n.routes
    ensures Replay(n, [Exec(IpLib.AddOnlinkRouteArgv(outPort, cidr, Some(L3Namespace(l3Uid, namespace))))]) ==
            n.(routes := n.routes[RouteKey(Some(L3Namespace(l3Uid, namespace)), cidr) := outPort])
    ensures Replay(n, [Exec(IpLib.AddOnlinkRouteArgv(outPort, cidr, Some(L3Namespace(l3Uid, namespace)))),
                       Exec(IpLib.DeleteOnlinkRouteArgv(outPort, cidr, Some(L3Namespace(l3Uid, namespace))))]) == n
  {
    var ns := L3Namespace(l3Uid, namespace);
    var add := Exec(IpLib.AddOnlinkRouteArgv(outPort, cidr, Some(ns)));
    var del := Exec(IpLib.DeleteOnlinkRouteArgv(outPort, cidr, Some(ns)));
    ReplayOne(n, add);
    ReplayTwo(n, add, del);
    RouteCommandsEffect(n, outPort, cidr, ns);
    RouteCommandsEffect(Effect(n, add), outPort, cidr, ns);
    AddRemoveKey(n.routes, RouteKey(Some(ns), cidr), outPort);
  }

  /** One `-A` line adds the address to an existing set and changes nothing else. */
  lemma AddMemberEffect(n: Net, ip: string, name: string)
    requires name in n.sets
    ensures Effect(n, Exec(Ipset.AddMemberArgv(ip, name))) == n.(sets := n.sets[name := n.sets[name] + {ip}])
  {
    assert Ipset.AddMemberArgv(ip, name)[..2] == ["ipset", "-A"];
  }

  /** The addresses of a list are its head's and its tail's. */
  lemma ElementsFront(ips: seq<string>)
    requires ips != []
    ensures Lists.Elements(ips) == {ips[0]} + Lists.Elements(ips[1..])
  {
    forall x ensures x in Lists.Elements(ips) <==> x in {ips[0]} + Lists.Elements(ips[1..]) {
      assert x in ips <==> x == ips[0] || x in ips[1..];
    }
  }

  /** With the rest of the lines known to fill the set, all of them do: the first line
      adds the list's head. */
  lemma MemberStepsFront(n: Net, ips: seq<string>, name: string)
    requires ips != [] && name in n.sets
    requires var filled := n.(sets := n.sets[name := n.sets[name] + {ips[0]}]);
             Replay(filled, MemberSteps(ips[1..], name)) ==
             filled.(sets := filled.sets[name := filled.sets[name] + Lists.Elements(ips[1..])])
    ensures Replay(n, MemberSteps(ips, name)) == n.(sets := n.sets[name := n.sets[name] + Lists.Elements(ips)])
  {
    MemberStepsHead(n, ips, name);
    AddMemberEffect(n, ips[0], name);
    FillFront(n, ips, name);
  }

  /** Replaying the `-A` lines is replaying the first, then the rest. */
  lemma MemberStepsHead(n: Net, ips: seq<string>, name: string)
    requires ips != []
    ensures Replay(n, MemberSteps(ips, name)) ==
            Replay(Effect(n, Exec(Ipset.AddMemberArgv(ips[0], name))), MemberSteps(ips[1..], name))
  {
  }

  /** Adding the head, then the rest, to a set adds the whole list. */
  lemma FillFront(n: Net, ips: seq<string>, name: string)
    requires ips != [] && name in n.sets
    ensures var filled := n.(sets := n.sets[name := n.sets[name] + {ips[0]}]);
            filled.(sets := filled.sets[name := filled.sets[name] + Lists.Elements(ips[1..])]) ==
            n.(sets := n.sets[name := n.sets[name] + Lists.Elements(ips)])
  {
    ElementsFront(ips);
    var all := n.sets[name] + Lists.Elements(ips);
    assert n.sets[name] + {ips[0]} + Lists.Elements(ips[1..]) == all;
    UpdateTwice(n.sets, name, n.sets[name] + {ips[0]}, all);
  }

  /** The `-A` lines of `add_ipset_rule` put every address into an existing set, keep its
      members, and change nothing else. */
  lemma {:induction false} MemberStepsFill(n: Net, ips: seq<string>, name: string)
    requires name in n.sets
    ensures Replay(n, MemberSteps(ips, name)) == n.(sets := n.sets[name := n.sets[name] + Lists.Elements(ips)])
    decreases |ips|
  {
    if ips == [] {
      assert MemberSteps(ips, name) == [];
      assert n.sets[name] + Lists.Elements(ips) == n.sets[name];
      assert n.sets[name := n.sets[name]] == n.sets;
    } else {
      MemberStepsFill(n.(sets := n.sets[name := n.sets[name] + {ips[0]}]), ips[1..], name);
      MemberStepsFront(n, ips, name);
    }
  }
}
