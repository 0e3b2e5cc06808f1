/** The naming constants of config.py that the modelled code uses. */
module Config {
  import opened Text

  /** Only this many leading characters of an identifier name its devices. */
  const UidPrefixBit: nat := 10

  const VmPortPrefix := "tap"
  const L3NamespacePrefix := "l3_ns-"
  const LoopbackDevName := "lo"
  const L3VmPortPrefix := "l3-vm"
  const L3StuPortPrefix := "l3-st"
  const VmBridgePortPrefix := "qvb-"
  const VmOvsPortPrefix := "qvo-"
  const OvsVsctlTimeout: nat := 10
  const NsDhcpPrefix := "qdhcp-"
  const NsDhcpInterfacePrefix := "dhcp"
  const DhcpConfigFilePrefix := "/var/lib/dnsmasq/dhcp/"
  const DhcpHost := "host"
  const DhcpLeasesName := "leases"
  const DhcpPidName := "pid"
  const BridgeNamePrefix := "qbr-"
  const IpSetPrefixName := "NIPv4"
  const VmBridgeName := "br0"
  const MirrorBridge := "br1"

  /** `uid[:UID_PREFIX_BIT]`: the part of an identifier every derived name is built from. */
  function UidPrefix(uid: string): (p: string)
    ensures |p| <= UidPrefixBit && |p| <= |uid| && p == uid[..|p|]
    ensures |uid| >= UidPrefixBit ==> |p| == UidPrefixBit
  {
    Take(uid, UidPrefixBit)
  }
}
