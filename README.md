# network2.0 host agent, modelled in Dafny

The modelled Python agent plumbs virtual machines into a host's networking.
For each VM port it creates a Linux bridge and a veth pair, attaches them to the
Open vSwitch bridge `br0`, and wraps the port in per-port iptables chains and an
ipset set (the "security group"). For each network it runs a dnsmasq DHCP server
inside its own namespace. For each tenant router it creates a namespace holding
two internal OVS ports. It reaches the host only by running command-line tools:
`iptables-save`/`iptables-restore`, `ipset`, `ip`, `ovs-vsctl`, `ovs-ofctl`,
`brctl` and dnsmasq.

The model has one Dafny module per Python file. A few helper modules sit beside
them: `Wrappers` (Option/Result), `Text` (Python's `strip`, `split`, `join`,
`in`, `int()`), `Lists`, `Sorting` (`sorted` of a set of strings), `Inet`
(IPy's reading of IPv4 text, and `inet_aton`/`inet_ntoa`/`htonl`/`struct` on a
little-endian host) and `Config`
(the constants of `config.py`).

- `Iptables` (iptables_manager.py) reconciles one table of an `iptables-save`
  dump with the chains and rules a manager was asked to add or remove.
  - The dump is a parameter; the text handed to `iptables-restore` is the result.
  - `IptablesManager` and `IptablesTable` are classes whose set and list fields
    `add_chain`, `remove_chain`, `add_rule` and `remove_rule` update.
  - `_find_rules_index` and the loops of `_modify_rules` are methods with loop
    invariants, proved against the functions `RulesIndex` and `ModifyLines`.
- `Dhcp` (dhcp.py) covers the 32-bit address arithmetic of `ip_expr` and
  `Dnsmasq_base._gateway`, the per-network names, paths and dnsmasq argv, the pid
  guard of `kill_process`/`reload_process`, and the edits of the `mac,ip` hosts
  file (class `HostsFile`).
- `Ovs` (ovs_lib.py) holds:
  - the `ovs-vsctl` and `ovs-ofctl` command lines;
  - `_build_flow_expr_str`, which pops keys from a caller's dictionary (class `FlowDict`);
  - the parsers `db_str_to_map`, `count_flows` and `get_port_ofport`.
- `IpLib` (ip_lib.py) holds the `ip` argv builders, `IPDevice.__eq__`, and the
  output parsers `get_devices`, `get_namespaces`, `exists`, `list_onlink_routes`
  and `get_gateway`.
- `Ipset` (ipset_manager.py) holds set names, the `ipset` argv, and `IpsetManager`
  as a class that records its commands. It also gives a reference semantics of
  those commands on the kernel's sets.
- `Firewall` (iptables_firewall.py) holds `IptablesFirewallDriver`: the per-port
  chain names, the physdev jump rules, the ipset match rule, and the order of the
  `iptables_apply` calls each method makes.
- `Actions` records what the code asks of the host: command lines for
  `utils.execute`, `iptables_apply` calls and dnsmasq operations. Each is recorded
  in order on a `Host` object.
- `Net` gives the recorded command lines a meaning: Linux bridges, OVS ports,
  namespaces, on-link routes and root-namespace ipset sets. Everything else a
  command does leaves that state as it was.
- `LinuxBridge` (linuxbridge.py) holds the `brctl` argv of `LinuxBridgeManager`.
- `Encapsulation` (encapsulation.py) holds the verbs as methods that record their
  commands in order. `Net.Replay` of those commands shows what each create verb
  builds and that the matching clean verb removes it.

## Model

| member | source | states |
|---|---|---|
| Config.UidPrefix | config.py:6 | An identifier's prefix is its first ten characters, or all of it when shorter. |
| Iptables.GetChainName | iptables_manager.py:32-36 | The result is a prefix of the name, at most 11 characters when wrapped and 28 otherwise; a name within the limit is kept whole. |
| Iptables.GetChainNameIdempotent | iptables_manager.py:32-36 | Cutting a chain name twice gives the same as cutting it once. |
| Iptables.RuleLineRoundTrip | iptables_manager.py:53-54 | `str(rule)` is `-A <chain> <rule>`, and for a chain without spaces both parts read back from it. |
| Iptables.SliceAssign | iptables_manager.py:138-139 | `xs[i:j] = ys` keeps the lines before the clamped region and the lines after it, with `ys` between them. |
| Iptables.SliceAssignSame | iptables_manager.py:138-139 | Writing back the slice just read leaves the list unchanged. |
| Iptables.InsertAt | iptables_manager.py:223 | `xs[i:i] = ys` inserts `ys` before the clamped position, keeping every old line. |
| Iptables.IndexOf | iptables_manager.py:154 | `list.index` finds the first occurrence, and fails exactly when the item is absent. |
| Iptables.FindTable | iptables_manager.py:152-160 | The region runs from one line before `*<table>` to one line after the first later `COMMIT`. It is (0, 0) when the header is missing and fails when no `COMMIT` follows. |
| Iptables.FirstFrom | iptables_manager.py:166-172 | The first index at or after `from` whose line is (or is not) a declaration, with every line before it of the other kind. |
| Iptables.RulesIndexSpec | iptables_manager.py:163-177 | The rules index is the first non-declaration after the first run of `:` lines. It is the last index when that run reaches the end, and 2 when there is no declaration. |
| Iptables.FindRulesIndex | iptables_manager.py:163-177 | The flag-driven loop returns exactly `RulesIndex`. |
| Iptables.FindLastEntrySpec | iptables_manager.py:179-183 | `_find_last_entry` returns the stripped last line that mentions the needle, and returns something exactly when some line does. |
| Iptables.GetChainRulesSpec | iptables_manager.py:191-194 | A line is kept exactly when it starts with `[` and mentions the stripped chain. |
| Iptables.CleanChainRulesSpec | iptables_manager.py:196-199 | A line survives exactly when it starts with `[` and does not mention the chain. |
| Iptables.ChainRulesPartition | iptables_manager.py:191-199 | Every counted line lands in exactly one of `get_chain_rules` and `clean_chain_rules`. |
| Iptables.ChainDeclSkipsPresent | iptables_manager.py:210-221 | A chain gets a `:<name> - [0:0]` declaration exactly when no line mentions it yet. |
| Iptables.RuleLineSpec | iptables_manager.py:227-234 | A rule already mentioned is still written, only without the `[0:0] ` prefix; any other rule gets the prefix. |
| Iptables.RemoveMatchingSpec | iptables_manager.py:238-246 | A line survives removal exactly when its stripped text mentions no removed chain or rule. |
| Iptables.RemoveMatchingAppend | iptables_manager.py:238-246 | Removal works line by line, so surviving lines keep their relative order. |
| Iptables.RemoveMatchingKeepsAll | iptables_manager.py:238-246 | Lines that match no pattern all survive. |
| Iptables.RemoveMatchingCompose | iptables_manager.py:238-246 | Removing the chains and then the rules equals one removal by both sets of patterns. |
| Iptables.ModifyNothing | iptables_manager.py:201-248 | With nothing to add or remove, `_modify_rules` returns its input unchanged. |
| Iptables.RulesInsertedAsBlock | iptables_manager.py:225-236 | New rules go in as one contiguous block at the rules index, in request order. |
| Iptables.ModifyChainsOnly | iptables_manager.py:202-223 | Adding one chain and nothing else is the declaration step alone. |
| Iptables.DeclMentions | iptables_manager.py:216 | The declaration written for a chain mentions that chain. |
| Iptables.NewDeclAtRulesIndex | iptables_manager.py:222-223 | A new declaration sits at the rules index, with the old lines around it. |
| Iptables.StrippedDeclMentions | iptables_manager.py:211-216 | The stripped declaration of a non-empty chain name mentions the name. |
| Iptables.MentionedByNewDecl | iptables_manager.py:212-221 | A chain that gets a new declaration is mentioned by it. |
| Iptables.MentionedWithoutDecl | iptables_manager.py:212-219 | A chain that gets no declaration was already mentioned, and the lines are unchanged. |
| Iptables.ChainMentionedAfterAdd | iptables_manager.py:208-223 | After a chain is added, some line mentions it. |
| Iptables.AddPresentChain | iptables_manager.py:212-219 | Adding a chain that some line already mentions changes nothing. |
| Iptables.AddChainIdempotent | iptables_manager.py:202-223 | Adding the same chain twice yields one declaration. |
| Iptables.RemoveOneChain | iptables_manager.py:238-241 | Removing one chain drops exactly the lines that mention it. |
| Iptables.FreshChainAdded | iptables_manager.py:208-223 | A chain no line mentions gets its declaration at the rules index. |
| Iptables.RemoveFreshDecl | iptables_manager.py:238-241 | Removing a chain drops its declaration and keeps the lines that do not mention it. |
| Iptables.AddThenRemoveChain | iptables_manager.py:201-248 | Removing a chain that was just declared, and is mentioned nowhere else, restores the region. |
| Iptables.RemoveFreshChain | iptables_manager.py:238-241 | A removal request for a fresh chain drops its declaration and keeps every line that does not mention it. |
| Iptables.ModifyRemoveOnly | iptables_manager.py:238-246 | Removing only a chain is the removal pass alone. |
| Iptables.DeclareChains | iptables_manager.py:209-221 | The chain loop yields a declaration for each sorted chain no line mentions yet, in sorted order. |
| Iptables.WriteRules | iptables_manager.py:226-234 | The rule loop yields one line per requested rule, in order, prefixed unless already mentioned. |
| Iptables.RemoveEach | iptables_manager.py:238-241 | The per-chain removal loop equals one removal by all removed chains. |
| Iptables.RemoveInOrder | iptables_manager.py:243-246 | The per-rule removal loop equals one removal by all removed rules. |
| Iptables.ModifyRules | iptables_manager.py:201-248 | `_modify_rules` adds the sorted new chains, then the rules, then drops every line any removed chain or rule mentions. |
| Iptables.ApplyKeepsOtherTables | iptables_manager.py:137-139 | `iptables_apply` changes only the table's region: every line before and after it is kept. |
| Iptables.ApplyNothing | iptables_manager.py:128-146 | Applying with nothing pending hands `iptables-restore` exactly what `iptables-save` printed. |
| Iptables.ObjRemoveRulesIgnored | iptables_manager.py:205 | On the `obj` path as written, a removed rule stays in the dump; the intended removal drops it. |
| Iptables.WrapTokens | iptables_manager.py:110-111 | Rewriting the `$` targets keeps the number of tokens and only rewrites those that start with `$`. |
| Iptables.WrapRuleKeepsPlainRules | iptables_manager.py:109-111 | A rule without `$` is stored exactly as given. |
| Iptables.IptablesTable.constructor | iptables_manager.py:60-64 | A new table has no pending chains, rules or removals. |
| Iptables.IptablesManager.constructor | iptables_manager.py:68-85 | The manager keeps its chain, table, namespace and wrap flag. The suffix is stripped when truthy, and the wrap name is cut to 16 characters. |
| Iptables.IptablesManager.ChainNameOf | iptables_manager.py:87-92 | The chain name exists exactly when wrapping. Without a suffix it is `<wrap name>-` followed by at most 11 characters. |
| Iptables.IptablesManager.WrappedNameFits | iptables_manager.py:94-97 | Without a suffix, a wrapped name always fits in 28 characters, so `add_chain` does not raise. |
| Iptables.IptablesManager.Apply | iptables_manager.py:128-146 | The restore input is the save output with the table's region reconciled against the table's pending lists or, with no table, `obj`'s lists as line 205 reads them: `obj`'s removed chains stand in for its removed rules, so rules queued on `obj` for removal stay. |
| Iptables.IptablesManager.AddChain | iptables_manager.py:94-99 | A missing or over-long name fails before anything changes. Otherwise the name joins the table's chains and the result is the apply. |
| Iptables.IptablesManager.RemoveChain | iptables_manager.py:101-104 | The chain's name joins the removals, nothing else changes, and the result is the apply. |
| Iptables.IptablesManager.AddRule | iptables_manager.py:107-115 | The rule, with `$` targets wrapped, is appended to the table's rules or to `rule_list`, on the manager's chain or `chain_str`; it is applied unless deferred. |
| Iptables.IptablesManager.RemoveRule | iptables_manager.py:117-119 | The rule text is appended to the removals and the result is the apply. |
| Inet.Htonl | dhcp.py:173 | `htonl` fails exactly outside 32 bits. |
| Inet.NetworkBytesRoundTrip | dhcp.py:218 | An address and its network-order bytes determine each other. |
| Inet.PackRoundTrip | dhcp.py:218-222 | `struct.pack('I')` and `struct.unpack('I')` are inverse. |
| Inet.ByteSwapInvolution | dhcp.py:218-222 | Swapping byte order twice gives the value back. |
| Inet.HostOrderValue | dhcp.py:218 | `ntohl(unpack(inet_aton(a)))` is the address itself. |
| Inet.FormatHostValue | dhcp.py:222 | `inet_ntoa(pack(htonl(v)))` is the dotted quad of `v` whenever `v` fits 32 bits. |
| Inet.InetAtonNtoa | dhcp.py:218-222 | `inet_aton` reads back the bytes `inet_ntoa` wrote. |
| Inet.DottedParses | dhcp.py:217 | `inet_aton` reads the dotted quad of an address back as that address. |
| Inet.IpyAddr | dhcp.py:210 | On every four-field decimal quad, IPy's `IP()` reads the same address as `inet_aton`. |
| Inet.IpyOneField | dhcp.py:210 | IPy reads a lone decimal byte `a` as `a.0.0.0`. |
| Inet.IpyTwoFields | dhcp.py:210 | IPy reads `a.b` as `a.b.0.0`, padding the missing bytes with zeros. |
| Inet.IpyDecimal | dhcp.py:210 | IPy reads decimal text of 256 or more, within 32 bits, as that address. |
| Inet.IpyDotted | dhcp.py:214 | IPy reads the dotted quad of an address back as that address. |
| Dhcp.ClearLowIdempotent | dhcp.py:209-211 | Clearing the host bits twice clears nothing more. |
| Dhcp.BlockUnique | dhcp.py:209-211 | Each address lies in exactly one block of a prefix length. |
| Dhcp.BlockFits | dhcp.py:213-215 | A block that starts at a network address ends inside the 32-bit space. |
| Dhcp.BlockSize | dhcp.py:226 | A block of prefix length `mask` holds `2 ** (32 - mask)` addresses, at least one. |
| Dhcp.MakeNet | dhcp.py:210 | `make_net` succeeds exactly for a prefix length in 0..32 and returns the block that holds the address. |
| Dhcp.MakeNetIdempotent | dhcp.py:209-211 | Recomputing the network from a network gives the same network. |
| Dhcp.Broadcast | dhcp.py:213-215 | `broadcast()` succeeds exactly for a valid prefix length with no host bits set, and returns the block's last address. |
| Dhcp.FormatHostInt | dhcp.py:222 | Formatting succeeds exactly for a value that fits 32 bits. |
| Dhcp.FormatHostIntNames | dhcp.py:222 | The text printed names the value given. |
| Dhcp.GetNetwork | dhcp.py:209-211 | `get_network` succeeds only for text IPy reads as an IPv4 address (a dotted quad, a shorter dotted form padded with zeros, or a decimal within 32 bits) and a valid prefix length. |
| Dhcp.GetAvailableIps | dhcp.py:225-227 | `available_ips` plus two is the block size. |
| Dhcp.NetworkNamesBlock | dhcp.py:209-211 | The network text names the block that holds the address, and reads back as that block. |
| Dhcp.NetworkStep | dhcp.py:209-211 | On text IPy reads as an IPv4 address, `get_network` is the dotted block address. |
| Dhcp.BroadcastStep | dhcp.py:213-215 | `get_broadcast` on a network address's text is the last address of its block. |
| Dhcp.NetIntStep | dhcp.py:217-219 | `get_net_int` on an address's text is the address. |
| Dhcp.HostValuesFit | dhcp.py:221-231 | The listen address and the gateway fit 32 bits, except at the two ends of the address space with a /32 prefix. |
| Dhcp.AssembleIpExpr | dhcp.py:199-207 | The constructor stores exactly the getters' results, called in the order written. |
| Dhcp.ListenOverflows | dhcp.py:205 | An overflowing listen address makes the constructor raise. |
| Dhcp.GatewayOverflows | dhcp.py:207 | An overflowing gateway makes the constructor raise. |
| Dhcp.ListenStep | dhcp.py:221-223 | The listen address is the dotted quad of `net_int + 1` when that fits. |
| Dhcp.GatewayStep | dhcp.py:229-231 | The gateway is the dotted quad of `net_int + available_ips` when that fits. |
| Dhcp.GatewayBelowZero | dhcp.py:229-231 | With a /32 prefix at address 0, `available_ips` is -1 and the gateway raises `OverflowError`. |
| Dhcp.BlockOf | dhcp.py:198-231 | Reference `ip_expr` values, as numbers: every address field fits 32 bits. |
| Dhcp.IpExprSucceeds | dhcp.py:198-231 | On a block whose listen address and gateway fit, `ip_expr` matches the reference. |
| Dhcp.BadInputCase | dhcp.py:209-211 | Unreadable text or an invalid prefix length fails as the reference does. |
| Dhcp.FittingBlock | dhcp.py:198-231 | The reference block of an address whose listen address and gateway fit. |
| Dhcp.FittingRender | dhcp.py:198-231 | The rendered reference `ip_expr` of such an address. |
| Dhcp.FittingCase | dhcp.py:198-231 | `ip_expr` agrees with the reference on a fitting block. |
| Dhcp.ListenOverflowCase | dhcp.py:221-223 | On the last /32 block, `ip_expr` raises on the listen address, as the reference fails. |
| Dhcp.GatewayOverflowCase | dhcp.py:229-231 | On the first /32 block, `ip_expr` raises on the gateway, as the reference fails. |
| Dhcp.NewIpExprIsReference | dhcp.py:198-231 | `ip_expr`, with all its text and byte-order round trips, computes exactly the reference values and fails exactly where the reference does. |
| Dhcp.BlockFails | dhcp.py:198-231 | `ip_expr` fails exactly on text IPy does not read as an IPv4 address, a prefix length outside 0..32, and the two /32 addresses whose neighbour leaves 32 bits. |
| Dhcp.BlockSpec | dhcp.py:209-231 | The network is the block holding the address and the broadcast is its last address. The listen address follows the network, `available_ips` is the block size minus two, and the gateway is network plus `available_ips` (the broadcast minus one for mask ≤ 30). |
| Dhcp.NetworkTextRoundTrip | dhcp.py:209-211 | The network text reads back as the block's first address, and recomputing from it gives the same text. |
| Dhcp.NetworkUid | dhcp.py:189-195 | `_network_uid` exists exactly for a truthy identifier, and is its ten-character prefix. |
| Dhcp.GatewayFromNetwork | dhcp.py:164-174 | Once the network text, its recomputation and its bytes are known, `_gateway` is `get_gateway` of them. |
| Dhcp.NetworkFixed | dhcp.py:170 | A network address's text is its own network. |
| Dhcp.DnsmasqGatewayValue | dhcp.py:164-174 | `_gateway` formats the network address plus the usable host count; its recomputation and byte round trip change nothing. |
| Dhcp.ReferenceGateway | dhcp.py:229-231 | On a block whose gateway fits, the reference gateway is network plus `available_ips`. |
| Dhcp.GatewaysAgree | dhcp.py:164-174 | Whenever `ip_expr(ip, mask)` succeeds, `Dnsmasq_base._gateway` names the same gateway. |
| Dhcp.PerNetworkNames | dhcp.py:101-195 | The host, pid and leases files are distinct files of `DHCP_CONFIG_FILE_PREFIX + net_uid[:10]`, and the interface is `dhcp + net_uid[:10]`. Without an identifier, all of them fail. |
| Dhcp.DnsmsqCmdNamespace | dhcp.py:22-27 | Any namespace value at all gives `qdhcp-<net_uid[:10]>`; no namespace gives the bare command. |
| Dhcp.SpawnArgvFields | dhcp.py:29-46 | `spawn_process` passes exactly the names its properties compute, in its flag order. |
| Dhcp.CommandKept | dhcp.py:22-27 | `Dnsmsq_cmd` keeps the command whole, behind a four-word namespace prefix or none. |
| Dhcp.CommandFields | dhcp.py:31-45 | The argv carries the fixed flags in order, and each name after its flag. |
| Dhcp.SpawnServesBlock | dhcp.py:29-46 | A spawned dnsmasq listens on the network's `dhcp` interface, serves the block holding the address, and hands out as router the address `ip_expr` computes. |
| Dhcp.SpawnServesBlockAt | dhcp.py:29-46 | The same, for the block's network address. |
| Dhcp.SignalGuard | dhcp.py:48-60 | A signal is sent exactly when the pid file exists and holds a non-zero integer, and the command names that integer. |
| Dhcp.HostLine | dhcp.py:94 | The appended binding starts with the object's own mac and ends in a newline. |
| Dhcp.KeptHostLinesSpec | dhcp.py:62-73 | The lines kept are exactly those not starting with the mac. |
| Dhcp.RemoveAppendedLine | dhcp.py:62-73 | Removing a mac right after appending one line for it restores a file that ended in a newline and held no line for that mac. |
| Dhcp.HostLineIsOneLine | dhcp.py:94 | When neither mac nor ip holds a newline, the binding is one line. |
| Dhcp.WriteThenRemove | dhcp.py:62-94 | `write_host_info` then `remove_vm_host_info` for the same mac restores such a hosts file. |
| Dhcp.HostsFile.constructor | dhcp.py:65-66 | The file starts with the given content. |
| Dhcp.HostsFile.WriteHostInfo | dhcp.py:90-99 | With both arguments truthy, exactly one binding line (the object's own mac and ip) is appended, and the reload is requested. Otherwise the file is unchanged. |
| Dhcp.HostsFile.RemoveVmHostInfo | dhcp.py:62-78 | The file keeps exactly its lines not starting with the mac. Without an identifier or a mac, it is left unchanged. |
| Ovs.VsctlArgv | ovs_lib.py:22-25 | `ovs-vsctl --timeout=10` followed by the arguments, unchanged. |
| Ovs.OfctlArgv | ovs_lib.py:88-89 | `ovs-ofctl`, the command and the bridge, followed by the arguments. |
| Ovs.AddPortInternalArgv | ovs_lib.py:66-80 | `tag=<vlan>` appears at index 3 exactly when the VLAN is truthy; apart from it, the command is the untagged one. |
| Ovs.BridgeExists | ovs_lib.py:41-46 | The answer is yes exactly when the exit status is 0. |
| Ovs.Lookup | ovs_lib.py:268-273 | `d.get(key)` finds the first entry with that key, and nothing when there is none. |
| Ovs.LookupKeep | ovs_lib.py:267-284 | Popping keys does not change what the other keys look up. |
| Ovs.KeepKeep | ovs_lib.py:267-284 | Popping two sets of keys in turn pops their union. |
| Ovs.KeepAbsent | ovs_lib.py:283-284 | Popping an absent key changes nothing. |
| Ovs.KeepMembers | ovs_lib.py:286-290 | After popping, exactly the entries with other keys remain. |
| Ovs.FlowDict.constructor | ovs_lib.py:262 | The flow dictionary holds the given entries. |
| Ovs.FlowDict.Pop | ovs_lib.py:268-284 | `pop` returns the key's value or the default, and removes the key. |
| Ovs.FlowFields | ovs_lib.py:262-295 | The fields are absent exactly when an add or mod has no actions. |
| Ovs.BuildFlowExprStr | ovs_lib.py:262-295 | The returned text is the comma join of `FlowFields`, and the caller's dictionary is left as `FlowLeft` says. |
| Ovs.PopTimeouts | ovs_lib.py:266-273 | Both timeouts (default `0`) are popped, then the priority when present. |
| Ovs.RenderFields | ovs_lib.py:286-290 | Every entry still in the dictionary is rendered, in order: `proto` bare, others as `key=value`. |
| Ovs.FlowExprFields | ovs_lib.py:262-295 | The returned text splits on commas back into its fields. |
| Ovs.AddFlowText | ovs_lib.py:266-293 | An add starts with `hard_timeout=`, then `idle_timeout=`, and ends with `actions=<v>`. |
| Ovs.AddFlowPriority | ovs_lib.py:271-273 | With a priority, an add's third field is `priority=<p>`. |
| Ovs.ModFlowText | ovs_lib.py:275-293 | A mod ends with `actions=<v>`, after a comma when other fields exist. |
| Ovs.FlowRendersRest | ovs_lib.py:286-290 | Every entry whose key is not consumed is rendered into the flow. |
| Ovs.DelFlowFields | ovs_lib.py:282-290 | A delete renders neither `actions` nor `priority`, and every other entry. |
| Ovs.RenderAll | ovs_lib.py:129 | The flows render exactly when every one of them does. |
| Ovs.DoActionFlows | ovs_lib.py:128-151 | `add`, `mod` and `del` select `add-flow`, `mod-flow` and `--strict del-flows`; any other action fails. |
| Ovs.FlowOption | ovs_lib.py:131-135 | The `ovs-ofctl` option is `add-flow`, `mod-flow` or `--strict del-flows` for the three known actions; every other action leaves it unset. |
| Ovs.DbGetVal | ovs_lib.py:167-171 | A failed command gives None; otherwise the output without trailing newlines. |
| Ovs.GetPortOfport | ovs_lib.py:110-118 | The value is kept when `int()` accepts it, and is `-1` otherwise. |
| Ovs.OfportRoundTrip | ovs_lib.py:110-118 | A port number printed by the database comes back unchanged. |
| Ovs.UnsetOfportInvalid | ovs_lib.py:112-118 | The `[]` printed for a port without a number gives `-1`. |
| Ovs.CountFlows | ovs_lib.py:96-103 | A failed command makes `run_ofctl` return False, whose unpacking raises; otherwise the count is the number of newlines minus one, as written. |
| Ovs.CountFlowsListing | ovs_lib.py:96-103 | A header line followed by n flow lines counts n - 1. |
| Ovs.CountFlowsIntended | ovs_lib.py:96-103 | Corrected: with a zero status the count is the number of newlines, one per flow after the header. |
| Ovs.CountFlowsIntendedListing | ovs_lib.py:96-103 | Corrected: a header line followed by n flow lines counts n. |
| Ovs.DbItems | ovs_lib.py:174 | The items are the brace-stripped text split on `, `. |
| Ovs.ItemsMapStep | ovs_lib.py:176-180 | One loop pass sets the item's key or skips an item without `=`. |
| Ovs.ItemParts | ovs_lib.py:179-180 | The pieces an item splits into name its key and value. |
| Ovs.DbStrToMap | ovs_lib.py:173-181 | `db_str_to_map` is the loop over the brace-stripped items. |
| Ovs.ItemsToMap | ovs_lib.py:175-181 | The loop builds exactly `ItemsMap` of the items. |
| Ovs.ItemsMapSpec | ovs_lib.py:176-180 | A key is present exactly when some item with `=` names it, and its quote-stripped value comes from the last such item. |
| Ovs.DbMapRoundTrip | ovs_lib.py:173-181 | A map of plain keys and values, printed the database's way, parses back to itself. |
| Ovs.EmptyDbMap | ovs_lib.py:173-181 | `{}` parses to no entries. |
| Ovs.JoinEnds | ovs_lib.py:174 | The printed items neither start nor end with a brace, so stripping braces keeps them. |
| Ovs.DbItemParts | ovs_lib.py:177-180 | A printed item holds `=` and no comma, and splits back into its key and value. |
| Ovs.ItemsMapPairs | ovs_lib.py:175-181 | Parsing the printed items of `pairs` builds `dict(pairs)`. |
| IpLib.Execute | ip_lib.py:11-18 | The argv is `ip`, or `ip netns exec <ns> ip` for a truthy namespace, then `-<o>` per option, the command and the arguments. |
| IpLib.ExecuteInNamespace | ip_lib.py:14-17 | Inside a namespace the command is the root command behind `ip netns exec <ns>`; an empty name is no namespace. |
| IpLib.ExecuteOptions | ip_lib.py:13 | The options follow the `ip` word, each as a flag. |
| IpLib.DeviceEquals | ip_lib.py:35-37 | Two devices are equal exactly when the other is not None and name and namespace match. |
| IpLib.GatewayMetric | ip_lib.py:190-198 | A metric goes in as `metric <m>` right after the gateway; nothing else moves. |
| IpLib.DeleteGatewayMatchesAdd | ip_lib.py:190-209 | `delete_gateway` names the default route, device and table that `add_gateway` replaced. |
| IpLib.DeleteRouteMatchesAdd | ip_lib.py:260-270 | `delete_route` names the route that `add_route` replaced. |
| IpLib.DeleteOnlinkMatchesAdd | ip_lib.py:224-230 | `delete_onlink_route` names the route that `add_onlink_route` replaced. |
| IpLib.DeviceNamesKeep | ip_lib.py:53-67 | A line that names a listed device contributes that name. |
| IpLib.DeviceNamesSkip | ip_lib.py:54-65 | A line without a kept device contributes nothing. |
| IpLib.GetDevices | ip_lib.py:50-68 | `get_devices` returns `DeviceNames` of the output lines. |
| IpLib.CollectDevices | ip_lib.py:53-68 | The loop appends exactly `DeviceNames` of the lines, in order. |
| IpLib.ExcludeLoopback | ip_lib.py:64-65 | Excluding loopback drops exactly the `lo` entries and keeps the order. |
| IpLib.DeviceNamesAppend | ip_lib.py:53-68 | Devices found in two runs of lines appear in line order. |
| IpLib.PlainDeviceLine | ip_lib.py:56-62 | `<i>: <name>: <details>` with flags and no VLAN detail names `name`. |
| IpLib.VlanDeviceLine | ip_lib.py:56-62 | `<i>: <name>@<parent>: <details>` with a VLAN detail names `name`. |
| IpLib.VlanHead | ip_lib.py:58-62 | The `@` split of a VLAN line's second field is its name. |
| IpLib.DeviceFields | ip_lib.py:56 | A device line splits into its three fields. |
| IpLib.GetNamespaces | ip_lib.py:104-106 | One stripped entry per output line, in order. |
| IpLib.NamespacesListed | ip_lib.py:104-106 | A listing of namespaces, one per line, reads back as exactly those namespaces. |
| IpLib.NetnsExists | ip_lib.py:289-295 | The scan answers yes exactly when some stripped line equals the name. |
| IpLib.AnyLineIs | ip_lib.py:292-295 | The loop stops at the first stripped line equal to the name. |
| IpLib.NetnsExistsListed | ip_lib.py:289-295 | A namespace exists exactly when it is one of those listed. |
| IpLib.ListOnlinkRoutes | ip_lib.py:212-220 | The routes are the stripped, non-empty lines without `src`, in order. |
| IpLib.OnlinkRoutesListed | ip_lib.py:212-220 | Listed routes come back as listed, in order; blank lines and `src` lines are dropped. |
| IpLib.GetGateway | ip_lib.py:233-254 | Reads the first line starting with `default`: None when there is none, otherwise that line's gateway and metric. |
| IpLib.GatewayOf | ip_lib.py:247-252 | The gateway is the third word, and the metric is the integer after the first `metric`. Too few words or a missing metric value raises. |
| IpLib.GatewayRoundTrip | ip_lib.py:233-254 | A default route printed after other routes reads back as its gateway and metric. |
| IpLib.FirstDefaultRoute | ip_lib.py:243-245 | A default route listed after lines that are not default routes is the one read. |
| IpLib.ListedAround | ip_lib.py:242-245 | Listing lines around one more line read back as listed. |
| IpLib.RouteGateway | ip_lib.py:247-252 | A default route with the gateway third and one `metric` word yields that gateway and metric. |
| IpLib.MetricParsed | ip_lib.py:251-252 | The metric word's successor parses as the integer printed. |
| IpLib.MetricWord | ip_lib.py:250-251 | Where the `metric` word sits in a printed default route. |
| IpLib.DefaultRouteLine | ip_lib.py:243-248 | A printed default route is one listing line that starts with `default` and splits back into its words. |
| Ipset.GetIpsetChainName | ipset_manager.py:8-10 | The name is `NIPv4 + uid[:10]` for a truthy uid and None otherwise, within ipset's 31 characters. |
| Ipset.SetNamesCollide | ipset_manager.py:8-10 | Two identifiers share a set exactly when their first ten characters agree. |
| Ipset.InNamespace | ipset_manager.py:21-25 | `ip netns exec <ns>` is the first argv element exactly when a namespace is set; the command follows unchanged. |
| Ipset.AddMembersArgvs | ipset_manager.py:67-70 | One `ipset -A <name> <ip>` per address, in order. |
| Ipset.CreateIdempotent | ipset_manager.py:28-36 | `create -exist` twice equals once, and keeps an existing set's members. |
| Ipset.AddMembersAdds | ipset_manager.py:67-70 | Adding a list to an existing set adds exactly those addresses and touches no other set. |
| Ipset.CreateThenAdd | ipset_manager.py:28-70 | A set created and then filled holds exactly the addresses given. |
| Ipset.RunAllPrefix | ipset_manager.py:67-70 | Running a list of commands runs its prefix first. |
| Ipset.DelRemovesMember | ipset_manager.py:62-64 | `ipset del` removes that member and only it. |
| Ipset.DestroyRemovesSet | ipset_manager.py:87-89 | `ipset destroy` removes the set and keeps every other one. |
| Ipset.IpsetManager.constructor | ipset_manager.py:16-18 | The manager keeps its name and namespace, and has run nothing. |
| Ipset.IpsetManager.Apply | ipset_manager.py:21-25 | Exactly one command is recorded, namespace-prefixed when a namespace is set. |
| Ipset.IpsetManager.CreateIpsetChain | ipset_manager.py:28-36 | Records `ipset create -exist <name> hash:net`. |
| Ipset.IpsetManager.DestroyIpsetChainByName | ipset_manager.py:39-40 | Records `ipset destroy <name>`. |
| Ipset.IpsetManager.DestroyIpsetChain | ipset_manager.py:87-89 | Records `ipset destroy <name>`. |
| Ipset.IpsetManager.AddMemberToIpsetChain | ipset_manager.py:43-50 | Records `ipset -A <name> <ip>`. |
| Ipset.IpsetManager.FlushIpsetChain | ipset_manager.py:53-59 | Records `ipset -F <name>`. |
| Ipset.IpsetManager.DelIpsetChainMember | ipset_manager.py:62-64 | Records `ipset del <name> <ip>`. |
| Ipset.IpsetManager.RestoreIpsetChains | ipset_manager.py:78-80 | Records `ipset restore -exist`. |
| Ipset.IpsetManager.SwapIpsetChains | ipset_manager.py:82-84 | Records `ipset swap <src> <dest>`. |
| Ipset.IpsetManager.AddMembersActions | ipset_manager.py:67-70 | One prefixed `-A` command per address, in order. |
| Ipset.IpsetManager.AddIpMembers | ipset_manager.py:67-75 | A non-empty list records one `-A` per address, in order, and returns True. An empty list records nothing and returns None. |
| Ipset.AddMembersPlain | ipset_manager.py:21-25 | Without a namespace, the recorded commands are exactly the plain `-A` lines. |
| Firewall.SortedDirections | iptables_firewall.py:63 | `sorted(DIRECTION_IP_PREFIX)` is egress, then ingress. |
| Firewall.WrapPhysdevTokens | iptables_firewall.py:84-88 | Of a physdev rule's words, only the `$` target is rewritten. |
| Firewall.JumpRuleWrapped | iptables_firewall.py:81-95 | The jump rule keeps `-m physdev --<dir> tap<prefix> --physdev-is-bridged -j`, and its target becomes `<wrap name>-<target>`. |
| Firewall.IpsetRuleKept | iptables_firewall.py:106-113 | The ipset rule `-m set --match-set <set> <src\|dst> -j <action>` has no `$`, so it is stored as built. |
| Firewall.BuiltinRules | iptables_firewall.py:45-52 | One `-j $<chain>` rule on each built-in chain, in order. |
| Firewall.WrapChainsHas | iptables_firewall.py:47-49 | Every built-in chain's wrapped name is declared. |
| Firewall.JumpToWrapped | iptables_firewall.py:51 | `-j $<chain>` becomes `-j <wrap name>-<chain>`. |
| Firewall.BuiltinJumpsDeclared | iptables_firewall.py:44-53 | Each built-in chain jumps to `<wrap name>-<chain>`, and that chain is declared in the same apply. |
| Firewall.DeclaredAppend | iptables_firewall.py:61-76 | The chains a run of actions declares or removes are those of its parts. |
| Firewall.IptablesFirewallDriver.constructor | iptables_firewall.py:22-35 | The uid prefix is `str(uid).strip()[:10]`, the device `tap<prefix>`, the chains `i<prefix>`/`o<prefix>`, and the set `get_ipset_chain_name(uid)`. |
| Firewall.IptablesFirewallDriver.PortChainsApplyOnly | iptables_firewall.py:61-69 | Adding a port's chains runs only `iptables_apply`, no command line of its own. |
| Firewall.IptablesFirewallDriver.PortChainNames | iptables_firewall.py:29-35 | Both port chains fit uncut in a wrapped name, differ from each other, and differ from `sg-chain`. |
| Firewall.IptablesFirewallDriver.PortChainWiring | iptables_firewall.py:81-95 | For a uid without spaces, the port's traffic goes from FORWARD to `sg-chain` and from there to the port chain. Ingress matches `physdev-out`, egress `physdev-in`. |
| Firewall.IptablesFirewallDriver.PortChainDeclares | iptables_firewall.py:63-69 | One direction of `add_port_chain` declares that direction's port chain and nothing else. |
| Firewall.IptablesFirewallDriver.RemoveUndoesAdd | iptables_firewall.py:61-76 | `remove_port_chain` asks to remove exactly the chains `add_port_chain` declares. |
| Firewall.IptablesFirewallDriver.AddWrappedChain | iptables_firewall.py:57-58 | A fresh manager declares the wrapped chain and applies once. |
| Firewall.IptablesFirewallDriver.AddSgChain | iptables_firewall.py:56-58 | Declares the wrapped `sg-chain` in the driver's table. |
| Firewall.IptablesFirewallDriver.AddPortChain | iptables_firewall.py:61-69 | Egress, then ingress; each declares its chain and then adds the two jump rules. |
| Firewall.IptablesFirewallDriver.AddDirectionChain | iptables_firewall.py:64-69 | One loop pass records the chain, then the chain rules. |
| Firewall.IptablesFirewallDriver.AddChainRule | iptables_firewall.py:81-95 | FORWARD gets a jump to `sg-chain`, then `sg-chain` gets a jump to the port chain. |
| Firewall.IptablesFirewallDriver.RemovePortChain | iptables_firewall.py:72-76 | Removes both port chains, egress first, in the driver's namespace. |
| Firewall.IptablesFirewallDriver.DeleteChain | iptables_firewall.py:141-143 | Records one removal of the chain's name (`None` when not wrapping). |
| Firewall.IptablesFirewallDriver.AddIptablesRule | iptables_firewall.py:130-133 | The rule goes on the direction's chain (`None` when not wrapping), with `$` targets wrapped. |
| Firewall.IptablesFirewallDriver.DeleteRule | iptables_firewall.py:136-139 | Every line holding the rule text is removed, whatever its chain. |
| Firewall.IptablesFirewallDriver.InitIpsetRule | iptables_firewall.py:100-113 | Creates the port's set, then adds the match rule on the direction's chain. |
| Firewall.IptablesFirewallDriver.AddIpsetRule | iptables_firewall.py:116-120 | One member add per address, in order; nothing for an empty list. |
| Firewall.IptablesFirewallDriver.DelMembersActions | iptables_firewall.py:123-127 | One `ipset del` per address, in order. |
| Firewall.IptablesFirewallDriver.DeleteIpsetRule | iptables_firewall.py:123-127 | One member delete per address, in order; nothing for an empty list. |
| Firewall.IptablesFirewallDriver.WrapBuiltinChains | iptables_firewall.py:37-53 | For filter, then nat, records one apply that declares `<wrap>-C` and adds `-j <wrap>-C` on C for every built-in chain C. |
| Firewall.IptablesFirewallDriver.BuiltinChainsWired | iptables_firewall.py:39-53 | Every built-in chain of both tables jumps to its wrapped chain, declared in the same apply, and no name is cut. |
| Firewall.IptablesFirewallDriver.WrapAndApply | iptables_firewall.py:44-53 | One outer pass wraps a table's chains, then applies that table. |
| Firewall.IptablesFirewallDriver.WrapTable | iptables_firewall.py:45-52 | The inner loop adds each wrapped chain and its deferred jump rule. |
| Actions.Host.constructor | utils.py:11 | A new host has recorded nothing. |
| Actions.Host.Record | utils.py:11 | One action is appended to the trace. |
| Actions.Host.RecordAll | utils.py:11 | Several actions are appended, first to last. |
| Net.ReplayAppend | utils.py:11 | Replaying two runs of commands is replaying the second from where the first ends. |
| Net.ReplayIdle | utils.py:11 | A run of commands that change nothing leaves every state as it was. |
| Encapsulation.VmPortName | encapsulation.py:15 | The VM port is `tap` + the uid's ten-character prefix. |
| Encapsulation.BridgeName | encapsulation.py:16 | The Linux bridge is `qbr-` + the prefix. |
| Encapsulation.BridgePortName | encapsulation.py:17 | The bridge end of the veth is `qvb-` + the prefix. |
| Encapsulation.OvsPortName | encapsulation.py:18 | The OVS end of the veth is `qvo-` + the prefix. |
| Encapsulation.DhcpNamespace | encapsulation.py:56 | The namespace given when truthy, else `qdhcp-` + the network prefix; never empty. |
| Encapsulation.DhcpPortName | encapsulation.py:57 | The DHCP port is `dhcp` + the network prefix. |
| Encapsulation.L3Namespace | encapsulation.py:117 | The namespace given when truthy, else `l3_ns-` + the router prefix. |
| Encapsulation.L3VmPortName | encapsulation.py:88 | The router's VM-side port is named after the network. |
| Encapsulation.L3StuPortName | encapsulation.py:89 | The router's student-side port is named after the router. |
| Encapsulation.PrefixedNames | encapsulation.py:15-18 | Different prefixes never give the same name. One prefix gives the same name exactly for the same ten-character uid prefix. |
| Encapsulation.PortNames | encapsulation.py:15-19 | A port's device names all differ, and two ports share one exactly when their uids agree in the first ten characters. |
| Encapsulation.MemberSteps | encapsulation.py:229-234 | One `ipset -A <set> <ip>` per address, in order. |
| Encapsulation.PlumbSgPort | encapsulation.py:30-42 | Records the bridge, veth, bridge port, OVS port and tag, and three links up, in source order. |
| Encapsulation.CreateSgPort | encapsulation.py:30-46 | Records the plumbing, then both directions' port chains, then `ipset create` of the port's set. |
| Encapsulation.CreateVmPortAbout | encapsulation.py:14-50 | With a security group, records the full security-group creation. Without one, records only the VM port on `br0` and its link up. The driver's names come from the stripped uid. |
| Encapsulation.CleanVmPortAbout | encapsulation.py:146-175 | With a security group, records link down, bridge removal, veth delete, OVS port delete, chain removal and set destroy, in that order. Without one, records the veth delete and the `qvo-` port delete, as written. |
| Encapsulation.UnplumbPlainPortAsWritten | encapsulation.py:172-175 | Without a security group, records the `qvb-` veth delete and the `qvo-` port delete, and nothing for the VM's own port. |
| Encapsulation.UnplumbPlainPort | encapsulation.py:47-50 | Corrected: the commands as written, then the delete of the VM's own port that the plain create attached. |
| Encapsulation.StartDhcpServer | encapsulation.py:65-78 | Records the namespace, internal port, move, link up, listen address and spawn. |
| Encapsulation.CreateVmDhcp | encapsulation.py:55-82 | An address `ip_expr` cannot read stops the verb before any command. `first` starts the server on `ip_expr`'s listen address; otherwise only the host binding is written and dnsmasq reloaded. |
| Encapsulation.CleanDhcpAbout | encapsulation.py:179-192 | Records the port delete, namespace delete, kill and file removal. |
| Encapsulation.PlumbL3 | encapsulation.py:96-110 | Records the namespace, both internal ports, moves, links up and both gateways. |
| Encapsulation.CreateL3 | encapsulation.py:86-110 | The VM side's `ip_expr` is checked first, then the student side's; either failing records nothing. Otherwise each port gets its own block's gateway. |
| Encapsulation.CleanL3About | encapsulation.py:196-207 | Records both port deletes and the namespace delete. |
| Encapsulation.AddRoute | encapsulation.py:116-120 | Records one on-link route by `out_port` in the router's namespace. |
| Encapsulation.DeleteRoute | encapsulation.py:126-130 | Records the matching on-link route delete in the router's namespace. This is the intended call: the source passes `out_port` to `delete_onlink_route(cidr)`, which raises `TypeError`. |
| Encapsulation.MembersOutsideNamespace | encapsulation.py:229-234 | Outside a namespace, the driver's ipset manager records exactly the `-A` lines. |
| Encapsulation.AddIpsetRule | encapsulation.py:229-234 | Nothing for an empty list; otherwise one `-A` per address into the port's set. `action` and `direction` are unused. |
| Encapsulation.AddIpToIpset | encapsulation.py:237-240 | The same member additions, with no guard of its own. |
| Encapsulation.AddRule | encapsulation.py:244-246 | One apply puts the wrapped rule on the direction's port chain. |
| Encapsulation.RemoveRule | encapsulation.py:250-252 | One apply removes every line holding the rule text. |
| Encapsulation.LinkStateIdle | ip_lib.py:131-136 | Bringing a link up or down changes nothing `Net` tracks. |
| Encapsulation.LinkConfigIdle | ip_lib.py:139-165 | Moving a link to a namespace or giving it an address changes nothing `Net` tracks. |
| Encapsulation.VethIdle | ip_lib.py:75-88 | Making or deleting a veth pair changes nothing `Net` tracks. |
| Encapsulation.BridgeMembershipIdle | linuxbridge.py:36-44 | Enslaving a link to a Linux bridge or tagging an OVS port changes nothing `Net` tracks. |
| Encapsulation.AttachDetachEffect | ovs_lib.py:61-85 | `add_port` and `delete_port` attach and detach exactly that port on `br0`. |
| Encapsulation.InternalAttachEffect | ovs_lib.py:66-80 | `add_port_internal` attaches the port, tagged or not. |
| Encapsulation.LinuxBridgeEffect | linuxbridge.py:19-34 | `brctl addbr` and `brctl delbr` make and remove exactly that bridge. |
| Encapsulation.NamespaceCommandsEffect | ip_lib.py:281-286 | `ip netns add` and `ip netns delete` make and remove exactly that namespace. |
| Encapsulation.SetCommandsEffect | ipset_manager.py:28-40 | `ipset create` makes an empty set unless it exists; `ipset destroy` removes it. |
| Encapsulation.RouteCommandsEffect | ip_lib.py:224-230 | `replace` points the route at the device; `del` drops it only when it leaves by that device. |
| Encapsulation.NoCommandsIdle | iptables_manager.py:128-146 | A run without command lines changes nothing `Net` tracks. |
| Encapsulation.CommandsTouchNoChain | iptables_firewall.py:61-76 | A run of command lines declares and removes no chain. |
| Encapsulation.PlainPlumbEffect | encapsulation.py:47-50 | Without a security group, creation attaches only the VM port to `br0`. |
| Encapsulation.PlainCleanLeavesTap | encapsulation.py:172-175 | As written, the VM port is still on `br0` after create and clean; a host that lacked it is changed. |
| Encapsulation.PlainRoundTrip | encapsulation.py:47-50 | The corrected clean undoes the plain create on a host that held neither the VM port nor the `qvo-` port. |
| Encapsulation.SgLinksIdle | encapsulation.py:37-42 | The tag and the three links up change nothing `Net` tracks. |
| Encapsulation.SgPlumbEffect | encapsulation.py:30-42 | The plumbing adds the Linux bridge and the `qvo-` port on `br0`, and nothing else. |
| Encapsulation.SgUnplumbEffect | encapsulation.py:160-167 | The unplumbing removes the Linux bridge and the `qvo-` port. |
| Encapsulation.SgCreateEffect | encapsulation.py:28-46 | Security-group creation adds the bridge, the `qvo-` port and the port's empty set, and nothing else. |
| Encapsulation.SgCleanEffect | encapsulation.py:160-171 | Security-group cleaning removes the bridge, the `qvo-` port and the port's set. |
| Encapsulation.SgStepsTouchNoChain | encapsulation.py:30-42 | The plumbing and unplumbing declare and remove no chain. |
| Encapsulation.SgChainsRoundTrip | encapsulation.py:45 | For drivers built from the same uid and binary name, the clean removes exactly the two chains the create declared. |
| Encapsulation.SgRoundTrip | encapsulation.py:146-171 | On a host without the port's bridge, OVS port and set, cleaning undoes creation. |
| Encapsulation.DhcpStartEffect | encapsulation.py:65-78 | Starting the server adds its namespace and its port on `br0`, and nothing else. |
| Encapsulation.DhcpCleanEffect | encapsulation.py:179-192 | The clean detaches the server's port and deletes its namespace. |
| Encapsulation.DhcpRoundTrip | encapsulation.py:179-192 | For the same network and namespace argument, the clean undoes the start on a host that held neither. |
| Encapsulation.L3LinksIdle | encapsulation.py:103-107 | Moving and raising both router ports changes nothing `Net` tracks. |
| Encapsulation.L3AddressesIdle | encapsulation.py:109-110 | Addressing both router ports changes nothing `Net` tracks. |
| Encapsulation.L3AttachEffect | encapsulation.py:97-101 | The namespace and both internal ports are added. |
| Encapsulation.L3Effect | encapsulation.py:86-110 | `create_l3` adds the router's namespace and both its ports on `br0`, and nothing else. |
| Encapsulation.L3CleanEffect | encapsulation.py:196-207 | The clean detaches both ports and deletes the namespace it names. |
| Encapsulation.L3RoundTrip | encapsulation.py:196-207 | Without a namespace argument, the clean undoes `create_l3` on a host that held none of it. |
| Encapsulation.RouteRoundTrip | encapsulation.py:116-130 | `add_route` points the destination at `out_port`, and `delete_route` with the same arguments restores the routes. |
| Encapsulation.AddMemberEffect | ipset_manager.py:43-50 | One `-A` line adds the address to an existing set and changes nothing else. |
| Encapsulation.ElementsFront | encapsulation.py:233-234 | A list's addresses are its head's and its tail's. |
| Encapsulation.MemberStepsFront | encapsulation.py:233-234 | When the rest of the lines fill the set, all of them do. |
| Encapsulation.MemberStepsFill | encapsulation.py:229-234 | The `-A` lines put every address into an existing set, keep its members, and change nothing else. |

## Left out

- Process execution (`utils.execute`, `exec_cmd`) is out. Commands are recorded as actions, and a command's exit status and output are parameters of the parsers.
- Logging (`LogExceptionHelp`) and `print` are out: they have no effect on the modelled results.
- The filesystem is out: `os.makedirs`, `os.path.isdir`/`isfile`, `shutil.rmtree` in `remove_vm_dhcp_file`, and file opening and truncation.
  - The hosts file is a string field of `Dhcp.HostsFile`.
  - The pid file's content is a parameter (None when the file is absent).
  - A failing `makedirs` is not modelled.
- `get_binary_name` reads the Python call stack; the wrap name is a parameter cut to 16 characters.
- Python 2 dictionary order is not modelled:
  - `wrap_builtin_chains` is taken to visit filter before nat, as written;
  - `_build_flow_expr_str` renders entries in the order of the caller's list of pairs.
- Some calls in the source crash at run time. The model uses the intended call:
  - `IptablesManager(chain_uid=...)` at iptables_firewall.py:82 and :102 names a parameter that does not exist;
  - encapsulation.py passes extra arguments to `set_port_up`, `set_netns`, `add_ip`, `add_onlink_route` and `delete_onlink_route`;
  - ip_lib.py calls `.split` on the `(status, output)` tuple `utils.execute` returns, so the parsers take the output text.
- Encapsulation.CreateVmPortAbout: requires a non-empty uid with a security group. An empty uid gives a `None` set name, which the argv join rejects.
- Encapsulation.CleanVmPortAbout: requires a non-empty uid with a security group, for the same reason.
- Encapsulation.AddIpsetRule: requires a non-empty uid when there are addresses, for the same reason.
- Encapsulation.AddIpToIpset: requires a non-empty uid when there are addresses, for the same reason.
- Encapsulation.AddRule: requires `direction` to be `ingress` or `egress`; any other value raises `KeyError` in `chain_suffix`.
- Encapsulation.RemoveRule: requires a known direction, for the same reason.
- Iptables.IptablesManager.AddChain: requires a table and a chain name. With neither, the source fails on `None` before the apply, and no caller does that.
- Tables are the enumeration filter/nat. A table name outside `ipv4` raises `KeyError` in the source.
- `Net` does not track links, veth pairs, addresses, VLAN tags, dnsmasq processes, iptables or ipset sets inside namespaces. The idle lemmas state that those commands leave the tracked state alone.
- `Dnsmasq_base(net_uid=...)` of `clean_dhcp_about` has no mask; the model writes 0, which killing and removing files never read.
- `ips=None` in `add_ipset_rule` is written as the empty list, which behaves the same.
- `_find_table` with the header on the first line returns start -1, a Python slice from the last line. This is modelled as written through `Iptables.Clamp`.
- `count_flows` is modelled as written by `Ovs.CountFlows`: `commands.getstatusoutput` has already dropped the trailing newline, so n flows after the header count n - 1, and n - 2 without a header. The corrected count is under Findings.
- Inet.InetAton: models only the four-field decimal quad, the form `ip_expr` hands it. The shorter forms (`10.1` is 10.0.0.1 to `inet_aton`, `127` is 0.0.0.127), hexadecimal (`0x7f.1`) and octal (`010.0.0.1`) fields, which the real `inet_aton` accepts, read as None here.
- Inet.IpyAddr: IPy's hexadecimal `0x` text, IPv6 text, text carrying its own `/prefix` or range, and the leniency of Python's `int()` (signs, surrounding blanks) are not modelled; such text reads as no IPv4 address. In the source IPv6 text fails later, at `inet_aton`, so `ip_expr` still fails, with a different exception.
- Dhcp.GetNetwork: reads its text through `Inet.IpyAddr`, so it shares that reader's limits: hexadecimal, IPv6 and `int()`-lenient text fail here with `BadAddress`.
- Dhcp.BlockFails: counts the text `Inet.IpyAddr` does not read as unreadable, so the same hexadecimal and `int()`-lenient forms fail here, which IPy would accept.
- Firewall.IptablesFirewallDriver.RemoveUndoesAdd: compares chain names only. `add_port_chain` applies without a namespace and `remove_port_chain` applies in the driver's namespace, so with a namespace set the removal acts on another namespace's tables. Every caller in encapsulation.py passes no namespace.
- Out of scope in ovs_lib.py: `add_bridge`, `delete_bridge`, `get_bridge_name_for_port_name`, `port_exists`, `remove_all_flows`, `get_datapath_id`, `add_patch_port`, `db_get_map`, `get_port_name_list`, `get_port_stats`, `get_xapi_iface_id`, the mirror helpers, `get_bridge_for_iface` and `get_bridges`. They are thin wrappers, shell pipelines or foreign calls.
- Out of scope in ip_lib.py: `add_tuntap`, `namespace_is_empty`, `garbage_collect_namespace`, `IpRule`, `IpLinkCommand.delete`, `delete_ip` and `flush`. They are unused wrappers.
- linuxbridge.py: `interface_exists_on_bridge` and `get_all_bridges` read `/sys/class/net`, so they are out.
- encapsulation.py: `user_login`, `user_logout`, `data_mirror`, `clean_data_mirror` and `check_data_mirror` are out. They drive the mirror bridge through OVS calls that are not part of this model.
- Concurrency is out: the agent is single-threaded apart from its logger.

## Findings

| source | as written | input that shows it | evidently intended | confidence | as-written member | corrected member |
|---|---|---|---|---|---|---|
| iptables_manager.py:205 | On the `obj` path, `remove_rules` is read from `obj.remove_chains`, so rules queued for removal on `obj` are never removed | region `["[0:0] -A FORWARD -j DROP"]` with `obj.remove_rules == ["-j DROP"]`: the line stays | `obj.remove_rules` | not executed | Iptables.ObjRemoveRulesIgnored | Iptables.ModifyRules |
| ovs_lib.py:102-103 | `count_flows` drops the header line and then subtracts one more, as if the output ended in a newline, which `commands.getstatusoutput` has already removed | a header and one flow line: the count is 0 | `len(result)`, one per line after the header | not executed | Ovs.CountFlowsListing | Ovs.CountFlowsIntendedListing |
| encapsulation.py:172-175 | Without a security group, the clean deletes the `qvb-` veth and the `qvo-` port, which the plain create never made, and leaves `tap<uid>` on `br0` | any uid, on a host without `tap<uid>` on `br0`: create then clean leaves `tap<uid>` attached | delete the `tap<uid>` port the create attached | not executed | Encapsulation.PlainCleanLeavesTap | Encapsulation.PlainRoundTrip |
