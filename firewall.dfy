/**
  iptables_firewall.py: the per-port security-group chains of `IptablesFirewallDriver`,
  the rules that send a port's bridged traffic through them, and the address sets
  behind its ipset rules.

  Every iptables manager the driver creates is fresh, so each `iptables_apply` it
  triggers carries exactly the one chain or rule that manager was given; the host
  records it as an `IptablesApply` (see `Iptables.ApplyText` for what it does to the
  save output).
 */
module Firewall {
  import opened Wrappers
  import opened Text
  import opened Config
  import opened Actions
  import opened Sorting
  import Ipset
  import Iptables
  import Lists

  const SgChain := "sg-chain"
  const IngressDirection := "ingress"
  const EgressDirection := "egress"
  const VmInterfacePrefix := "tap"
  /** The keys of `DIRECTION_IP_PREFIX`. */
  const Directions: set<string> := {IngressDirection, EgressDirection}
  /** The chains `wrap_builtin_chains` wraps, per table. */
  const FilterBuiltins := ["INPUT", "OUTPUT", "FORWARD"]
  const NatBuiltins := ["PREROUTING", "OUTPUT", "POSTROUTING"]

  /** `IPTABLES_DIRECTION[direction]`: traffic into the VM leaves the bridge on its port. */
  function IptablesDirection(direction: string): string
    requires direction in Directions
  {
    if direction == IngressDirection then "physdev-out" else "physdev-in"
  }

  /** `IPSET_DIRECTION[direction]`: which address of a packet the set is matched against. */
  function IpsetDirection(direction: string): string
    requires direction in Directions
  {
    if direction == IngressDirection then "src" else "dst"
  }

  /** `sorted(DIRECTION_IP_PREFIX)`: egress first. */
  lemma SortedDirections()
    ensures SortedSeq(Directions) == [EgressDirection, IngressDirection]
  {
    SortedSeqSpec(Directions);
    var s := SortedSeq(Directions);
    assert !LexLeq(IngressDirection, EgressDirection) by {
      assert IngressDirection[0] == 'i' && EgressDirection[0] == 'e';
    }
    assert s[0] in Directions && s[1] in Directions && s[0] != s[1];
    assert LexLeq(s[0], s[1]);
  }

  // ---------------------------------------------------------------- rule texts

  /** `'-m physdev --%s %s --physdev-is-bridged -j %s' % (flag, device, target)`, kept as the
      words `add_rule` splits it into. */
  function PhysdevRule(flag: string, device: string, target: string): string {
    Join(PhysdevTokens(flag, device, target), " ")
  }

  function PhysdevTokens(flag: string, device: string, target: string): seq<string> {
    ["-m", "physdev", "--" + flag, device, "--physdev-is-bridged", "-j", target]
  }

  /** The rule `_add_chain_rule` writes: the port's bridged traffic in one direction goes to `$target`. */
  function JumpRule(direction: string, device: string, target: string): string
    requires direction in Directions
  {
    PhysdevRule(IptablesDirection(direction), device, "$" + target)
  }

  /** What the jump rule becomes once `add_rule` has wrapped its `$` target. */
  function WrappedJump(wrapName: string, direction: string, device: string, target: string): string
    requires direction in Directions
  {
    PhysdevRule(IptablesDirection(direction), device, wrapName + "-" + Iptables.GetChainName(target, true))
  }

  /** A word free of spaces. */
  predicate Token(s: string) {
    ' ' !in s
  }

  /** Of a physdev rule's words only the `$` target is rewritten. */
  lemma WrapPhysdevTokens(wrapName: string, flag: string, device: string, target: string)
    requires !StartsWith(device, "$")
    ensures Iptables.WrapTokens(wrapName, PhysdevTokens(flag, device, "$" + target), true) ==
              PhysdevTokens(flag, device, wrapName + "-" + Iptables.GetChainName(target, true))
  {
    var tokens := PhysdevTokens(flag, device, "$" + target);
    assert ("$" + target)[1..] == target;
    assert tokens[0][0] == '-' && tokens[1][0] == 'p' && tokens[2][0] == '-';
    assert tokens[4][0] == '-' && tokens[5][0] == '-';
  }

  /** The rule `_add_chain_rule` writes keeps its words and only the last one, the target,
      is rewritten into the wrapped chain `<wrap name>-<target cut to 11>`. */
  lemma JumpRuleWrapped(wrapName: string, direction: string, device: string, target: string)
    requires direction in Directions && Token(device) && Token(target) && !StartsWith(device, "$")
    ensures Iptables.WrapRule(wrapName, JumpRule(direction, device, target), true) ==
              WrappedJump(wrapName, direction, device, target)
  {
    var flag := IptablesDirection(direction);
    var wrappedTarget := wrapName + "-" + Iptables.GetChainName(target, true);
    var tokens := PhysdevTokens(flag, device, "$" + target);
    var rule := JumpRule(direction, device, target);
    assert forall k :: 0 <= k < |tokens| ==> ' ' !in tokens[k] by {
      assert ' ' !in "--" + flag;
      assert ' ' !in "$" + target;
    }
    SplitJoin(tokens, " ");
    var wrapped := Iptables.WrapTokens(wrapName, tokens, true);
    WrapPhysdevTokens(wrapName, flag, device, target);
    assert Contains(rule, "$") by {
      JoinEndsWith(tokens, " ");
      var last := " " + ("$" + target);
      assert rule[|rule| - |last| + 1] == last[1] == '$';
      ContainsChar(rule, '$');
    }
  }

  /** `' '.join(['-m set', '--match-set', name, direction, '-j ' + action])` */
  function IpsetRule(ipsetName: string, direction: string, action: string): string {
    Join(["-m set", "--match-set", ipsetName, direction, "-j " + action], " ")
  }

  /** The ipset rule has no `$` target, so `add_rule` stores it exactly as built. */
  lemma IpsetRuleKept(wrapName: string, ipsetName: string, direction: string, action: string)
    requires '$' !in ipsetName && '$' !in direction && '$' !in action
    ensures Iptables.WrapRule(wrapName, IpsetRule(ipsetName, direction, action), true) ==
              IpsetRule(ipsetName, direction, action)
  {
    var parts := ["-m set", "--match-set", ipsetName, direction, "-j " + action];
    var rule := IpsetRule(ipsetName, direction, action);
    assert '$' !in "-j " + action;
    JoinFree(parts, " ", '$');
    ContainsChar(rule, '$');
  }

  // ---------------------------------------------------------------- built-in chains

  /** `'-j $%s' % chain`, kept as its two words. */
  function JumpTo(chain: string): string {
    Join(["-j", "$" + chain], " ")
  }

  /** The rule `wrap_builtin_chains` adds on a built-in chain. */
  function BuiltinRule(wrapName: string, chain: string): Iptables.IptablesRule {
    Iptables.IptablesRule(chain, Iptables.WrapRule(wrapName, JumpTo(chain), true), true)
  }

  function BuiltinRules(wrapName: string, chains: seq<string>): (r: seq<Iptables.IptablesRule>)
    ensures |r| == |chains|
    ensures forall k :: 0 <= k < |chains| ==> r[k] == BuiltinRule(wrapName, chains[k])
  {
    if chains == [] then [] else BuiltinRules(wrapName, chains[..|chains| - 1]) + [BuiltinRule(wrapName, chains[|chains| - 1])]
  }

  /** The wrapped chains `wrap_builtin_chains` declares. */
  function WrapChains(wrapName: string, chains: seq<string>): set<string> {
    if chains == [] then {}
    else WrapChains(wrapName, chains[..|chains| - 1]) + {wrapName + "-" + chains[|chains| - 1]}
  }

  lemma {:induction false} WrapChainsHas(wrapName: string, chains: seq<string>, k: nat)
    requires k < |chains|
    ensures wrapName + "-" + chains[k] in WrapChains(wrapName, chains)
  {
    if k < |chains| - 1 {
      WrapChainsHas(wrapName, chains[..|chains| - 1], k);
    }
  }

  /** One more built-in chain adds its wrapped chain and its jump rule. */
  lemma WrapStep(wrapName: string, chains: seq<string>, j: nat)
    requires j < |chains|
    ensures WrapChains(wrapName, chains[..j + 1]) == WrapChains(wrapName, chains[..j]) + {wrapName + "-" + chains[j]}
    ensures BuiltinRules(wrapName, chains[..j + 1]) == BuiltinRules(wrapName, chains[..j]) + [BuiltinRule(wrapName, chains[j])]
  {
    assert chains[..j + 1][..j] == chains[..j];
  }

  /** What one table's `iptables_apply(table, obj=ipv4[table])` reconciles: the wrapped
      chains and the jumps to them, read through the `obj` branch of `_modify_rules`. */
  function BuiltinChanges(wrapName: string, chains: seq<string>): Iptables.Changes {
    Iptables.ObjChangesAsWritten(WrapChains(wrapName, chains), {}, BuiltinRules(wrapName, chains), [])
  }

  /** `-j $<chain>` becomes a jump to the wrapped chain. */
  lemma JumpToWrapped(wrapName: string, chain: string)
    requires Token(chain)
    ensures Iptables.WrapRule(wrapName, JumpTo(chain), true) ==
              Join(["-j", wrapName + "-" + Iptables.GetChainName(chain, true)], " ")
  {
    var tokens := ["-j", "$" + chain];
    assert ' ' !in "$" + chain;
    SplitJoin(tokens, " ");
    assert ("$" + chain)[1..] == chain;
    assert Iptables.WrapTokens(wrapName, tokens, true) == ["-j", wrapName + "-" + Iptables.GetChainName(chain, true)];
    assert JumpTo(chain)[3] == '$' by {
      assert tokens[1..] == ["$" + chain];
    }
    ContainsChar(JumpTo(chain), '$');
  }

  /** Each built-in chain gets the rule `-j <wrap name>-<chain>`, and that target is a chain
      declared in the same apply. */
  lemma BuiltinJumpsDeclared(wrapName: string, chains: seq<string>, k: nat)
    requires k < |chains| && Token(chains[k]) && |chains[k]| <= Iptables.MaxChainLenWrap
    ensures BuiltinChanges(wrapName, chains).rules[k] ==
              Iptables.IptablesRule(chains[k], Join(["-j", wrapName + "-" + chains[k]], " "), true)
    ensures wrapName + "-" + chains[k] in BuiltinChanges(wrapName, chains).chains
  {
    WrapChainsHas(wrapName, chains, k);
    JumpToWrapped(wrapName, chains[k]);
  }

  // ---------------------------------------------------------------- traces

  /** The chains a run of recorded actions declares. */
  function Declared(actions: seq<Action>): set<string> {
    if actions == [] then {}
    else (if actions[0].IptablesApply? then actions[0].changes.chains else {}) + Declared(actions[1..])
  }

  /** The chains and rules a run of recorded actions asks to remove. */
  function Removed(actions: seq<Action>): set<string> {
    if actions == [] then {}
    else (if actions[0].IptablesApply? then actions[0].changes.removals else {}) + Removed(actions[1..])
  }

  lemma {:induction false} DeclaredAppend(a: seq<Action>, b: seq<Action>)
    ensures Declared(a + b) == Declared(a) + Declared(b)
    ensures Removed(a + b) == Removed(a) + Removed(b)
  {
    if a == [] {
      assert a + b == b;
    } else {
      assert (a + b)[0] == a[0] && (a + b)[1..] == a[1..] + b;
      DeclaredAppend(a[1..], b);
    }
  }

  /** A table nothing has been asked of yet. */
  predicate Untouched(t: Iptables.IptablesTable)
    reads t
  {
    t.chains == {} && t.removeChains == {} && t.rules == [] && t.removeRules == []
  }

  // ---------------------------------------------------------------- the driver

  /** `IptablesFirewallDriver`: the security group of one port (`chain_uid`). */
  class IptablesFirewallDriver {
    const namespace: Option<string>
    const wrap: bool
    const chainUid: Option<string>
    const table: Option<Iptables.TableName>
    /** The running program's name, which every iptables manager cuts its wrap name from. */
    const binaryName: string
    const uidPrefix: string
    const portName: string
    const ipsetManager: Ipset.IpsetManager
    const ipsetName: Option<string>
    const chainSuffix: map<string, string>
    const host: Host

    /** The names `__init__` derives from the uid, and the host the ipset manager shares. */
    ghost predicate Valid() {
      ipsetManager.host == host && ipsetManager.namespace == namespace &&
      |uidPrefix| <= UidPrefixBit && portName == VmInterfacePrefix + uidPrefix &&
      chainSuffix == map[IngressDirection := "i" + uidPrefix, EgressDirection := "o" + uidPrefix]
    }

    constructor(chainUid: Option<string>, namespace: Option<string>, table: Option<Iptables.TableName>,
                wrap: bool, binaryName: string, host: Host)
      ensures Valid()
      ensures this.chainUid == chainUid && this.namespace == namespace && this.table == table
      ensures this.wrap == wrap && this.binaryName == binaryName && this.host == host
      ensures uidPrefix == UidPrefix(Strip(Iptables.Render(chainUid)))
      ensures fresh(ipsetManager) && ipsetManager.name == chainUid
      ensures ipsetName == Ipset.GetIpsetChainName(chainUid)
    {
      this.namespace := namespace;
      this.wrap := wrap;
      this.chainUid := chainUid;
      this.table := table;
      this.binaryName := binaryName;
      this.host := host;
      var prefix := UidPrefix(Strip(Iptables.Render(chainUid)));
      this.uidPrefix := prefix;
      this.portName := VmInterfacePrefix + prefix;
      this.ipsetManager := new Ipset.IpsetManager(chainUid, namespace, host);
      this.ipsetName := Ipset.GetIpsetChainName(chainUid);
      this.chainSuffix := map[IngressDirection := "i" + prefix, EgressDirection := "o" + prefix];
    }

    /** `binary_name[:16]`, the prefix of every chain the driver's managers wrap. */
    function WrapName(): string {
      Take(binaryName, Iptables.MaxWrapNameLen)
    }

    /** The chain a fresh manager for `chain` names: wrapped, or `None` when not wrapping. */
    function ManagerChain(chain: string, wrapChain: bool): Option<string> {
      if wrapChain then Some(WrapName() + "-" + Iptables.GetChainName(chain, true)) else None
    }

    /** The port's chain for a direction. */
    function PortChain(direction: string): string
      requires Valid() && direction in Directions
    {
      ManagerChain(chainSuffix[direction], true).value
    }

    /** An `iptables_apply` of a fresh manager of the driver's table. */
    function ApplyIn(ns: Option<string>, changes: Iptables.Changes): Action {
      IptablesApply(ns, Iptables.TableLabel(table), changes)
    }

    /** `add_chain()` on a fresh wrapping manager for `chain`, outside any namespace. */
    function ChainAction(chain: string): Action {
      ApplyIn(None, Iptables.Changes({ManagerChain(chain, true).value}, [], {}))
    }

    /** `add_rule(rule, self.table)` on a fresh wrapping manager for `chain`, outside any namespace. */
    function RuleAction(chain: string, rule: string): Action {
      ApplyIn(None, Iptables.Changes({}, [Iptables.IptablesRule(ManagerChain(chain, true).value,
                                                                Iptables.WrapRule(WrapName(), rule, true), true)], {}))
    }

    /** The two applies of `_add_chain_rule(direction)`. */
    function ChainRuleActions(direction: string): seq<Action>
      requires Valid() && direction in Directions
    {
      [RuleAction("FORWARD", JumpRule(direction, portName, SgChain)),
       RuleAction(SgChain, JumpRule(direction, portName, chainSuffix[direction]))]
    }

    /** The three applies of one direction of `add_port_chain`. */
    function PortChainActions(direction: string): seq<Action>
      requires Valid() && direction in Directions
    {
      [ChainAction(chainSuffix[direction])] + ChainRuleActions(direction)
    }

    /** Adding a port's chains runs only `iptables_apply`, no command line of its own. */
    lemma PortChainsApplyOnly()
      requires Valid()
      ensures var t := PortChainActions(EgressDirection) + PortChainActions(IngressDirection);
              forall k :: 0 <= k < |t| ==> t[k].IptablesApply?
    {
      var e, i := PortChainActions(EgressDirection), PortChainActions(IngressDirection);
      assert |e| == 3 && e[0].IptablesApply? && e[1].IptablesApply? && e[2].IptablesApply?;
      assert |i| == 3 && i[0].IptablesApply? && i[1].IptablesApply? && i[2].IptablesApply?;
    }

    /** `delete_chain(chain, wrap)`: the removal of one chain inside the driver's namespace. */
    function DeleteChainAction(chain: string, wrapChain: bool): Action {
      ApplyIn(namespace, Iptables.Changes({}, [], {Iptables.Render(ManagerChain(chain, wrapChain))}))
    }

    /** Both port chains fit uncut in a wrapped name, are different and differ from `sg-chain`'s. */
    lemma PortChainNames()
      requires Valid()
      ensures PortChain(IngressDirection) == WrapName() + "-i" + uidPrefix
      ensures PortChain(EgressDirection) == WrapName() + "-o" + uidPrefix
      ensures PortChain(IngressDirection) != PortChain(EgressDirection)
      ensures ManagerChain(SgChain, true).value !in {PortChain(IngressDirection), PortChain(EgressDirection)}
      ensures |PortChain(IngressDirection)| <= Iptables.MaxChainLenNoWrap
    {
      var w := WrapName();
      var i, o := "i" + uidPrefix, "o" + uidPrefix;
      assert Iptables.GetChainName(i, true) == i;
      assert Iptables.GetChainName(o, true) == o;
      assert Iptables.GetChainName(SgChain, true) == SgChain;
      assert (w + "-" + i)[|w| + 1] == 'i';
      assert (w + "-" + o)[|w| + 1] == 'o';
      assert (w + "-" + SgChain)[|w| + 1] == 's';
    }

    /** For a uid without spaces, the port's traffic in `direction` goes from FORWARD to
        `sg-chain` and from `sg-chain` to the port chain `add_port_chain` declares for
        that direction. */
    lemma PortChainWiring(direction: string)
      requires Valid() && direction in Directions && Token(uidPrefix)
      ensures PortChainActions(direction)[0].changes.chains == {PortChain(direction)}
      ensures PortChainActions(direction)[1].changes.rules ==
                [Iptables.IptablesRule(WrapName() + "-" + "FORWARD",
                   PhysdevRule(IptablesDirection(direction), portName, WrapName() + "-" + SgChain), true)]
      ensures PortChainActions(direction)[2].changes.rules ==
                [Iptables.IptablesRule(WrapName() + "-" + SgChain,
                   PhysdevRule(IptablesDirection(direction), portName, PortChain(direction)), true)]
    {
      assert !StartsWith(portName, "$") by {
        assert portName[0] == 't';
      }
      assert Token(portName) by {
        forall k | 0 <= k < |portName|
          ensures portName[k] != ' '
        {
          if k >= 3 {
            assert portName[k] == uidPrefix[k - 3];
          }
        }
      }
      var suffix := chainSuffix[direction];
      assert Token(suffix) by {
        forall k | 0 <= k < |suffix|
          ensures suffix[k] != ' '
        {
          if k >= 1 {
            assert suffix[k] == uidPrefix[k - 1];
          }
        }
      }
      JumpRuleWrapped(WrapName(), direction, portName, SgChain);
      JumpRuleWrapped(WrapName(), direction, portName, suffix);
      assert Iptables.GetChainName("FORWARD", true) == "FORWARD";
      assert Iptables.GetChainName(SgChain, true) == SgChain;
    }

    /** One direction of `add_port_chain` declares that direction's port chain and nothing else. */
    lemma PortChainDeclares(direction: string)
      requires Valid() && direction in Directions
      ensures Declared(PortChainActions(direction)) == {PortChain(direction)}
    {
      var acts := PortChainActions(direction);
      assert Declared(acts[2..]) == {} by {
        assert acts[2..][1..] == [];
      }
      assert Declared(acts[1..]) == {} by {
        assert acts[1..][1..] == acts[2..];
      }
    }

    /** `remove_port_chain` asks to remove exactly the chains `add_port_chain` declares.
        This compares chain names only: `add_port_chain` applies through managers built
        without a namespace (lines 65 and 82), while `remove_port_chain` applies in the
        driver's namespace (line 142), so with a namespace set the removal acts on
        another network namespace's tables. */
    lemma RemoveUndoesAdd()
      requires Valid()
      ensures Declared(PortChainActions(EgressDirection) + PortChainActions(IngressDirection)) ==
              {PortChain(EgressDirection), PortChain(IngressDirection)}
      ensures Removed([DeleteChainAction(chainSuffix[EgressDirection], true),
                       DeleteChainAction(chainSuffix[IngressDirection], true)]) ==
              {PortChain(EgressDirection), PortChain(IngressDirection)}
    {
      DeclaredAppend(PortChainActions(EgressDirection), PortChainActions(IngressDirection));
      PortChainDeclares(EgressDirection);
      PortChainDeclares(IngressDirection);
      var dels := [DeleteChainAction(chainSuffix[EgressDirection], true),
                   DeleteChainAction(chainSuffix[IngressDirection], true)];
      assert Removed(dels[1..]) == {PortChain(IngressDirection)} by {
        assert dels[1..][1..] == [];
      }
    }

    /** `IptablesManager(chain, self.table).add_chain()`: the wrapped name always fits, so the
        chain is declared. */
    method AddWrappedChain(chain: string)
      requires table.Some?
      modifies host
      ensures host.trace == old(host.trace) + [ChainAction(chain)]
    {
      var iptables := new Iptables.IptablesManager(Some(chain), table, None, None, true, binaryName);
      var name := iptables.ChainNameOf();
      iptables.WrappedNameFits();
      host.Record(IptablesApply(iptables.namespace, Iptables.TableLabel(iptables.table), Iptables.Changes({name.value}, [], {})));
    }

    /** `add_sg_chain()`: declares the wrapped `sg-chain` in the driver's table. */
    method AddSgChain()
      requires table.Some?
      modifies host
      ensures host.trace == old(host.trace) + [ChainAction(SgChain)]
    {
      AddWrappedChain(SgChain);
    }

    /** `add_port_chain()`: egress, then ingress, each with its port chain and the two rules
        that send the port's traffic to it. */
    method AddPortChain()
      requires Valid() && table.Some?
      modifies host
      ensures host.trace == old(host.trace) + PortChainActions(EgressDirection) + PortChainActions(IngressDirection)
    {
      var directions := SortStrings(Directions);
      SortedDirections();
      var i := 0;
      while i < |directions|
        invariant i <= |directions| && directions == [EgressDirection, IngressDirection]
        invariant i == 0 ==> host.trace == old(host.trace)
        invariant i == 1 ==> host.trace == old(host.trace) + PortChainActions(EgressDirection)
        invariant i == 2 ==> host.trace == old(host.trace) + PortChainActions(EgressDirection) + PortChainActions(IngressDirection)
      {
        AddDirectionChain(directions[i]);
        i := i + 1;
      }
    }

    /** One pass of `add_port_chain`'s loop: the direction's chain, then `_add_chain_rule`. */
    method AddDirectionChain(direction: string)
      requires Valid() && table.Some? && direction in Directions
      modifies host
      ensures host.trace == old(host.trace) + PortChainActions(direction)
    {
      var chainNameStr := chainSuffix[direction];
      AddWrappedChain(chainNameStr);
      AddChainRule(direction);
    }

    /** `_add_chain_rule(direction)`: FORWARD jumps to `sg-chain` for the port, and
        `sg-chain` jumps to the port's chain. */
    method AddChainRule(direction: string)
      requires Valid() && table.Some? && direction in Directions
      modifies host
      ensures host.trace == old(host.trace) + ChainRuleActions(direction)
    {
      var iptables := new Iptables.IptablesManager(Some("FORWARD"), table, None, None, true, binaryName);
      var device := portName;
      var jumpRule := JumpRule(direction, device, SgChain);
      host.Record(IptablesApply(iptables.namespace, Iptables.TableLabel(table), Iptables.Changes({},
        [Iptables.IptablesRule(iptables.RuleChain(None), Iptables.WrapRule(iptables.wrapName, jumpRule, true), true)], {})));
      iptables := new Iptables.IptablesManager(Some(SgChain), table, None, None, true, binaryName);
      jumpRule := JumpRule(direction, device, chainSuffix[direction]);
      host.Record(IptablesApply(iptables.namespace, Iptables.TableLabel(table), Iptables.Changes({},
        [Iptables.IptablesRule(iptables.RuleChain(None), Iptables.WrapRule(iptables.wrapName, jumpRule, true), true)], {})));
    }

    /** `remove_port_chain()`: removes both port chains, egress first. */
    method RemovePortChain()
      requires Valid() && table.Some?
      modifies host
      ensures host.trace == old(host.trace) + [DeleteChainAction(chainSuffix[EgressDirection], true),
                                               DeleteChainAction(chainSuffix[IngressDirection], true)]
    {
      var directions := SortStrings(Directions);
      SortedDirections();
      var i := 0;
      while i < |directions|
        invariant i <= |directions| && directions == [EgressDirection, IngressDirection]
        invariant i == 0 ==> host.trace == old(host.trace)
        invariant i == 1 ==> host.trace == old(host.trace) + [DeleteChainAction(chainSuffix[EgressDirection], true)]
        invariant i == 2 ==> host.trace == old(host.trace) + [DeleteChainAction(chainSuffix[EgressDirection], true),
                                                              DeleteChainAction(chainSuffix[IngressDirection], true)]
      {
        var chainName := chainSuffix[directions[i]];
        DeleteChain(chainName, true);
        i := i + 1;
      }
    }

    /** `delete_chain(chain_name, wrap)`: a manager in the driver's namespace removes the chain. */
    method DeleteChain(chainName: string, wrapChain: bool)
      requires table.Some?
      modifies host
      ensures host.trace == old(host.trace) + [DeleteChainAction(chainName, wrapChain)]
    {
      var iptables := new Iptables.IptablesManager(Some(chainName), table, namespace, None, wrapChain, binaryName);
      host.Record(IptablesApply(iptables.namespace, Iptables.TableLabel(table),
                                Iptables.Changes({}, [], {Iptables.Render(iptables.ChainNameOf())})));
    }

    /** `add_iptables_rule(rule, direction, wrap)`: the rule goes on the direction's chain,
        or on the chain `None` when not wrapping, with its `$` targets wrapped. */
    method AddIptablesRule(rule: string, direction: string, wrapChain: bool)
      requires Valid() && table.Some? && direction in Directions
      modifies host
      ensures host.trace == old(host.trace) +
                [ApplyIn(namespace, Iptables.Changes({}, [Iptables.IptablesRule(Iptables.Render(ManagerChain(chainSuffix[direction], wrapChain)),
                                                                                 Iptables.WrapRule(WrapName(), rule, true), true)], {}))]
    {
      var chainName := chainSuffix[direction];
      var iptables := new Iptables.IptablesManager(Some(chainName), table, namespace, None, wrapChain, binaryName);
      host.Record(IptablesApply(iptables.namespace, Iptables.TableLabel(table), Iptables.Changes({},
        [Iptables.IptablesRule(iptables.RuleChain(chainUid), Iptables.WrapRule(iptables.wrapName, rule, true), true)], {})));
    }

    /** `delete_rule(rule, direction, wrap)`: every line holding the rule text is removed,
        whatever the chain. */
    method DeleteRule(rule: string, direction: string, wrapChain: bool)
      requires Valid() && table.Some? && direction in Directions
      modifies host
      ensures host.trace == old(host.trace) + [ApplyIn(namespace, Iptables.Changes({}, [], {rule}))]
    {
      var chainName := chainSuffix[direction];
      var iptables := new Iptables.IptablesManager(Some(chainName), table, namespace, None, wrapChain, binaryName);
      assert Lists.Elements([rule]) == {rule};
      host.Record(IptablesApply(iptables.namespace, Iptables.TableLabel(table),
                                Iptables.TableChanges({}, {}, [], [rule])));
    }

    /** The rule `init_ipset_rule` puts on the direction's chain. */
    function IpsetRuleAction(action: string, direction: string): Action
      requires Valid() && direction in Directions && ipsetName.Some?
    {
      ApplyIn(namespace, Iptables.Changes({}, [Iptables.IptablesRule(PortChain(direction),
        Iptables.WrapRule(WrapName(), IpsetRule(ipsetName.value, IpsetDirection(direction), action), true), true)], {}))
    }

    /** `init_ipset_rule(action, direction)`: creates the port's set, then adds to the
        direction's chain the rule matching it. */
    method InitIpsetRule(action: string, direction: string)
      requires Valid() && table.Some? && direction in Directions && ipsetName.Some?
      modifies host
      ensures host.trace == old(host.trace) +
                [Exec(Ipset.InNamespace(namespace, Ipset.CreateArgv(ipsetName.value))), IpsetRuleAction(action, direction)]
    {
      ipsetManager.CreateIpsetChain(ipsetName.value);
      AddIpsetMatchRule(action, direction);
    }

    /** The second half of `init_ipset_rule`: the set-match rule on the direction's chain,
        through an `IptablesManager` for that chain (building the manager has no effect). */
    method AddIpsetMatchRule(action: string, direction: string)
      requires Valid() && table.Some? && direction in Directions && ipsetName.Some?
      modifies host
      ensures host.trace == old(host.trace) + [IpsetRuleAction(action, direction)]
    {
      var chainName := chainSuffix[direction];
      var iptables := new Iptables.IptablesManager(Some(chainName), table, namespace, None, true, binaryName);
      var setDirection := IpsetDirection(direction);
      var rule := IpsetRule(ipsetName.value, setDirection, action);
      host.Record(IptablesApply(iptables.namespace, Iptables.TableLabel(table), Iptables.Changes({},
        [Iptables.IptablesRule(iptables.RuleChain(chainUid), Iptables.WrapRule(iptables.wrapName, rule, true), true)], {})));
    }

    /** `add_ipset_rule(ips)`: each address joins the port's set, in order; nothing for an empty list. */
    method AddIpsetRule(ips: seq<string>)
      requires Valid() && (ips != [] ==> ipsetName.Some?)
      modifies host
      ensures ips == [] ==> host.trace == old(host.trace)
      ensures ips != [] ==> host.trace == old(host.trace) + ipsetManager.AddMembersActions(ips, ipsetName.value)
    {
      if ips != [] {
        var name := ipsetName.value;
        var i := 0;
        while i < |ips|
          invariant i <= |ips|
          invariant host.trace == old(host.trace) + ipsetManager.AddMembersActions(ips[..i], name)
        {
          ipsetManager.AddMemberToIpsetChain(ips[i], name);
          assert ips[..i + 1][..i] == ips[..i];
          i := i + 1;
        }
        assert ips[..i] == ips;
      }
    }

    /** The `del` commands `delete_ipset_rule` runs, in order. */
    function DelMembersActions(ips: seq<string>, name: string): (r: seq<Action>)
      ensures |r| == |ips|
      ensures forall k :: 0 <= k < |ips| ==> r[k] == Exec(Ipset.InNamespace(namespace, Ipset.DelMemberArgv(name, ips[k])))
    {
      if ips == [] then []
      else DelMembersActions(ips[..|ips| - 1], name) + [Exec(Ipset.InNamespace(namespace, Ipset.DelMemberArgv(name, ips[|ips| - 1])))]
    }

    /** `delete_ipset_rule(ips)`: each address leaves the port's set, in order; nothing for an empty list. */
    method DeleteIpsetRule(ips: seq<string>)
      requires Valid() && (ips != [] ==> ipsetName.Some?)
      modifies host
      ensures ips == [] ==> host.trace == old(host.trace)
      ensures ips != [] ==> host.trace == old(host.trace) + DelMembersActions(ips, ipsetName.value)
    {
      if ips != [] {
        var name := ipsetName.value;
        var i := 0;
        while i < |ips|
          invariant i <= |ips|
          invariant host.trace == old(host.trace) + DelMembersActions(ips[..i], name)
        {
          ipsetManager.DelIpsetChainMember(name, ips[i]);
          assert ips[..i + 1][..i] == ips[..i];
          i := i + 1;
        }
        assert ips[..i] == ips;
      }
    }

    /** `wrap_builtin_chains()`: for the filter and then the nat table (the two entries of
        its table dictionary, visited in the order written), declare `<wrap name>-<chain>`
        for each built-in chain, add `-j $<chain>` on the chain itself, and apply the table
        once. */
    method WrapBuiltinChains()
      modifies host
      ensures host.trace == old(host.trace) + [BuiltinAction(Iptables.Filter), BuiltinAction(Iptables.Nat)]
    {
      var iptables := new Iptables.IptablesManager(None, None, None, None, true, binaryName);
      WrapAndApply(iptables, Iptables.Filter);
      WrapAndApply(iptables, Iptables.Nat);
    }

    /** A name `strip()` leaves as it is. */
    predicate Trimmed(s: string) {
      s == "" || (!IsSpace(s[0]) && !IsSpace(s[|s| - 1]))
    }

    /** `builtin_chains[4][table]` */
    function BuiltinChainsOf(table: Iptables.TableName): seq<string> {
      if table == Iptables.Filter then FilterBuiltins else NatBuiltins
    }

    /** The apply `wrap_builtin_chains` makes for one table. */
    function BuiltinAction(table: Iptables.TableName): Action {
      IptablesApply(None, Iptables.TableLabel(Some(table)), BuiltinChanges(WrapName(), BuiltinChainsOf(table)))
    }

    /** Every built-in chain of both tables ends up jumping to its wrapped chain, and that
        chain is declared in the same apply: no name is cut, since none is longer than 11. */
    lemma BuiltinChainsWired(table: Iptables.TableName, k: nat)
      requires k < |BuiltinChainsOf(table)|
      ensures var c := BuiltinChainsOf(table)[k];
              BuiltinAction(table).changes.rules[k] == Iptables.IptablesRule(c, Join(["-j", WrapName() + "-" + c], " "), true) &&
              WrapName() + "-" + c in BuiltinAction(table).changes.chains
    {
      var chains := BuiltinChainsOf(table);
      assert Token(chains[k]) && |chains[k]| <= Iptables.MaxChainLenWrap;
      BuiltinJumpsDeclared(WrapName(), chains, k);
    }

    /** One pass of `wrap_builtin_chains`' outer loop: wrap the table's chains, then
        `iptables_apply(table, obj=ipv4[table])`. */
    method WrapAndApply(iptables: Iptables.IptablesManager, table: Iptables.TableName)
      requires iptables.Valid() && iptables.wrapName == WrapName() && iptables.table.None? && iptables.chainName.None? &&
                  iptables.namespace.None?
      requires Untouched(iptables.Ipv4(table))
      modifies host, iptables.Ipv4(table)
      ensures host.trace == old(host.trace) + [BuiltinAction(table)]
    {
      var t := iptables.Ipv4(table);
      var chains := BuiltinChainsOf(table);
      WrapTable(iptables, t, chains);
      var changes := Iptables.ObjChangesAsWritten(t.chains, t.removeChains, t.rules, t.removeRules);
      assert changes == BuiltinChanges(WrapName(), chains);
      host.Record(IptablesApply(iptables.namespace, Iptables.TableLabel(Some(table)), changes));
    }

    /** The inner loop of `wrap_builtin_chains` for one table, with the apply deferred. */
    method WrapTable(iptables: Iptables.IptablesManager, t: Iptables.IptablesTable, chains: seq<string>)
      requires iptables.Valid() && iptables.table.None? && iptables.chainName.None?
      requires Untouched(t)
      requires forall k :: 0 <= k < |chains| ==> Trimmed(chains[k])
      modifies t
      ensures t.chains == WrapChains(iptables.wrapName, chains) && t.removeChains == {}
      ensures t.rules == BuiltinRules(iptables.wrapName, chains) && t.removeRules == []
    {
      var j := 0;
      while j < |chains|
        invariant j <= |chains|
        invariant t.chains == WrapChains(iptables.wrapName, chains[..j]) && t.removeChains == {}
        invariant t.rules == BuiltinRules(iptables.wrapName, chains[..j]) && t.removeRules == []
      {
        WrapOne(iptables, t, chains[j]);
        WrapStep(iptables.wrapName, chains, j);
        j := j + 1;
      }
      assert chains[..j] == chains;
    }

    /** One pass of the inner loop: declare `<wrap name>-<chain>` and add the jump to it. */
    method WrapOne(iptables: Iptables.IptablesManager, t: Iptables.IptablesTable, chain: string)
      requires iptables.Valid() && iptables.table.None? && iptables.chainName.None?
      requires Trimmed(chain)
      modifies t
      ensures t.chains == old(t.chains) + {iptables.wrapName + "-" + chain} && t.removeChains == old(t.removeChains)
      ensures t.rules == old(t.rules) + [BuiltinRule(iptables.wrapName, chain)] && t.removeRules == old(t.removeRules)
    {
      var name := StripChain(chain);
      var wrapChain := iptables.wrapName + "-" + name;
      t.chains := t.chains + {wrapChain};
      var _ := iptables.AddRule("", JumpTo(chain), None, Some(chain), t, true, true);
    }

    /** `chain.strip()`, which leaves a built-in chain name as it is. */
    method StripChain(chain: string) returns (name: string)
      requires Trimmed(chain)
      ensures name == chain
    {
      StripKeeps(chain);
      name := Strip(chain);
    }
  }
}
