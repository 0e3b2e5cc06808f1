/**
  ipset_manager.py: the names of the per-port address sets and the `ipset` command
  lines `IpsetManager` runs, with a reference semantics of those commands on the
  kernel's sets.
 */
module Ipset {
  import opened Wrappers
  import opened Text
  import opened Config
  import opened Actions
  import Lists

  /** ipset refuses set names of 32 characters or more. */
  const MaxSetNameLen: nat := 31

  // ---------------------------------------------------------------- names

  /** `get_ipset_chain_name(uid)`: `NIPv4` and the identifier's prefix, None for a missing or empty identifier. */
  function GetIpsetChainName(uid: Option<string>): (r: Option<string>)
    ensures r.Some? <==> Truthy(uid)
    ensures r.Some? ==> StartsWith(r.value, IpSetPrefixName) && r.value[|IpSetPrefixName|..] == UidPrefix(uid.value)
    ensures r.Some? ==> |r.value| <= MaxSetNameLen
  {
    if Truthy(uid) then Some(IpSetPrefixName + UidPrefix(uid.value)) else None
  }

  /** Two identifiers share a set exactly when they share their first ten characters. */
  lemma SetNamesCollide(u1: string, u2: string)
    requires u1 != "" && u2 != ""
    ensures GetIpsetChainName(Some(u1)) == GetIpsetChainName(Some(u2)) <==> UidPrefix(u1) == UidPrefix(u2)
  {
    var n1, n2 := GetIpsetChainName(Some(u1)).value, GetIpsetChainName(Some(u2)).value;
    if n1 == n2 {
      assert n1[|IpSetPrefixName|..] == n2[|IpSetPrefixName|..];
    }
  }

  // ---------------------------------------------------------------- command lines

  /** `_apply`: the command, behind one `ip netns exec <ns>` element when a namespace is set. */
  function InNamespace(namespace: Option<string>, cmd: seq<string>): (argv: seq<string>)
    ensures |argv| == |cmd| + (if Truthy(namespace) then 1 else 0)
    ensures argv[|argv| - |cmd|..] == cmd
    ensures Truthy(namespace) ==> argv[0] == "ip netns exec " + namespace.value
    ensures Truthy(namespace) && cmd != [] ==>
              ShellLine(argv) == "ip netns exec " + namespace.value + "  " + ShellLine(cmd)
  {
    if Truthy(namespace) then ["ip netns exec " + namespace.value] + cmd else cmd
  }

  function CreateArgv(name: string): seq<string> {
    ["ipset", "create", "-exist", name, "hash:net"]
  }

  function AddMemberArgv(ip: string, name: string): seq<string> {
    ["ipset", "-A", name, ip]
  }

  function FlushArgv(name: string): seq<string> {
    ["ipset", "-F", name]
  }

  function DelMemberArgv(chainName: string, ip: string): seq<string> {
    ["ipset", "del", chainName, ip]
  }

  function DestroyArgv(chainName: string): seq<string> {
    ["ipset", "destroy", chainName]
  }

  function RestoreArgv(): seq<string> {
    ["ipset", "restore", "-exist"]
  }

  function SwapArgv(src: string, dest: string): seq<string> {
    ["ipset", "swap", src, dest]
  }

  /** The `-A` command for each address, in order: what `add_ip_members` runs. */
  function AddMembersArgvs(ips: seq<string>, name: string): (r: seq<seq<string>>)
    ensures |r| == |ips|
    ensures forall k :: 0 <= k < |ips| ==> r[k] == AddMemberArgv(ips[k], name)
  {
    if ips == [] then [] else AddMembersArgvs(ips[..|ips| - 1], name) + [AddMemberArgv(ips[|ips| - 1], name)]
  }

  // ---------------------------------------------------------------- what the commands do

  /** The kernel's `hash:net` sets by name. */
  type Sets = map<string, set<string>>

  /**
    The effect of one ipset command line on the sets: `create -exist` makes an empty set
    unless it exists, `-A` and `del` add and remove a member of an existing set, `-F`
    empties it and `destroy` removes it. Any other command, and a command on a missing
    set (which ipset refuses), leaves the sets as they were.
   */
  function Run(sets: Sets, argv: seq<string>): Sets {
    if |argv| == 5 && argv[..3] == ["ipset", "create", "-exist"] && argv[4] == "hash:net" then
      if argv[3] in sets then sets else sets[argv[3] := {}]
    else if |argv| == 4 && argv[..2] == ["ipset", "-A"] && argv[2] in sets then
      sets[argv[2] := sets[argv[2]] + {argv[3]}]
    else if |argv| == 4 && argv[..2] == ["ipset", "del"] && argv[2] in sets then
      sets[argv[2] := sets[argv[2]] - {argv[3]}]
    else if |argv| == 3 && argv[..2] == ["ipset", "-F"] && argv[2] in sets then
      sets[argv[2] := {}]
    else if |argv| == 3 && argv[..2] == ["ipset", "destroy"] then
      sets - {argv[2]}
    else sets
  }

  function RunAll(sets: Sets, argvs: seq<seq<string>>): Sets
    decreases |argvs|
  {
    if argvs == [] then sets else Run(RunAll(sets, argvs[..|argvs| - 1]), argvs[|argvs| - 1])
  }

  /** `create -exist` is idempotent and keeps the members of an existing set. */
  lemma CreateIdempotent(sets: Sets, name: string)
    ensures name in Run(sets, CreateArgv(name))
    ensures name in sets ==> Run(sets, CreateArgv(name)) == sets
    ensures Run(Run(sets, CreateArgv(name)), CreateArgv(name)) == Run(sets, CreateArgv(name))
  {
  }

  /** `after` is `sets` with the addresses `added` put into set `name`, and nothing else changed. */
  ghost predicate AddedTo(sets: Sets, after: Sets, name: string, added: set<string>)
    requires name in sets
  {
    name in after && after[name] == sets[name] + added &&
    forall other :: other != name ==> (other in after <==> other in sets) &&
                                      (other in sets ==> after[other] == sets[other])
  }

  /** Adding a list of addresses to an existing set adds exactly those addresses and
      touches no other set. */
  lemma {:induction false} AddMembersAdds(sets: Sets, ips: seq<string>, name: string)
    requires name in sets
    ensures AddedTo(sets, RunAll(sets, AddMembersArgvs(ips, name)), name, Lists.Elements(ips))
    decreases |ips|
  {
    if ips == [] {
      assert sets[name] + {} == sets[name];
    } else {
      var front, ip := ips[..|ips| - 1], ips[|ips| - 1];
      AddMembersAdds(sets, front, name);
      AddMembersArgvsSnoc(ips, name);
      var mid := RunAll(sets, AddMembersArgvs(front, name));
      RunAllSnoc(sets, AddMembersArgvs(front, name), AddMemberArgv(ip, name));
      AddOneMember(sets, mid, name, ip, Lists.Elements(front));
    }
  }

  /** The `-A` lines of a list end with the line of its last address. */
  lemma AddMembersArgvsSnoc(ips: seq<string>, name: string)
    requires ips != []
    ensures AddMembersArgvs(ips, name) ==
            AddMembersArgvs(ips[..|ips| - 1], name) + [AddMemberArgv(ips[|ips| - 1], name)]
  {
  }

  lemma RunAllSnoc(sets: Sets, argvs: seq<seq<string>>, last: seq<string>)
    ensures RunAll(sets, argvs + [last]) == Run(RunAll(sets, argvs), last)
  {
    assert (argvs + [last])[..|argvs|] == argvs;
  }

  /** One more `-A` line extends the addresses put into the set by one. */
  lemma AddOneMember(sets: Sets, mid: Sets, name: string, ip: string, added: set<string>)
    requires name in sets && AddedTo(sets, mid, name, added)
    ensures AddedTo(sets, Run(mid, AddMemberArgv(ip, name)), name, added + {ip})
  {
    var argv := AddMemberArgv(ip, name);
    assert argv[..2] == ["ipset", "-A"] && argv[2] == name && argv[3] == ip;
    assert Run(mid, argv) == mid[name := mid[name] + {ip}];
  }

  /** A set created and then filled holds exactly the addresses given. */
  lemma CreateThenAdd(sets: Sets, ips: seq<string>, name: string)
    requires name !in sets
    ensures var after := RunAll(sets, [CreateArgv(name)] + AddMembersArgvs(ips, name));
            name in after && after[name] == Lists.Elements(ips)
  {
    var created := Run(sets, CreateArgv(name));
    AddMembersAdds(created, ips, name);
    RunAllPrefix(sets, CreateArgv(name), AddMembersArgvs(ips, name));
  }

  lemma {:induction false} RunAllPrefix(sets: Sets, first: seq<string>, rest: seq<seq<string>>)
    ensures RunAll(sets, [first] + rest) == RunAll(Run(sets, first), rest)
    decreases |rest|
  {
    if rest != [] {
      var front := rest[..|rest| - 1];
      RunAllPrefix(sets, first, front);
      assert ([first] + rest)[..|rest|] == [first] + front;
    }
  }

  /** Deleting a member removes it and only it. */
  lemma DelRemovesMember(sets: Sets, name: string, ip: string)
    requires name in sets
    ensures var after := Run(sets, DelMemberArgv(name, ip));
            name in after && after[name] == sets[name] - {ip}
  {
    var argv := DelMemberArgv(name, ip);
    assert argv[..2] == ["ipset", "del"];
    assert argv[..2] != ["ipset", "-A"] by { assert argv[1] != "-A"; }
  }

  /** Destroying a set removes it and keeps every other set. */
  lemma DestroyRemovesSet(sets: Sets, name: string)
    ensures var after := Run(sets, DestroyArgv(name));
            name !in after && forall other :: other != name && other in sets ==> other in after && after[other] == sets[other]
  {
    var argv := DestroyArgv(name);
    assert argv[..2] == ["ipset", "destroy"];
    assert argv[..2] != ["ipset", "-F"] by { assert argv[1] != "-F"; }
  }

  // ---------------------------------------------------------------- IpsetManager

  /** `IpsetManager`: ipset commands, run inside `namespace` when it is set. */
  class IpsetManager {
    const name: Option<string>
    const namespace: Option<string>
    const host: Host

    constructor(name: Option<string>, namespace: Option<string>, host: Host)
      ensures this.name == name && this.namespace == namespace && this.host == host
    {
      this.name := name;
      this.namespace := namespace;
      this.host := host;
    }

    /** `_apply(cmd)` */
    method Apply(cmd: seq<string>)
      modifies host
      ensures host.trace == old(host.trace) + [Exec(InNamespace(namespace, cmd))]
    {
      var argv := cmd;
      if Truthy(namespace) {
        argv := ["ip netns exec " + namespace.value] + argv;
      }
      host.Record(Exec(argv));
    }

    /** `create_ipset_chain(name)` */
    method CreateIpsetChain(name: string)
      modifies host
      ensures host.trace == old(host.trace) + [Exec(InNamespace(namespace, CreateArgv(name)))]
    {
      Apply(["ipset", "create", "-exist", name, "hash:net"]);
    }

    /** `destroy_ipset_chain_by_name(name)`, through `_destroy_ipset_chain` */
    method DestroyIpsetChainByName(name: string)
      modifies host
      ensures host.trace == old(host.trace) + [Exec(InNamespace(namespace, DestroyArgv(name)))]
    {
      DestroyIpsetChain(name);
    }

    /** `_destroy_ipset_chain(chain_name)` */
    method DestroyIpsetChain(chainName: string)
      modifies host
      ensures host.trace == old(host.trace) + [Exec(InNamespace(namespace, DestroyArgv(chainName)))]
    {
      Apply(["ipset", "destroy", chainName]);
    }

    /** `add_member_to_ipset_chain(member_ip, name)` */
    method AddMemberToIpsetChain(memberIp: string, name: string)
      modifies host
      ensures host.trace == old(host.trace) + [Exec(InNamespace(namespace, AddMemberArgv(memberIp, name)))]
    {
      Apply(["ipset", "-A", name, memberIp]);
    }

    /** `flush_ipset_china(name)` */
    method FlushIpsetChain(name: string)
      modifies host
      ensures host.trace == old(host.trace) + [Exec(InNamespace(namespace, FlushArgv(name)))]
    {
      Apply(["ipset", "-F", name]);
    }

    /** `del_ipset_chain_member(chain_name, member_ip)` */
    method DelIpsetChainMember(chainName: string, memberIp: string)
      modifies host
      ensures host.trace == old(host.trace) + [Exec(InNamespace(namespace, DelMemberArgv(chainName, memberIp)))]
    {
      Apply(["ipset", "del", chainName, memberIp]);
    }

    /** `_restore_ipset_chains()` */
    method RestoreIpsetChains()
      modifies host
      ensures host.trace == old(host.trace) + [Exec(InNamespace(namespace, RestoreArgv()))]
    {
      Apply(["ipset", "restore", "-exist"]);
    }

    /** `_swap_ipset_chains(src_chain, dest_chain)` */
    method SwapIpsetChains(srcChain: string, destChain: string)
      modifies host
      ensures host.trace == old(host.trace) + [Exec(InNamespace(namespace, SwapArgv(srcChain, destChain)))]
    {
      Apply(["ipset", "swap", srcChain, destChain]);
    }

    /** The commands `add_ip_members` runs, each behind the namespace prefix. */
    function AddMembersActions(ips: seq<string>, name: string): (r: seq<Action>)
      ensures |r| == |ips|
      ensures forall k :: 0 <= k < |ips| ==> r[k] == Exec(InNamespace(namespace, AddMemberArgv(ips[k], name)))
    {
      if ips == [] then [] else AddMembersActions(ips[..|ips| - 1], name) + [Exec(InNamespace(namespace, AddMemberArgv(ips[|ips| - 1], name)))]
    }

    /** The actions for one more address are those for the ones before it and its `-A`. */
    lemma AddMembersSnoc(ips: seq<string>, i: nat, name: string)
      requires i < |ips|
      ensures AddMembersActions(ips[..i + 1], name) ==
                AddMembersActions(ips[..i], name) + [Exec(InNamespace(namespace, AddMemberArgv(ips[i], name)))]
    {
      assert ips[..i + 1][..i] == ips[..i];
    }

    /** `add_ip_members(ips, name)`: one `-A` per address, in order, and True; an empty
        list runs nothing and returns None (after logging). */
    method AddIpMembers(ips: seq<string>, name: string) returns (r: Option<bool>)
      modifies host
      ensures r == if ips != [] then Some(true) else None
      ensures host.trace == old(host.trace) + AddMembersActions(ips, name)
    {
      if ips == [] {
        return None;
      }
      AddEach(ips, name);
      return Some(true);
    }

    /** The loop of `add_ip_members`: `add_member_to_ipset_chain` for each address in turn. */
    method AddEach(ips: seq<string>, name: string)
      modifies host
      ensures host.trace == old(host.trace) + AddMembersActions(ips, name)
    {
      var i := 0;
      while i < |ips|
        invariant i <= |ips|
        invariant host.trace == old(host.trace) + AddMembersActions(ips[..i], name)
      {
        AddMemberToIpsetChain(ips[i], name);
        AddMembersSnoc(ips, i, name);
        Lists.AppendSnoc(old(host.trace), AddMembersActions(ips[..i], name),
                         Exec(InNamespace(namespace, AddMemberArgv(ips[i], name))), AddMembersActions(ips[..i + 1], name));
        i := i + 1;
      }
      assert ips[..i] == ips;
    }
  }

  /** Without a namespace the actions `add_ip_members` records are exactly the `-A`
      command lines, so the reference semantics applies to them directly. */
  lemma AddMembersPlain(m: IpsetManager, ips: seq<string>, name: string)
    requires !Truthy(m.namespace)
    ensures m.AddMembersActions(ips, name) == Lists.Map(AddMembersArgvs(ips, name), (argv: seq<string>) => Exec(argv))
  {
  }
}
