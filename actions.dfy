/**
  What the modelled code does to the host, recorded in order: the command lines it
  hands to `utils.execute`, the `iptables_apply` calls of the iptables managers it
  creates, and the dnsmasq operations of `Dnsmasq_base`. The processes themselves
  are not run; a `Host` only remembers what was asked of it.
 */
module Actions {
  import opened Wrappers
  import opened Text
  import Iptables
  import Dhcp

  datatype Action =
    /** `utils.execute(argv)` */
    | Exec(argv: seq<string>)
    /** `iptables_apply`: save, reconcile `table` with `changes`, restore, inside `namespace` if any. */
    | IptablesApply(namespace: Option<string>, table: string, changes: Iptables.Changes)
    /** `Dnsmasq_base.spawn_process` */
    | DhcpSpawn(server: Dhcp.Dnsmasq)
    /** `Dnsmasq_base.write_host_info(ip, mac)` */
    | DhcpWriteHost(server: Dhcp.Dnsmasq, ip: string, mac: string)
    /** `Dnsmasq_base.reload_process` */
    | DhcpReload(server: Dhcp.Dnsmasq)
    /** `Dnsmasq_base.kill_process` */
    | DhcpKill(server: Dhcp.Dnsmasq)
    /** `Dnsmasq_base.remove_vm_dhcp_file` */
    | DhcpRemoveFiles(server: Dhcp.Dnsmasq)

  /** The shell line `utils.execute` runs: the argv joined by two spaces. */
  function ShellLine(argv: seq<string>): string {
    Join(argv, "  ")
  }

  /** The host the commands run on, as the list of what it has been asked to do. */
  class Host {
    var trace: seq<Action>

    constructor()
      ensures trace == []
    {
      trace := [];
    }

    method Record(a: Action)
      modifies this
      ensures trace == old(trace) + [a]
    {
      trace := trace + [a];
    }

    /** Several actions, first to last. */
    method RecordAll(actions: seq<Action>)
      modifies this
      ensures trace == old(trace) + actions
    {
      trace := trace + actions;
    }
  }
}
