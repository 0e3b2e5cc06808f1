/**
  linuxbridge.py: `LinuxBridgeManager`, the `brctl` commands for one Linux bridge.
  Only the command lines are modelled; what they do to the host is `Net.Effect`'s
  business.
 */
module LinuxBridge {
  /** `LinuxBridgeManager(brname)` */
  datatype LinuxBridgeManager = LinuxBridgeManager(name: string)

  /** `create_br()` */
  function CreateBrArgv(br: LinuxBridgeManager): seq<string> {
    ["brctl", "addbr", br.name]
  }

  /** `remove_br()` */
  function RemoveBrArgv(br: LinuxBridgeManager): seq<string> {
    ["brctl", "delbr", br.name]
  }

  /** `add_port(port)` */
  function AddPortArgv(br: LinuxBridgeManager, port: string): seq<string> {
    ["brctl", "addif", br.name, port]
  }

  /** `remove_port(port)` */
  function RemovePortArgv(br: LinuxBridgeManager, port: string): seq<string> {
    ["brctl", "delif", br.name, port]
  }
}
