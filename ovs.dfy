/**
  ovs_lib.py: the `ovs-vsctl` and `ovs-ofctl` command lines `BaseOVS` builds, the
  OpenFlow match/action text `_build_flow_expr_str` renders from a keyword dictionary,
  and the parsers it applies to what those tools print. A command's exit status and
  output are parameters; running it is outside the model.
 */
module Ovs {
  import opened Wrappers
  import opened Text
  import opened Lists
  import opened Config

  /** The port number reported when the database value is not an integer. */
  const InvalidOfport := "-1"

  /** Where the Python code raises instead of returning. */
  datatype OvsError =
    | UnboundOption     // `do_action_flows` with an action other than add, mod or del
    | FlowNotText       // a flow without actions renders as False, which `' '.join` rejects
    | ResultNotPair     // `run_ofctl` returned False, which cannot be unpacked

  /** `BaseOVS(br_name)`: the bridge every port and flow command names. */
  datatype BaseOvs = BaseOvs(brName: string)

  /** `run_vsctl(args)`: the timeout option, then the arguments. */
  function VsctlArgv(args: seq<string>): (argv: seq<string>)
    ensures |argv| == |args| + 2 && argv[2..] == args
  {
    ["ovs-vsctl", "--timeout=" + NatToString(OvsVsctlTimeout)] + args
  }

  /** `run_ofctl(cmd, args)`: the command, the bridge, then the arguments. */
  function OfctlArgv(ovs: BaseOvs, cmd: string, args: seq<string>): (argv: seq<string>)
    ensures |argv| == |args| + 3 && argv[3..] == args
    ensures argv[0] == "ovs-ofctl" && argv[1] == cmd && argv[2] == ovs.brName
  {
    ["ovs-ofctl", cmd, ovs.brName] + args
  }

  // ---------------------------------------------------------------- ports

  /** `add_port(port_name)` */
  function AddPortArgv(ovs: BaseOvs, port: string): seq<string> {
    VsctlArgv(["--", "--may-exist", "add-port", ovs.brName, port])
  }

  /** `delete_port(port_name)` */
  function DeletePortArgv(ovs: BaseOvs, port: string): seq<string> {
    VsctlArgv(["--", "--if-exists", "del-port", ovs.brName, port])
  }

  /** `set_port_tag(vlan_tag, port)` */
  function SetPortTagArgv(vlan: int, port: string): seq<string> {
    VsctlArgv(["set", "port", port, "tag=" + IntToString(vlan)])
  }

  /** A VLAN argument: None or an integer. Only a non-zero integer is truthy. */
  predicate Tagged(vlan: Option<int>) {
    vlan.Some? && vlan.value != 0
  }

  /** The internal-port command without its tag. */
  function InternalPortArgs(ovs: BaseOvs, port: string): seq<string> {
    ["add-port", ovs.brName, port, "--", "set", "interface", port, "type=internal"]
  }

  /** `add_port_internal(port, vlan)`: `tag=<vlan>` goes in at index 3 of the command,
      and only when the VLAN is truthy; nothing else differs. */
  function AddPortInternalArgv(ovs: BaseOvs, port: string, vlan: Option<int>): (argv: seq<string>)
    ensures !Tagged(vlan) ==> argv == VsctlArgv(InternalPortArgs(ovs, port))
    ensures Tagged(vlan) ==>
              |argv| == 11 && argv[5] == "tag=" + IntToString(vlan.value) &&
              argv[..5] + argv[6..] == VsctlArgv(InternalPortArgs(ovs, port))
  {
    var cmd := InternalPortArgs(ovs, port);
    if Tagged(vlan) then
      var tagged := cmd[..3] + ["tag=" + IntToString(vlan.value)] + cmd[3..];
      assert VsctlArgv(tagged)[..5] + VsctlArgv(tagged)[6..] == VsctlArgv(cmd);
      VsctlArgv(tagged)
    else VsctlArgv(cmd)
  }

  /** `bridge_exists(bridge_name)`: the command, and whether its exit status says yes. */
  function BridgeExists(bridgeName: string, status: int): (r: (seq<string>, bool))
    ensures r.0 == VsctlArgv(["br-exists", bridgeName])
    ensures r.1 <==> status == 0
  {
    (VsctlArgv(["br-exists", bridgeName]), status == 0)
  }

  // ---------------------------------------------------------------- flow dictionaries

  /** A dictionary entry; a dictionary is its entries in iteration order. */
  type Entry = (string, string)

  /** `d.get(key)`: the first entry with that key. */
  function Lookup(m: seq<Entry>, key: string): (r: Option<string>)
    ensures r.None? <==> forall k :: 0 <= k < |m| ==> m[k].0 != key
    ensures r.Some? ==> exists k :: 0 <= k < |m| && m[k] == (key, r.value)
  {
    if m == [] then None
    else if m[0].0 == key then Some(m[0].1)
    else
      var r := Lookup(m[1..], key);
      assert r.Some? ==> exists k :: 0 <= k < |m[1..]| && m[1..][k] == (key, r.value);
      r
  }

  /** `d.get(key, default)` */
  function GetOr(m: seq<Entry>, key: string, default: string): string {
    match Lookup(m, key)
    case Some(v) => v
    case None => default
  }

  function KeyOutside(keys: set<string>): Entry -> bool {
    (e: Entry) => e.0 !in keys
  }

  /** The dictionary after every key of `keys` has been popped. */
  function Keep(m: seq<Entry>, keys: set<string>): seq<Entry> {
    Filter(m, KeyOutside(keys))
  }

  /** Popping one key does not change what the other keys look up. */
  lemma {:induction false} LookupKeep(m: seq<Entry>, keys: set<string>, key: string)
    requires key !in keys
    ensures Lookup(Keep(m, keys), key) == Lookup(m, key)
  {
    if m != [] {
      LookupKeep(m[1..], keys, key);
    }
  }

  /** Popping two sets of keys one after the other pops their union. */
  lemma KeepKeep(m: seq<Entry>, a: set<string>, b: set<string>)
    ensures Keep(Keep(m, a), b) == Keep(m, a + b)
  {
    FilterCompose(m, KeyOutside(a), KeyOutside(b), KeyOutside(a + b));
  }

  /** Popping an absent key changes nothing. */
  lemma KeepAbsent(m: seq<Entry>, keys: set<string>, key: string)
    requires key !in keys && Lookup(m, key).None?
    ensures Keep(m, keys + {key}) == Keep(m, keys)
  {
    LookupKeep(m, keys, key);
    KeepKeep(m, keys, {key});
    FilterKeepsAll(Keep(m, keys), KeyOutside({key}));
  }

  /** Every entry of a dictionary after some keys were popped is one of its entries with
      a key outside them, and every such entry is still there. */
  lemma KeepMembers(m: seq<Entry>, keys: set<string>)
    ensures forall e :: e in Keep(m, keys) <==> e in m && e.0 !in keys
  {
    FilterMembers(m, KeyOutside(keys));
  }

  /** The keyword dictionary a caller hands to `_build_flow_expr_str`, which pops from it. */
  class FlowDict {
    var items: seq<Entry>

    constructor (items: seq<Entry>)
      ensures this.items == items
    {
      this.items := items;
    }

    /** `key in d` */
    predicate Has(key: string)
      reads this
    {
      Lookup(items, key).Some?
    }

    /** `d.pop(key, default)` */
    method Pop(key: string, default: string) returns (v: string)
      modifies this
      ensures v == GetOr(old(items), key, default)
      ensures items == Keep(old(items), {key})
    {
      v := GetOr(items, key, default);
      items := Keep(items, {key});
    }
  }

  /** The keys `_build_flow_expr_str` pops before it renders the rest. */
  function ConsumedKeys(cmd: string): set<string> {
    if cmd == "add" then {"hard_timeout", "idle_timeout", "priority", "actions"}
    else if cmd == "del" then {"actions", "priority"}
    else {"actions"}
  }

  /** One remaining entry: `proto` stands for itself, every other key is `key=value`. */
  function RenderField(e: Entry): string {
    if e.0 == "proto" then e.1 else e.0 + "=" + e.1
  }

  /** The leading fields of an `add`: both timeouts (default 0), then the priority if given. */
  function FlowHead(m: seq<Entry>, cmd: string): seq<string> {
    if cmd == "add" then
      ["hard_timeout=" + GetOr(m, "hard_timeout", "0"), "idle_timeout=" + GetOr(m, "idle_timeout", "0")] +
      (if Lookup(m, "priority").Some? then ["priority=" + Lookup(m, "priority").value] else [])
    else []
  }

  /** The fields `_build_flow_expr_str(m, cmd)` joins with commas; None where it returns
      False, which is exactly when an add or mod has no actions. */
  function FlowFields(m: seq<Entry>, cmd: string): (r: Option<seq<string>>)
    ensures r.None? <==> cmd != "del" && forall k :: 0 <= k < |m| ==> m[k].0 != "actions"
  {
    if cmd != "del" && Lookup(m, "actions").None? then None
    else
      Some(FlowHead(m, cmd) + Map(Keep(m, ConsumedKeys(cmd)), RenderField) +
           (if cmd != "del" then ["actions=" + Lookup(m, "actions").value] else []))
  }

  /** `_build_flow_expr_str(m, cmd)` */
  function FlowExpr(m: seq<Entry>, cmd: string): Option<string> {
    match FlowFields(m, cmd)
    case Some(fields) => Some(Join(fields, ","))
    case None => None
  }

  /** What remains in the caller's dictionary afterwards. An add without actions has
      already lost its timeouts and priority when it gives up. */
  function FlowLeft(m: seq<Entry>, cmd: string): seq<Entry> {
    if cmd != "del" && Lookup(m, "actions").None? then
      (if cmd == "add" then Keep(m, {"hard_timeout", "idle_timeout", "priority"}) else m)
    else Keep(m, ConsumedKeys(cmd))
  }

  /** `_build_flow_expr_str(flow_dict, cmd)`, popping from the caller's dictionary as it goes. */
  method BuildFlowExprStr(flow: FlowDict, cmd: string) returns (r: Option<string>)
    modifies flow
    ensures r == FlowExpr(old(flow.items), cmd)
    ensures flow.items == FlowLeft(old(flow.items), cmd)
  {
    ghost var m := flow.items;
    var head: seq<string> := [];
    if cmd == "add" {
      head := PopTimeouts(flow);
    } else {
      FilterKeepsAll(m, KeyOutside({}));
    }
    ghost var popped := if cmd == "add" then {"hard_timeout", "idle_timeout", "priority"} else {};
    assert flow.items == Keep(m, popped);
    var actions: Option<string> := None;
    if cmd != "del" {
      LookupKeep(m, popped, "actions");
      if !flow.Has("actions") {
        assert Lookup(m, "actions").None?;
        return None;
      }
      var a := flow.Pop("actions", "");
      actions := Some("actions=" + a);
      KeepKeep(m, popped, {"actions"});
      assert popped + {"actions"} == ConsumedKeys(cmd);
    } else {
      var _ := flow.Pop("actions", "");
      var _ := flow.Pop("priority", "");
      KeepKeep(m, {}, {"actions"});
      KeepKeep(m, {"actions"}, {"priority"});
      assert {} + {"actions"} == {"actions"};
      assert {"actions"} + {"priority"} == ConsumedKeys(cmd);
    }
    var rest := RenderFields(flow.items);
    assert rest == Map(Keep(m, ConsumedKeys(cmd)), RenderField);
    var arr := head + rest;
    if actions.Some? {
      arr := arr + [actions.value];
    }
    assert head == FlowHead(m, cmd);
    assert arr == FlowFields(m, cmd).value;
    r := Some(Join(arr, ","));
  }

  /** The `add` prologue: pop both timeouts and, when present, the priority. */
  method PopTimeouts(flow: FlowDict) returns (head: seq<string>)
    modifies flow
    ensures head == FlowHead(old(flow.items), "add")
    ensures flow.items == Keep(old(flow.items), {"hard_timeout", "idle_timeout", "priority"})
  {
    ghost var m := flow.items;
    var hard := flow.Pop("hard_timeout", "0");
    LookupKeep(m, {"hard_timeout"}, "idle_timeout");
    var idle := flow.Pop("idle_timeout", "0");
    head := ["hard_timeout=" + hard, "idle_timeout=" + idle];
    KeepKeep(m, {"hard_timeout"}, {"idle_timeout"});
    assert {"hard_timeout"} + {"idle_timeout"} == {"hard_timeout", "idle_timeout"};
    LookupKeep(m, {"hard_timeout", "idle_timeout"}, "priority");
    if flow.Has("priority") {
      var priority := flow.Pop("priority", "");
      head := head + ["priority=" + priority];
      KeepKeep(m, {"hard_timeout", "idle_timeout"}, {"priority"});
    } else {
      KeepAbsent(m, {"hard_timeout", "idle_timeout"}, "priority");
    }
    assert {"hard_timeout", "idle_timeout"} + {"priority"} == {"hard_timeout", "idle_timeout", "priority"};
  }

  /** The `iteritems` loop: every entry still in the dictionary, rendered, in order. */
  method RenderFields(entries: seq<Entry>) returns (fields: seq<string>)
    ensures |fields| == |entries|
    ensures forall k :: 0 <= k < |entries| ==> fields[k] == RenderField(entries[k])
  {
    fields := [];
    var i := 0;
    while i < |entries|
      invariant i <= |entries| && |fields| == i
      invariant forall k :: 0 <= k < i ==> fields[k] == RenderField(entries[k])
    {
      fields := fields + [RenderField(entries[i])];
      i := i + 1;
    }
  }

  /** Neither a key nor a value holds a comma, so no rendered field does. */
  predicate CommaFree(m: seq<Entry>) {
    forall k :: 0 <= k < |m| ==> ',' !in m[k].0 && ',' !in m[k].1
  }

  /** The text `_build_flow_expr_str` returns splits on commas back into its fields;
      a delete whose every key was popped renders as the empty text. */
  lemma FlowExprFields(m: seq<Entry>, cmd: string)
    requires CommaFree(m)
    requires FlowFields(m, cmd).Some?
    ensures FlowExpr(m, cmd).Some?
    ensures FlowFields(m, cmd).value == [] ==> FlowExpr(m, cmd).value == ""
    ensures FlowFields(m, cmd).value != [] ==>
              Split(FlowExpr(m, cmd).value, ",") == FlowFields(m, cmd).value
  {
    var fields := FlowFields(m, cmd).value;
    if fields != [] {
      FieldsCommaFree(m, cmd);
      SplitJoin(fields, ",");
    }
  }

  predicate NoComma(fields: seq<string>) {
    forall k :: 0 <= k < |fields| ==> ',' !in fields[k]
  }

  lemma FieldsCommaFree(m: seq<Entry>, cmd: string)
    requires CommaFree(m)
    requires FlowFields(m, cmd).Some?
    ensures NoComma(FlowFields(m, cmd).value)
  {
    HeadCommaFree(m, cmd);
    RestCommaFree(m, ConsumedKeys(cmd));
    LookupCommaFree(m, "actions");
    var head := FlowHead(m, cmd);
    var rest := Map(Keep(m, ConsumedKeys(cmd)), RenderField);
    var tail := if cmd != "del" then ["actions=" + Lookup(m, "actions").value] else [];
    assert NoComma(tail);
    assert FlowFields(m, cmd).value == head + rest + tail;
  }

  lemma HeadCommaFree(m: seq<Entry>, cmd: string)
    requires CommaFree(m)
    ensures NoComma(FlowHead(m, cmd))
  {
    if cmd == "add" {
      PrefixedCommaFree("hard_timeout=", m, "hard_timeout", "0");
      PrefixedCommaFree("idle_timeout=", m, "idle_timeout", "0");
      var timeouts := ["hard_timeout=" + GetOr(m, "hard_timeout", "0"), "idle_timeout=" + GetOr(m, "idle_timeout", "0")];
      assert NoComma(timeouts);
      var priority := Lookup(m, "priority");
      if priority.Some? {
        LookupCommaFree(m, "priority");
        LabelCommaFree("priority=", priority.value);
        NoCommaSnoc(timeouts, "priority=" + priority.value);
      } else {
        assert timeouts + [] == timeouts;
      }
    }
  }

  /** A field `<label><value>` with the looked-up or default value holds no comma. */
  lemma PrefixedCommaFree(tag: string, m: seq<Entry>, key: string, default: string)
    requires CommaFree(m) && ',' !in tag && ',' !in default
    ensures ',' !in tag + GetOr(m, key, default)
  {
    LookupCommaFree(m, key);
    LabelCommaFree(tag, GetOr(m, key, default));
  }

  lemma LabelCommaFree(tag: string, value: string)
    requires ',' !in tag && ',' !in value
    ensures ',' !in tag + value
  {
  }

  lemma NoCommaSnoc(fields: seq<string>, last: string)
    requires NoComma(fields) && ',' !in last
    ensures NoComma(fields + [last])
  {
  }

  lemma RestCommaFree(m: seq<Entry>, keys: set<string>)
    requires CommaFree(m)
    ensures NoComma(Map(Keep(m, keys), RenderField))
  {
    var rest := Keep(m, keys);
    KeepMembers(m, keys);
    forall k | 0 <= k < |rest|
      ensures ',' !in RenderField(rest[k])
    {
      assert rest[k] in m;
      var j :| 0 <= j < |m| && m[j] == rest[k];
    }
  }

  lemma LookupCommaFree(m: seq<Entry>, key: string)
    requires CommaFree(m)
    ensures Lookup(m, key).Some? ==> ',' !in Lookup(m, key).value
  {
    var v := Lookup(m, key);
    if v.Some? {
      var k :| 0 <= k < |m| && m[k] == (key, v.value);
    }
  }

  // ---------------------------------------------------------------- flow layout

  /** An add starts with both timeouts, defaulting to 0, and ends with its actions. */
  lemma AddFlowText(m: seq<Entry>)
    requires Lookup(m, "actions").Some?
    ensures FlowExpr(m, "add").Some?
    ensures StartsWith(FlowExpr(m, "add").value,
                       ("hard_timeout=" + GetOr(m, "hard_timeout", "0")) + "," + ("idle_timeout=" + GetOr(m, "idle_timeout", "0")))
    ensures EndsWith(FlowExpr(m, "add").value, "," + ("actions=" + Lookup(m, "actions").value))
  {
    var fields := FlowFields(m, "add").value;
    var head := FlowHead(m, "add");
    var last := "actions=" + Lookup(m, "actions").value;
    assert fields == head + Map(Keep(m, ConsumedKeys("add")), RenderField) + [last];
    assert fields[0] == head[0] && fields[1] == head[1] && fields[|fields| - 1] == last;
    JoinFirstTwo(fields, ",");
    JoinEndsWith(fields, ",");
  }

  /** With a priority, an add's third field is that priority. */
  lemma AddFlowPriority(m: seq<Entry>)
    requires Lookup(m, "actions").Some? && Lookup(m, "priority").Some?
    ensures FlowFields(m, "add").Some?
    ensures FlowFields(m, "add").value[2] == "priority=" + Lookup(m, "priority").value
  {
  }

  /** A mod ends with its actions, preceded by a comma when other fields exist. */
  lemma ModFlowText(m: seq<Entry>)
    requires Lookup(m, "actions").Some?
    ensures FlowExpr(m, "mod").Some?
    ensures EndsWith(FlowExpr(m, "mod").value, "actions=" + Lookup(m, "actions").value)
  {
    var fields := FlowFields(m, "mod").value;
    if |fields| >= 2 {
      JoinLast(fields, ",");
    }
  }

  /** Every entry whose key is not popped is rendered into the flow. */
  lemma FlowRendersRest(m: seq<Entry>, cmd: string, e: Entry)
    requires FlowFields(m, cmd).Some?
    requires e in m && e.0 !in ConsumedKeys(cmd)
    ensures RenderField(e) in FlowFields(m, cmd).value
  {
    var rest := Keep(m, ConsumedKeys(cmd));
    KeepMembers(m, ConsumedKeys(cmd));
    var k :| 0 <= k < |rest| && rest[k] == e;
    var fields := FlowFields(m, cmd).value;
    var head := FlowHead(m, cmd);
    assert fields[|head| + k] == Map(rest, RenderField)[k];
  }

  /** A delete renders nothing but the entries other than actions and priority. */
  lemma DelFlowFields(m: seq<Entry>)
    ensures FlowFields(m, "del").Some?
    ensures forall k :: 0 <= k < |FlowFields(m, "del").value| ==>
              exists e :: e in m && e.0 != "actions" && e.0 != "priority" &&
                          FlowFields(m, "del").value[k] == RenderField(e)
  {
    var rest := Keep(m, ConsumedKeys("del"));
    KeepMembers(m, ConsumedKeys("del"));
    var fields := FlowFields(m, "del").value;
    assert fields == Map(rest, RenderField);
    forall k | 0 <= k < |fields|
      ensures exists e :: e in m && e.0 != "actions" && e.0 != "priority" && fields[k] == RenderField(e)
    {
      assert rest[k] in rest;
    }
  }

  // ---------------------------------------------------------------- do_action_flows

  /** The `ovs-ofctl` subcommand for an action, None for an action that leaves it unbound. */
  function FlowOption(action: string): (r: Option<string>)
    ensures r.None? <==> action != "add" && action != "mod" && action != "del"
    ensures action == "add" ==> r == Some("add-flow")
    ensures action == "mod" ==> r == Some("mod-flow")
    ensures action == "del" ==> r == Some("--strict del-flows")
  {
    assert "add" + "-flow" == "add-flow" && "mod" + "-flow" == "mod-flow";
    assert "--strict " + "del" + "-flows" == "--strict del-flows";
    if action == "add" || action == "mod" then Some(action + "-flow")
    else if action == "del" then Some("--strict " + action + "-flows")
    else None
  }

  /** The rendered flows, or None when one of them rendered as False. */
  function RenderAll(flows: seq<seq<Entry>>, action: string): (r: Option<seq<string>>)
    ensures r.Some? <==> forall k :: 0 <= k < |flows| ==> FlowExpr(flows[k], action).Some?
    ensures r.Some? ==> |r.value| == |flows|
    ensures r.Some? ==> forall k :: 0 <= k < |flows| ==> r.value[k] == FlowExpr(flows[k], action).value
  {
    if flows == [] then Some([])
    else
      match (FlowExpr(flows[0], action), RenderAll(flows[1..], action))
      case (Some(f), Some(rest)) => Some([f] + rest)
      case _ => None
  }

  /** `do_action_flows(action, kwargs_list)`: one `ovs-ofctl` call carrying every flow.
      An unknown action fails before any flow is looked at by the tool; a flow without
      actions makes the command line unjoinable. */
  function DoActionFlows(ovs: BaseOvs, action: string, flows: seq<seq<Entry>>): (r: Result<seq<string>, OvsError>)
    ensures action != "add" && action != "mod" && action != "del" ==> r == Failure(UnboundOption)
    ensures r.Success? <==>
              (action == "add" || action == "mod" || action == "del") &&
              forall k :: 0 <= k < |flows| ==> FlowExpr(flows[k], action).Some?
    ensures r.Success? ==> |r.value| == |flows| + 3 && r.value[0] == "ovs-ofctl" && r.value[2] == ovs.brName
    ensures r.Success? && action == "add" ==> r.value[1] == "add-flow"
    ensures r.Success? && action == "mod" ==> r.value[1] == "mod-flow"
    ensures r.Success? && action == "del" ==> r.value[1] == "--strict del-flows"
    ensures r.Success? ==> forall k :: 0 <= k < |flows| ==> r.value[3 + k] == FlowExpr(flows[k], action).value
  {
    var strs := RenderAll(flows, action);
    match FlowOption(action)
    case None => Failure(UnboundOption)
    case Some(option) =>
      if strs.None? then Failure(FlowNotText) else Success(OfctlArgv(ovs, option, strs.value))
  }

  // ---------------------------------------------------------------- database values

  /** `db_get_val`: the output without trailing newlines, or None when the command failed. */
  function DbGetVal(status: int, output: string): (r: Option<string>)
    ensures r.None? <==> status != 0
    ensures r.Some? ==> StartsWith(output, r.value)
    ensures r.Some? ==> (r.value == "" || (r.value[|r.value| - 1] != '\n' && r.value[|r.value| - 1] != '\r'))
  {
    if status != 0 then None else Some(TrimRight(output, {'\n', '\r'}))
  }

  /** `get_port_ofport`: the database value itself when `int()` accepts it, otherwise the
      invalid port "-1"; either way, text `int()` accepts. */
  function GetPortOfport(val: Option<string>): (r: string)
    ensures ParseInt(r).Some?
    ensures val.Some? && ParseInt(val.value).Some? ==> r == val.value
    ensures val.None? || ParseInt(val.value).None? ==> r == InvalidOfport
  {
    if val.Some? && ParseInt(val.value).Some? then val.value
    else
      assert IntToString(-1) == InvalidOfport;
      IntToStringParses(-1);
      InvalidOfport
  }

  /** A port number printed by the database comes back unchanged. */
  lemma OfportRoundTrip(n: int)
    ensures GetPortOfport(DbGetVal(0, IntToString(n) + "\n")) == IntToString(n)
  {
    var t := IntToString(n);
    assert (t + "\n")[..|t + "\n"| - 1] == t;
    assert TrimRight(t + "\n", {'\n', '\r'}) == t;
    IntToStringParses(n);
  }

  /** The empty-set text the database prints for a port without a number is invalid. */
  lemma UnsetOfportInvalid()
    ensures GetPortOfport(DbGetVal(0, "[]\n")) == InvalidOfport
  {
    assert TrimRight("[]\n", {'\n', '\r'}) == "[]";
    assert ParseInt("[]").None? by {
      StripKeeps("[]");
      assert !IsDigit("[]"[0]);
    }
  }

  /** `count_flows()` given the exit status and output of `ovs-ofctl dump-flows`: the number
      of newlines minus one. A failed command leaves `run_ofctl` returning False, which the
      unpacking rejects, so the status check after it is never reached. */
  function CountFlows(status: int, output: string): (r: Result<int, OvsError>)
    ensures r.Success? <==> status == 0
    ensures r.Success? ==> r.value == Count(output, '\n') - 1
  {
    if status != 0 then Failure(ResultNotPair)
    else
      SplitCharCount(output, '\n');
      Success(|Split(output, "\n")[1..]| - 1)
  }

  /** As written, a header line followed by one line per flow counts one less than the
      flows (`commands.getstatusoutput` has already dropped the trailing newline). */
  lemma CountFlowsListing(header: string, flows: seq<string>)
    requires '\n' !in header
    requires forall k :: 0 <= k < |flows| ==> '\n' !in flows[k]
    ensures CountFlows(0, Join([header] + flows, "\n")) == Success(|flows| - 1)
  {
    ListingSplits(header, flows);
  }

  /** `count_flows()` as evidently intended: every line after the header of `dump-flows`
      is one flow, so the count is the number of newlines. A failed command still fails
      the unpacking, as written. */
  function CountFlowsIntended(status: int, output: string): (r: Result<int, OvsError>)
    ensures r.Success? <==> status == 0
    ensures r.Success? ==> r.value == Count(output, '\n')
  {
    if status != 0 then Failure(ResultNotPair)
    else
      SplitCharCount(output, '\n');
      Success(|Split(output, "\n")[1..]|)
  }

  /** With the correction, a header line followed by one line per flow counts the flows. */
  lemma CountFlowsIntendedListing(header: string, flows: seq<string>)
    requires '\n' !in header
    requires forall k :: 0 <= k < |flows| ==> '\n' !in flows[k]
    ensures CountFlowsIntended(0, Join([header] + flows, "\n")) == Success(|flows|)
  {
    ListingSplits(header, flows);
  }

  /** A header line and flow lines joined by newlines split back into those lines. */
  lemma ListingSplits(header: string, flows: seq<string>)
    requires '\n' !in header
    requires forall k :: 0 <= k < |flows| ==> '\n' !in flows[k]
    ensures Split(Join([header] + flows, "\n"), "\n") == [header] + flows
  {
    var lines := [header] + flows;
    assert forall k :: 0 <= k < |lines| ==> '\n' !in lines[k] by {
      forall k | 0 <= k < |lines|
        ensures '\n' !in lines[k]
      {
        if k > 0 {
          assert lines[k] == flows[k - 1];
        }
      }
    }
    SplitJoin(lines, "\n");
  }

  // ---------------------------------------------------------------- db_str_to_map

  /** The characters `db_str_to_map` strips from both ends of the whole text. */
  const Braces: set<char> := {'{', '}'}

  /** `full_str.strip("{}").split(", ")`: the items of a database map. */
  function DbItems(fullStr: string): (items: seq<string>)
    ensures |items| >= 1
  {
    Split(Trim(fullStr, Braces), ", ")
  }

  /** `e.split("=")[0]` */
  function ItemKey(e: string): string {
    Split(e, "=")[0]
  }

  /** `e.split("=")[1].strip('"')`, for an item holding an equals sign. */
  function ItemValue(e: string): string
    requires '=' in e
  {
    SplitAtLeastTwo(e, '=');
    Trim(Split(e, "=")[1], {'\"'})
  }

  /** The items that set `key`. */
  function SetsKey(key: string): string -> bool {
    e => '=' in e && ItemKey(e) == key
  }

  /** One pass of the loop: an item with an equals sign sets its key. */
  function AddItem(m: map<string, string>, e: string): map<string, string> {
    if '=' in e then m[ItemKey(e) := ItemValue(e)] else m
  }

  /** The dictionary the loop of `db_str_to_map` builds from its items, a later item
      overwriting an earlier one with the same key. */
  function ItemsMap(items: seq<string>): map<string, string>
    decreases |items|
  {
    if items == [] then map[] else AddItem(ItemsMap(items[..|items| - 1]), items[|items| - 1])
  }

  lemma ItemsMapStep(items: seq<string>, i: nat)
    requires i < |items|
    ensures ItemsMap(items[..i + 1]) == AddItem(ItemsMap(items[..i]), items[i])
  {
    assert items[..i + 1][..i] == items[..i];
  }

  /** The pieces the loop body splits an item into name its key and its value. */
  lemma ItemParts(e: string, arr: seq<string>)
    requires '=' in e && arr == Split(e, "=")
    ensures |arr| >= 2 && arr[0] == ItemKey(e) && Trim(arr[1], {'\"'}) == ItemValue(e)
  {
    SplitAtLeastTwo(e, '=');
  }

  /** `db_str_to_map(full_str)`: strip the braces, split into items, then the loop. */
  method DbStrToMap(fullStr: string) returns (ret: map<string, string>)
    ensures ret == ItemsMap(DbItems(fullStr))
  {
    var items := DbItems(fullStr);
    ret := ItemsToMap(items);
  }

  /** The loop of `db_str_to_map`: each item with an equals sign sets the text before its
      first equals sign to the text after it, quotes stripped; others are skipped. */
  method ItemsToMap(items: seq<string>) returns (ret: map<string, string>)
    ensures ret == ItemsMap(items)
  {
    ret := map[];
    var i := 0;
    while i < |items|
      invariant i <= |items|
      invariant ret == ItemsMap(items[..i])
    {
      ItemsMapStep(items, i);
      var e := items[i];
      if '=' in e {
        var arr := Split(e, "=");
        ItemParts(e, arr);
        ret := ret[arr[0] := Trim(arr[1], {'\"'})];
      }
      i := i + 1;
    }
    assert items[..i] == items;
  }

  /** A key is in the map exactly when some item with an equals sign names it, and its
      value comes from the last such item. */
  lemma {:induction false} ItemsMapSpec(items: seq<string>, key: string)
    ensures key in ItemsMap(items) <==> LastWhere(items, SetsKey(key)).Some?
    ensures key in ItemsMap(items) ==>
              ItemsMap(items)[key] == ItemValue(items[LastWhere(items, SetsKey(key)).value])
    decreases |items|
  {
    if items != [] {
      var front := items[..|items| - 1];
      ItemsMapSpec(front, key);
      assert forall k :: 0 <= k < |front| ==> front[k] == items[k];
    }
  }

  // The round trip: what the database prints for a map of plain keys and values.

  /** No character the map syntax uses. */
  predicate Plain(s: string) {
    ',' !in s && '=' !in s && '\"' !in s && '{' !in s && '}' !in s
  }

  /** One `key="value"` item. */
  function DbItem(e: Entry): string {
    e.0 + "=" + ("\"" + e.1 + "\"")
  }

  /** `{k1="v1", k2="v2"}` */
  function FormatDbMap(pairs: seq<Entry>): string {
    "{" + Join(Map(pairs, DbItem), ", ") + "}"
  }

  /** `dict(pairs)`: a later pair overwrites an earlier one with the same key. */
  function PairsMap(pairs: seq<Entry>): map<string, string>
    decreases |pairs|
  {
    if pairs == [] then map[]
    else
      var last := pairs[|pairs| - 1];
      PairsMap(pairs[..|pairs| - 1])[last.0 := last.1]
  }

  /** A map of plain keys and values, printed the database's way, parses back to itself. */
  lemma DbMapRoundTrip(pairs: seq<Entry>)
    requires forall k :: 0 <= k < |pairs| ==> Plain(pairs[k].0) && Plain(pairs[k].1)
    ensures ItemsMap(DbItems(FormatDbMap(pairs))) == PairsMap(pairs)
  {
    var items := Map(pairs, DbItem);
    if pairs == [] {
      assert FormatDbMap(pairs) == "{}";
      EmptyDbMap();
    } else {
      RoundTripItems(pairs, items, Join(items, ", "));
    }
  }

  /** The empty map prints as `{}`, which parses to no entries. */
  lemma EmptyDbMap()
    ensures ItemsMap(DbItems("{}")) == map[]
  {
    TrimWrapped("", '{', '}', Braces);
    assert ['{'] + "" + ['}'] == "{}";
    SplitNone("", ", ");
    assert ItemsMap([""]) == AddItem(ItemsMap([]), "");
  }

  lemma RoundTripItems(pairs: seq<Entry>, items: seq<string>, inner: string)
    requires pairs != [] && items == Map(pairs, DbItem) && inner == Join(items, ", ")
    requires forall k :: 0 <= k < |pairs| ==> Plain(pairs[k].0) && Plain(pairs[k].1)
    ensures ItemsMap(DbItems(FormatDbMap(pairs))) == PairsMap(pairs)
  {
    forall k | 0 <= k < |items|
      ensures ',' !in items[k]
    {
      DbItemChars(pairs[k]);
    }
    JoinEnds(pairs, items, inner);
    TrimWrapped(inner, '{', '}', Braces);
    assert FormatDbMap(pairs) == ['{'] + inner + ['}'];
    SplitJoin(items, ", ");
    ItemsMapPairs(pairs);
  }

  /** The printed items neither start nor end with a brace. */
  lemma JoinEnds(pairs: seq<Entry>, items: seq<string>, inner: string)
    requires pairs != [] && items == Map(pairs, DbItem) && inner == Join(items, ", ")
    requires forall k :: 0 <= k < |pairs| ==> Plain(pairs[k].0) && Plain(pairs[k].1)
    ensures inner != "" && inner[0] !in Braces && inner[|inner| - 1] == '\"'
  {
    var n := |items|;
    DbItemChars(pairs[0]);
    DbItemChars(pairs[n - 1]);
    assert items[0] == DbItem(pairs[0]) && items[0] != "" && items[0][0] !in Braces;
    assert items[n - 1] == DbItem(pairs[n - 1]) && items[n - 1] != "";
    assert items[n - 1][|items[n - 1]| - 1] == '\"';
    JoinFirstChar(items, ", ");
    JoinLastChar(items, ", ");
  }

  /** A printed item holds an equals sign and no comma, starts with the key's first
      character or the equals sign, ends with a quote, and splits back into its key and value. */
  lemma DbItemParts(e: Entry)
    requires Plain(e.0) && Plain(e.1)
    ensures var item := DbItem(e);
            '=' in item && ',' !in item && item[0] !in Braces && item[|item| - 1] == '\"' &&
            ItemKey(item) == e.0 && ItemValue(item) == e.1
  {
    DbItemChars(e);
    DbItemSplit(e);
  }

  lemma DbItemChars(e: Entry)
    requires Plain(e.0) && Plain(e.1)
    ensures var item := DbItem(e);
            '=' in item && ',' !in item && item[0] !in Braces && item[|item| - 1] == '\"'
  {
    var quoted := "\"" + e.1 + "\"";
    assert ',' !in quoted;
    assert DbItem(e)[|e.0|] == '=';
    if e.0 != "" {
      assert DbItem(e)[0] == e.0[0] && e.0[0] in e.0;
    }
  }

  lemma DbItemSplit(e: Entry)
    requires Plain(e.0) && Plain(e.1)
    ensures '=' in DbItem(e) && ItemKey(DbItem(e)) == e.0 && ItemValue(DbItem(e)) == e.1
  {
    var quoted := "\"" + e.1 + "\"";
    DbItemChars(e);
    assert '=' !in quoted;
    SplitHead(e.0, "=", quoted);
    SplitNone(quoted, "=");
    assert Split(DbItem(e), "=") == [e.0, quoted];
    if e.1 != "" {
      assert e.1[0] in e.1 && e.1[|e.1| - 1] in e.1;
    }
    TrimWrapped(e.1, '\"', '\"', {'\"'});
    assert quoted == ['\"'] + e.1 + ['\"'];
  }

  /** Parsing the printed items of `pairs` builds the same map as `dict(pairs)`. */
  lemma {:induction false} ItemsMapPairs(pairs: seq<Entry>)
    requires forall k :: 0 <= k < |pairs| ==> Plain(pairs[k].0) && Plain(pairs[k].1)
    ensures ItemsMap(Map(pairs, DbItem)) == PairsMap(pairs)
    decreases |pairs|
  {
    if pairs != [] {
      var front := pairs[..|pairs| - 1];
      ItemsMapPairs(front);
      DbItemParts(pairs[|pairs| - 1]);
      assert Map(pairs, DbItem)[..|pairs| - 1] == Map(front, DbItem);
    }
  }
}
