/**
  ip_lib.py: the `ip` command lines built for links, addresses, namespaces and routes,
  optionally run inside a network namespace, and the parsers applied to what `ip`
  prints. Running a command is outside the model: a parser takes the command's output
  as text.
 */
module IpLib {
  import opened Wrappers
  import opened Text
  import opened Lists
  import opened Config

  /** Text in a link's details that marks it as a VLAN interface. */
  const VlanInterfaceDetail: seq<string> := ["vlan protocol 802.1q", "vlan protocol 802.1Q", "vlan id"]

  /** Where the Python code raises instead of returning. */
  datatype IpError = IndexError | ValueError

  // ---------------------------------------------------------------- _execute

  function OptionFlag(o: string): string {
    "-" + o
  }

  /** `_execute(options, command, args, namespace)`: `ip`, or `ip netns exec <ns> ip` for a
      truthy namespace, then one `-<o>` per option, the command and its arguments. */
  function Execute(options: seq<string>, command: string, args: seq<string>, namespace: Option<string>): (argv: seq<string>)
    ensures |argv| == (if Truthy(namespace) then 5 else 1) + |options| + 1 + |args|
    ensures argv[0] == "ip"
    ensures argv[|argv| - |args| - 1..] == [command] + args
  {
    var ipCmd := if Truthy(namespace) then ["ip", "netns", "exec", namespace.value, "ip"] else ["ip"];
    var argv := ipCmd + Map(options, OptionFlag) + [command] + args;
    assert argv[|argv| - |args| - 1..] == [command] + args;
    argv
  }

  /** Inside a namespace the command is the root-namespace command behind `ip netns exec <ns>`;
      an empty namespace name is no namespace at all. */
  lemma ExecuteInNamespace(options: seq<string>, command: string, args: seq<string>, ns: string)
    ensures ns != "" ==>
              Execute(options, command, args, Some(ns)) == ["ip", "netns", "exec", ns] + Execute(options, command, args, None)
    ensures ns == "" ==> Execute(options, command, args, Some(ns)) == Execute(options, command, args, None)
  {
  }

  /** The options follow the `ip` word, each as a flag. */
  lemma ExecuteOptions(options: seq<string>, command: string, args: seq<string>, namespace: Option<string>)
    ensures var start := if Truthy(namespace) then 5 else 1;
            forall k :: 0 <= k < |options| ==> Execute(options, command, args, namespace)[start + k] == "-" + options[k]
  {
  }

  // ---------------------------------------------------------------- IPDevice

  /** `IPDevice(name, namespace)` */
  datatype IpDevice = IpDevice(name: Option<string>, namespace: Option<string>)

  /** `IPDevice.__eq__`: the same name in the same namespace; never equal to None. */
  function DeviceEquals(self: IpDevice, other: Option<IpDevice>): (r: bool)
    ensures r <==> other == Some(self)
  {
    other.Some? && self.name == other.value.name && self.namespace == other.value.namespace
  }

  // ---------------------------------------------------------------- links, addresses, namespaces

  /** `IpLinkCommand.set_port_up` for the named port */
  function SetPortUpArgv(name: string, namespace: Option<string>): seq<string> {
    Execute([], "link set", [name, "up"], namespace)
  }

  /** `IpLinkCommand.set_port_down` */
  function SetPortDownArgv(name: string, namespace: Option<string>): seq<string> {
    Execute([], "link set", [name, "down"], namespace)
  }

  /** `IpLinkCommand.set_netns`: run in the root namespace, moving the port into `namespace`. */
  function SetNetnsArgv(name: string, namespace: string): seq<string> {
    Execute([], "link set", [name, "netns", namespace], None)
  }

  /** `IpAddrCommand.add_ip(ip, mask)` for the named port */
  function AddIpArgv(name: string, ip: string, mask: int, namespace: Option<string>): seq<string> {
    Execute([], "addr", ["add", ip + "/" + IntToString(mask), "dev", name], namespace)
  }

  /** `IpNetnsCommand.add(name)` */
  function NetnsAddArgv(name: string): seq<string> {
    Execute([], "netns", ["add", name], None)
  }

  /** `IpNetnsCommand.delete(name)`: one argument holding both words. */
  function NetnsDeleteArgv(name: string): seq<string> {
    Execute([], "netns", ["delete " + name], None)
  }

  /** `IPWrapper.add_veth(name1, name2, namespace2)`: the peer goes into `namespace2` only
      when one is given; the command itself always runs in the root namespace. */
  function AddVethArgv(name1: string, name2: string, namespace2: Option<string>): seq<string> {
    var args := ["add", name1, "type", "veth", "peer", "name", name2];
    Execute([], "link", if namespace2.Some? then args + ["netns", namespace2.value] else args, None)
  }

  /** `IPWrapper.del_veth(name)` */
  function DelVethArgv(name: string): seq<string> {
    Execute([], "link", ["del", name], None)
  }

  // ---------------------------------------------------------------- routes

  /** `add_onlink_route(cidr)` on the named port */
  function AddOnlinkRouteArgv(name: string, cidr: string, namespace: Option<string>): seq<string> {
    Execute([], "route", ["replace", cidr, "dev", name, "scope", "link"], namespace)
  }

  /** `delete_onlink_route(cidr)` on the named port */
  function DeleteOnlinkRouteArgv(name: string, cidr: string, namespace: Option<string>): seq<string> {
    Execute([], "route", ["del", cidr, "dev", name, "scope", "link"], namespace)
  }

  /** The arguments of `add_gateway(gateway, metric, table)`. */
  function AddGatewayArgs(name: string, gateway: string, metric: Option<string>, table: Option<string>): seq<string> {
    ["replace", "default", "via", gateway] +
    (if Truthy(metric) then ["metric", metric.value] else []) +
    ["dev", name] +
    (if Truthy(table) then ["table", table.value] else [])
  }

  /** The arguments of `delete_gateway(gateway, table)`. */
  function DeleteGatewayArgs(name: string, gateway: Option<string>, table: Option<string>): seq<string> {
    ["del", "default"] +
    (if Truthy(gateway) then ["via", gateway.value] else []) +
    ["dev", name] +
    (if Truthy(table) then ["table", table.value] else [])
  }

  /** The arguments of `add_route(cidr, ip, table)`. */
  function AddRouteArgs(name: string, cidr: string, ip: string, table: Option<string>): seq<string> {
    ["replace", cidr, "via", ip, "dev", name] + (if Truthy(table) then ["table", table.value] else [])
  }

  /** The arguments of `delete_route(cidr, ip, table)`. */
  function DeleteRouteArgs(name: string, cidr: string, ip: string, table: Option<string>): seq<string> {
    ["del", cidr, "via", ip, "dev", name] + (if Truthy(table) then ["table", table.value] else [])
  }

  /** A metric goes in as `metric <m>` right after the gateway; nothing else moves. */
  lemma GatewayMetric(name: string, gateway: string, metric: string, table: Option<string>)
    requires metric != ""
    ensures var plain := AddGatewayArgs(name, gateway, None, table);
            AddGatewayArgs(name, gateway, Some(metric), table) == plain[..4] + ["metric", metric] + plain[4..]
  {
  }

  /** Deleting a gateway names the same default route, device and table that adding it
      replaced, with `del` for `replace` and without the metric. */
  lemma DeleteGatewayMatchesAdd(name: string, gateway: string, metric: Option<string>, table: Option<string>)
    requires gateway != ""
    ensures DeleteGatewayArgs(name, Some(gateway), table) == ["del"] + AddGatewayArgs(name, gateway, None, table)[1..]
  {
  }

  /** Deleting a route names the same route that adding it replaced. */
  lemma DeleteRouteMatchesAdd(name: string, cidr: string, ip: string, table: Option<string>)
    ensures DeleteRouteArgs(name, cidr, ip, table) == ["del"] + AddRouteArgs(name, cidr, ip, table)[1..]
  {
  }

  /** Deleting an on-link route names the same route that adding it replaced. */
  lemma DeleteOnlinkMatchesAdd(name: string, cidr: string, namespace: Option<string>)
    ensures var add := AddOnlinkRouteArgv(name, cidr, namespace);
            var del := DeleteOnlinkRouteArgv(name, cidr, namespace);
            |add| == |del| && add[|add| - 6] == "replace" &&
            del == add[..|add| - 6] + ["del"] + add[|add| - 5..]
  {
  }

  // ---------------------------------------------------------------- get_devices

  /** `any(v in details for v in VLAN_INTERFACE_DETAIL)` */
  predicate IsVlanDetail(details: string) {
    exists v :: v in VlanInterfaceDetail && Contains(details, v)
  }

  /** The device a line of `ip -o -d link list` names, or None for a line that is skipped:
      one without `<`, or one without three space-separated fields. The name is the second
      field up to its last `@` for a VLAN interface, up to its last `:` otherwise. */
  function DeviceOf(line: string): Option<string> {
    if '<' !in line then None
    else
      var tokens := SplitMax(line, " ", 2);
      if |tokens| != 3 then None
      else
        var delimiter := if IsVlanDetail(tokens[2]) then '@' else ':';
        Some(Strip(RPartitionHead(tokens[1], delimiter)))
  }

  /** Whether `get_devices` keeps a device it found. */
  predicate Listed(name: string, excludeLoopback: bool) {
    !(excludeLoopback && name == LoopbackDevName)
  }

  /** What one output line adds to the devices `get_devices` collects. */
  function DeviceFound(line: string, excludeLoopback: bool): seq<string> {
    Found(DeviceOf(line), excludeLoopback)
  }

  function Found(device: Option<string>, excludeLoopback: bool): seq<string> {
    match device
    case Some(name) => if Listed(name, excludeLoopback) then [name] else []
    case None => []
  }

  /** The devices `get_devices` collects from the output lines, in order. */
  function DeviceNames(lines: seq<string>, excludeLoopback: bool): seq<string>
    decreases |lines|
  {
    if lines == [] then []
    else DeviceNames(lines[..|lines| - 1], excludeLoopback) + DeviceFound(lines[|lines| - 1], excludeLoopback)
  }

  /** One more line adds what that line names. */
  lemma DeviceNamesNext(lines: seq<string>, i: nat, excludeLoopback: bool)
    requires i < |lines|
    ensures DeviceNames(lines[..i + 1], excludeLoopback) ==
            DeviceNames(lines[..i], excludeLoopback) + DeviceFound(lines[i], excludeLoopback)
  {
    assert lines[..i + 1][..i] == lines[..i];
    assert lines[..i + 1][i] == lines[i];
  }

  lemma DeviceNamesKeep(lines: seq<string>, i: nat, excludeLoopback: bool, name: string)
    requires i < |lines| && DeviceOf(lines[i]) == Some(name) && Listed(name, excludeLoopback)
    ensures DeviceNames(lines[..i + 1], excludeLoopback) == DeviceNames(lines[..i], excludeLoopback) + [name]
  {
    DeviceNamesNext(lines, i, excludeLoopback);
  }

  lemma DeviceNamesSkip(lines: seq<string>, i: nat, excludeLoopback: bool)
    requires i < |lines| && (DeviceOf(lines[i]).None? || !Listed(DeviceOf(lines[i]).value, excludeLoopback))
    ensures DeviceNames(lines[..i + 1], excludeLoopback) == DeviceNames(lines[..i], excludeLoopback)
  {
    DeviceNamesNext(lines, i, excludeLoopback);
    assert DeviceFound(lines[i], excludeLoopback) == [];
    assert DeviceNames(lines[..i], excludeLoopback) + [] == DeviceNames(lines[..i], excludeLoopback);
  }

  /** `IPWrapper.get_devices(exclude_loopback)` over the output of `ip -o -d link list`. */
  method GetDevices(output: string, excludeLoopback: bool) returns (retval: seq<string>)
    ensures retval == DeviceNames(Split(output, "\n"), excludeLoopback)
  {
    var lines := Split(output, "\n");
    retval := CollectDevices(lines, excludeLoopback);
  }

  /** The loop of `get_devices`. */
  method CollectDevices(lines: seq<string>, excludeLoopback: bool) returns (retval: seq<string>)
    ensures retval == DeviceNames(lines, excludeLoopback)
  {
    retval := [];
    var i := 0;
    while i < |lines|
      invariant i <= |lines|
      invariant retval == DeviceNames(lines[..i], excludeLoopback)
    {
      DeviceNamesNext(lines, i, excludeLoopback);
      var found := Kept(DeviceOf(lines[i]), excludeLoopback);
      retval := retval + found;
      i := i + 1;
    }
    assert lines[..i] == lines;
  }

  /** One pass of the `get_devices` loop, given the device the line names (None for a
      skipped line): the device, unless it is the excluded loopback. */
  method Kept(device: Option<string>, excludeLoopback: bool) returns (found: seq<string>)
    ensures found == Found(device, excludeLoopback)
  {
    found := [];
    match device {
      case Some(name) =>
        if !(excludeLoopback && name == LoopbackDevName) {
          found := [name];
        }
      case None =>
    }
  }

  /** Excluding the loopback device drops exactly the `lo` entries and keeps the order. */
  lemma {:induction false} ExcludeLoopback(lines: seq<string>)
    ensures DeviceNames(lines, true) == Filter(DeviceNames(lines, false), (n: string) => n != LoopbackDevName)
    decreases |lines|
  {
    if lines != [] {
      var front, last := lines[..|lines| - 1], lines[|lines| - 1];
      var keep := (n: string) => n != LoopbackDevName;
      ExcludeLoopback(front);
      FilterAppend(DeviceNames(front, false), DeviceFound(last, false), keep);
      ExcludeLoopbackLine(DeviceOf(last));
    }
  }

  /** Excluding the loopback device from one line's contribution. */
  lemma ExcludeLoopbackLine(device: Option<string>)
    ensures Found(device, true) == Filter(Found(device, false), (n: string) => n != LoopbackDevName)
  {
    match device
    case None =>
    case Some(name) =>
      assert [name][1..] == [];
  }

  /** Devices found in two runs of output lines appear in the order of the lines. */
  lemma {:induction false} DeviceNamesAppend(a: seq<string>, b: seq<string>, excludeLoopback: bool)
    ensures DeviceNames(a + b, excludeLoopback) == DeviceNames(a, excludeLoopback) + DeviceNames(b, excludeLoopback)
    decreases |b|
  {
    if b == [] {
      assert a + b == a;
      assert DeviceNames(a, excludeLoopback) + [] == DeviceNames(a, excludeLoopback);
    } else {
      var bf, last := b[..|b| - 1], b[|b| - 1];
      DeviceNamesAppend(a, bf, excludeLoopback);
      SnocSplit(a, b);
      AppendAssoc(DeviceNames(a, excludeLoopback), DeviceNames(bf, excludeLoopback), DeviceFound(last, excludeLoopback));
    }
  }

  /** The last element of `a + b`, for a non-empty `b`, is `b`'s, and before it come `a` and
      the rest of `b`. */
  lemma SnocSplit<T>(a: seq<T>, b: seq<T>)
    requires b != []
    ensures (a + b)[..|a + b| - 1] == a + b[..|b| - 1] && (a + b)[|a + b| - 1] == b[|b| - 1]
  {
  }

  lemma AppendAssoc<T>(x: seq<T>, y: seq<T>, z: seq<T>)
    ensures x + (y + z) == (x + y) + z
  {
  }

  /** A line `<index>: <name>: <details>` names the device `name` when the details carry
      the flags (`<`) and no VLAN detail. */
  lemma PlainDeviceLine(index: string, name: string, details: string)
    requires ' ' !in index && Word(name) && '<' in details && !IsVlanDetail(details)
    ensures DeviceOf(index + ": " + name + ": " + details) == Some(name)
  {
    DeviceFields(index, name + ":", details);
    assert index + ": " + name + ": " + details == index + ": " + (name + ":") + " " + details;
    assert RPartitionHead(name + ":", ':') == name by {
      assert (name + ":")[..|name|] == name;
    }
    StripKeeps(name);
  }

  /** A line `<index>: <name>@<parent>: <details>` names the device `name` when the details
      carry the flags and a VLAN detail. */
  lemma VlanDeviceLine(index: string, name: string, parent: string, details: string)
    requires ' ' !in index && Word(name) && Word(parent) && '@' !in parent
    requires '<' in details && IsVlanDetail(details)
    ensures DeviceOf(index + ": " + name + "@" + parent + ": " + details) == Some(name)
  {
    var field := name + "@" + parent + ":";
    assert ' ' !in field by {
      assert forall k :: 0 <= k < |field| ==> field[k] != ' ';
    }
    DeviceFields(index, field, details);
    VlanHead(name, parent, field);
    StripKeeps(name);
    assert index + ": " + name + "@" + parent + ": " + details == index + ": " + field + " " + details;
  }

  lemma VlanHead(name: string, parent: string, field: string)
    requires '@' !in parent && field == name + "@" + parent + ":"
    ensures RPartitionHead(field, '@') == name
  {
    var tail := "@" + parent + ":";
    assert field == name + tail;
    assert forall k :: |name| < k < |field| ==> field[k] != '@' by {
      forall k | |name| < k < |field|
        ensures field[k] != '@'
      {
        if k < |field| - 1 {
          assert field[k] == parent[k - |name| - 1];
        }
      }
    }
    RPartitionAt(field, '@', |name|);
    assert field[..|name|] == name;
  }

  /** The split of a device line into its three fields. */
  lemma DeviceFields(index: string, field: string, details: string)
    requires ' ' !in index && ' ' !in field && '<' in details
    ensures var line := index + ": " + field + " " + details;
            '<' in line && SplitMax(line, " ", 2) == [index + ":", field, details]
  {
    var line := index + ": " + field + " " + details;
    assert ' ' !in index + ":";
    var rest := field + " " + details;
    assert line == (index + ":") + [' '] + rest;
    SplitMaxHead(index + ":", ' ', rest, 2);
    assert rest == field + [' '] + details;
    SplitMaxHead(field, ' ', details, 1);
    assert SplitMax(details, " ", 0) == [details];
    assert line == (index + ": " + field + " ") + details;
    assert '<' in line;
  }

  // ---------------------------------------------------------------- netns list

  /** `[l.strip() for l in output.split('\n')]`: `IPWrapper.get_namespaces` over the
      output of `ip netns list`. */
  function GetNamespaces(output: string): (r: seq<string>)
    ensures |r| == |Split(output, "\n")|
    ensures forall k :: 0 <= k < |r| ==> r[k] == Strip(Split(output, "\n")[k])
  {
    Map(Split(output, "\n"), Strip)
  }

  /** A single listing line as `ip netns list` prints it: no newline and no surrounding space. */
  predicate ListingLine(s: string) {
    '\n' !in s && Strip(s) == s
  }

  /** A listing of namespaces, one per line, is read back as exactly those namespaces. */
  lemma {:induction false} NamespacesListed(names: seq<string>)
    requires |names| >= 1
    requires forall k :: 0 <= k < |names| ==> ListingLine(names[k])
    ensures GetNamespaces(Join(names, "\n")) == names
  {
    SplitJoin(names, "\n");
  }

  /** `IpNetnsCommand.exists(name)` over the output of `ip -o netns list`: scans the lines
      and stops at the first one that is `name` once stripped. */
  method NetnsExists(output: string, name: string) returns (found: bool)
    ensures found <==> name in GetNamespaces(output)
  {
    var lines := Split(output, "\n");
    found := AnyLineIs(lines, name);
  }

  /** The loop of `exists`. */
  method AnyLineIs(lines: seq<string>, name: string) returns (found: bool)
    ensures found <==> name in Map(lines, Strip)
  {
    var i := 0;
    while i < |lines|
      invariant i <= |lines|
      invariant forall k :: 0 <= k < i ==> Strip(lines[k]) != name
    {
      if name == Strip(lines[i]) {
        assert Map(lines, Strip)[i] == name;
        return true;
      }
      i := i + 1;
    }
    return false;
  }

  /** A namespace exists exactly when it is one of those listed. */
  lemma NetnsExistsListed(names: seq<string>, name: string)
    requires |names| >= 1
    requires forall k :: 0 <= k < |names| ==> ListingLine(names[k])
    ensures name in GetNamespaces(Join(names, "\n")) <==> name in names
  {
    NamespacesListed(names);
  }

  // ---------------------------------------------------------------- onlink routes

  /** A stripped line `list_onlink_routes` keeps: non-empty, and not mentioning `src`. */
  predicate OnlinkRoute(line: string) {
    line != "" && !Contains(line, "src")
  }

  /** `IpRouteCommand.list_onlink_routes` over the output of
      `ip route list dev <name> scope link`: the stripped lines that are routes, in order. */
  function ListOnlinkRoutes(output: string): (r: seq<string>)
    ensures forall l :: l in r <==> l in GetNamespaces(output) && OnlinkRoute(l)
  {
    var stripped := Map(Split(output, "\n"), Strip);
    FilterMembers(stripped, OnlinkRoute);
    Filter(stripped, OnlinkRoute)
  }

  /** Listed routes come back as listed, in order; lines that are blank or carry a `src`
      address (the kernel's own route for the device's address) are dropped wherever
      they occur. */
  lemma {:induction false} OnlinkRoutesListed(before: seq<string>, kernel: string, after: seq<string>)
    requires |before| >= 1 && |after| >= 1
    requires forall k :: 0 <= k < |before| ==> ListingLine(before[k]) && OnlinkRoute(before[k])
    requires forall k :: 0 <= k < |after| ==> ListingLine(after[k]) && OnlinkRoute(after[k])
    requires ListingLine(kernel) && !OnlinkRoute(kernel)
    ensures ListOnlinkRoutes(Join(before + [kernel] + after, "\n")) == before + after
  {
    ListedAround(before, kernel, after);
    FilterDropOne(before, kernel, after, OnlinkRoute);
  }

  // ---------------------------------------------------------------- get_gateway

  /** The gateway `get_gateway` reports: `dict(gateway=...)`, with `metric` when the route
      has one. */
  datatype Gateway = Gateway(gateway: string, metric: Option<int>)

  /** A stripped line that is the default route. */
  predicate DefaultRoute(line: string) {
    StartsWith(line, "default")
  }

  /** `IpRouteCommand.get_gateway` over the output of `ip route list dev <name>`: the
      gateway of the first default route, or None when there is none. */
  function GetGateway(output: string): (r: Result<Option<Gateway>, IpError>)
    ensures var lines := GetNamespaces(output);
            r == Success(None) <==> forall k :: 0 <= k < |lines| ==> !DefaultRoute(lines[k])
  {
    GatewayIn(GetNamespaces(output))
  }

  /** `get_gateway` once the listing is split into stripped lines. */
  function GatewayIn(lines: seq<string>): (r: Result<Option<Gateway>, IpError>)
    ensures r == Success(None) <==> forall k :: 0 <= k < |lines| ==> !DefaultRoute(lines[k])
  {
    match FirstWhere(lines, DefaultRoute)
    case None => Success(None)
    case Some(i) =>
      match GatewayOf(lines[i])
      case Success(gateway) => Success(Some(gateway))
      case Failure(e) => Failure(e)
  }

  /** The gateway of a default route line: its third word, and the integer after its first
      `metric` word. A line too short for a gateway, or ending in `metric`, raises
      `IndexError`; a metric that is not an integer raises `ValueError`. */
  function GatewayOf(line: string): (r: Result<Gateway, IpError>)
    ensures |Words(line)| <= 2 ==> r == Failure(IndexError)
    ensures r.Success? ==> |Words(line)| > 2 && r.value.gateway == Words(line)[2]
    ensures r.Success? ==> (r.value.metric.Some? <==> "metric" in Words(line))
  {
    var parts := Words(line);
    if |parts| <= 2 then Failure(IndexError)
    else if "metric" !in parts then Success(Gateway(parts[2], None))
    else
      var at := IndexOf(parts, "metric") + 1;
      if at >= |parts| then Failure(IndexError)
      else
        match ParseInt(parts[at])
        case None => Failure(ValueError)
        case Some(metric) => Success(Gateway(parts[2], Some(metric)))
  }

  /** The words of a default route through `gateway` on `dev`, with its metric if any. */
  function DefaultRouteWords(gateway: string, dev: string, metric: Option<int>): seq<string> {
    ["default", "via", gateway, "dev", dev] + (if metric.Some? then ["metric", IntToString(metric.value)] else [])
  }

  /** The gateway and metric of a default route printed after other routes are read back. */
  lemma GatewayRoundTrip(before: seq<string>, gateway: string, dev: string, metric: Option<int>, after: seq<string>)
    requires forall k :: 0 <= k < |before| ==> ListingLine(before[k]) && !DefaultRoute(before[k])
    requires forall k :: 0 <= k < |after| ==> ListingLine(after[k])
    requires Word(gateway) && Word(dev)
    requires gateway != "metric" && dev != "metric"
    ensures GetGateway(Join(before + [Join(DefaultRouteWords(gateway, dev, metric), " ")] + after, "\n")) ==
              Success(Some(Gateway(gateway, metric)))
  {
    var words := DefaultRouteWords(gateway, dev, metric);
    var line := Join(words, " ");
    DefaultRouteLine(gateway, dev, metric, words, line);
    MetricWord(gateway, dev, metric, words);
    RouteGateway(line, words, gateway, metric);
    FirstDefaultRoute(before, line, after);
  }

  /** A default route listed after lines that are not is the one `get_gateway` reads. */
  lemma FirstDefaultRoute(before: seq<string>, line: string, after: seq<string>)
    requires forall k :: 0 <= k < |before| ==> ListingLine(before[k]) && !DefaultRoute(before[k])
    requires forall k :: 0 <= k < |after| ==> ListingLine(after[k])
    requires ListingLine(line) && DefaultRoute(line)
    ensures GetGateway(Join(before + [line] + after, "\n")) ==
              match GatewayOf(line)
              case Success(g) => Success(Some(g))
              case Failure(e) => Failure(e)
  {
    var lines := before + [line] + after;
    ListedAround(before, line, after);
    FirstDefaultAt(before, line, after);
    GetGatewayAt(Join(lines, "\n"), |before|);
  }

  /** The first default route of `before + [line] + after` is `line`. */
  lemma FirstDefaultAt(before: seq<string>, line: string, after: seq<string>)
    requires forall k :: 0 <= k < |before| ==> !DefaultRoute(before[k])
    requires DefaultRoute(line)
    ensures var lines := before + [line] + after;
            |before| < |lines| && lines[|before|] == line &&
            FirstWhere(lines, DefaultRoute) == Some(|before|)
  {
    var lines := before + [line] + after;
    assert forall k :: 0 <= k < |before| ==> lines[k] == before[k];
    assert lines[|before|] == line;
    FirstWhereAt(lines, DefaultRoute, |before|);
  }

  /** `get_gateway` reads the gateway of the first default route of the listing. */
  lemma GetGatewayAt(output: string, i: nat)
    requires FirstWhere(GetNamespaces(output), DefaultRoute) == Some(i)
    ensures i < |GetNamespaces(output)|
    ensures GetGateway(output) ==
              match GatewayOf(GetNamespaces(output)[i])
              case Success(g) => Success(Some(g))
              case Failure(e) => Failure(e)
  {
  }

  /** Listing lines around one more listing line are read back as listed. */
  lemma ListedAround(before: seq<string>, line: string, after: seq<string>)
    requires forall k :: 0 <= k < |before| ==> ListingLine(before[k])
    requires forall k :: 0 <= k < |after| ==> ListingLine(after[k])
    requires ListingLine(line)
    ensures GetNamespaces(Join(before + [line] + after, "\n")) == before + [line] + after
  {
    var lines := before + [line] + after;
    forall k | 0 <= k < |lines|
      ensures ListingLine(lines[k])
    {
      if k > |before| {
        assert lines[k] == after[k - |before| - 1];
      } else if k < |before| {
        assert lines[k] == before[k];
      }
    }
    NamespacesListed(lines);
  }

  /** A default route whose words carry the gateway third, and the metric after the only
      `metric` word, yields that gateway and metric. */
  lemma RouteGateway(line: string, words: seq<string>, gateway: string, metric: Option<int>)
    requires Words(line) == words && |words| > 2 && words[2] == gateway
    requires metric.None? ==> "metric" !in words
    requires metric.Some? ==> |words| == 7 && words[6] == IntToString(metric.value) &&
                              "metric" in words && IndexOf(words, "metric") == 5
    ensures GatewayOf(line) == Success(Gateway(gateway, metric))
  {
    if metric.Some? {
      MetricParsed(words, metric.value);
    }
  }

  lemma MetricParsed(words: seq<string>, metric: int)
    requires |words| == 7 && words[6] == IntToString(metric)
    requires "metric" in words && IndexOf(words, "metric") == 5
    ensures ParseInt(words[IndexOf(words, "metric") + 1]) == Some(metric)
  {
    IntToStringParses(metric);
  }

  /** Where the `metric` word sits in a printed default route. */
  lemma MetricWord(gateway: string, dev: string, metric: Option<int>, words: seq<string>)
    requires gateway != "metric" && dev != "metric"
    requires words == DefaultRouteWords(gateway, dev, metric)
    ensures |words| > 2 && words[2] == gateway
    ensures metric.None? ==> "metric" !in words
    ensures metric.Some? ==> |words| == 7 && words[6] == IntToString(metric.value) &&
                             "metric" in words && IndexOf(words, "metric") == 5
  {
    assert "default" != "metric" && "via" != "metric" && "dev" != "metric";
    if metric.Some? {
      IndexOfAt(words, "metric", 5);
    }
  }

  /** The printed default route is one listing line that starts with `default` and splits
      back into its words. */
  lemma DefaultRouteLine(gateway: string, dev: string, metric: Option<int>, words: seq<string>, line: string)
    requires Word(gateway) && Word(dev)
    requires words == DefaultRouteWords(gateway, dev, metric) && line == Join(words, " ")
    ensures ListingLine(line) && DefaultRoute(line) && Words(line) == words
  {
    RouteWordsAreWords(gateway, dev, metric);
    JoinedWordsLine(words);
    JoinFirst(words, " ");
  }

  lemma RouteWordsAreWords(gateway: string, dev: string, metric: Option<int>)
    requires Word(gateway) && Word(dev)
    ensures var words := DefaultRouteWords(gateway, dev, metric);
            forall k :: 0 <= k < |words| ==> Word(words[k])
  {
    if metric.Some? {
      IntToStringWord(metric.value);
    }
  }

  /** Words joined by single spaces make one listing line that splits back into them. */
  lemma JoinedWordsLine(words: seq<string>)
    requires |words| >= 1 && forall k :: 0 <= k < |words| ==> Word(words[k])
    ensures ListingLine(Join(words, " ")) && Words(Join(words, " ")) == words
  {
    WordsJoin(words);
    JoinedNoNewline(words);
    JoinedStripped(words);
  }

  lemma JoinedNoNewline(words: seq<string>)
    requires forall k :: 0 <= k < |words| ==> Word(words[k])
    ensures '\n' !in Join(words, " ")
  {
    forall k | 0 <= k < |words|
      ensures '\n' !in words[k]
    {
      WordOneLine(words[k]);
    }
    JoinFree(words, " ", '\n');
  }

  lemma JoinedStripped(words: seq<string>)
    requires |words| >= 1 && Word(words[0]) && Word(words[|words| - 1])
    ensures Strip(Join(words, " ")) == Join(words, " ")
  {
    JoinFirstChar(words, " ");
    JoinLastChar(words, " ");
    StripKeeps(Join(words, " "));
  }
}
