/**
  What the recorded command lines do to the host, as far as the plumbing verbs need
  it: the Linux bridges `brctl` creates, the ports each Open vSwitch bridge holds,
  the network namespaces, the on-link routes and the root namespace's ipset sets.
  Everything else a command does (links, addresses, VLAN tags, the dnsmasq process,
  iptables) leaves this state as it was.
 */
module Net {
  import opened Wrappers
  import opened Text
  import opened Actions
  import Ipset

  /** A routing table key: the namespace (None for the root one) and the destination. */
  datatype RouteKey = RouteKey(namespace: Option<string>, cidr: string)

  datatype Net = Net(
    bridges: set<string>,
    /** (Open vSwitch bridge, port) */
    ports: set<(string, string)>,
    namespaces: set<string>,
    /** the device each on-link route leaves by */
    routes: map<RouteKey, string>,
    sets: Ipset.Sets)

  /** `brctl addbr <br>` and `brctl delbr <br>` */
  function BridgeEffect(bridges: set<string>, v: seq<string>): set<string> {
    if |v| == 3 && v[0] == "brctl" && v[1] == "addbr" then bridges + {v[2]}
    else if |v| == 3 && v[0] == "brctl" && v[1] == "delbr" then bridges - {v[2]}
    else bridges
  }

  /** `ovs-vsctl <timeout> -- --may-exist add-port <br> <port>`, the same with
      `--if-exists del-port`, and `ovs-vsctl <timeout> add-port <br> <port> ...` for an
      internal port. Adding a port that is there and deleting one that is not are
      no-ops, as the two flags ask. */
  function PortEffect(ports: set<(string, string)>, v: seq<string>): set<(string, string)> {
    if |v| < 5 || v[0] != "ovs-vsctl" then ports
    else if |v| == 7 && v[2] == "--" && v[3] == "--may-exist" && v[4] == "add-port" then ports + {(v[5], v[6])}
    else if |v| == 7 && v[2] == "--" && v[3] == "--if-exists" && v[4] == "del-port" then ports - {(v[5], v[6])}
    else if v[2] == "add-port" then ports + {(v[3], v[4])}
    else ports
  }

  /** `ip netns add <ns>`, and `ip netns "delete <ns>"`, whose one argument the shell
      splits in two. */
  function NamespaceEffect(namespaces: set<string>, v: seq<string>): set<string> {
    if |v| == 4 && v[0] == "ip" && v[1] == "netns" && v[2] == "add" then namespaces + {v[3]}
    else if |v| == 3 && v[0] == "ip" && v[1] == "netns" && StartsWith(v[2], "delete ") then namespaces - {v[2][7..]}
    else namespaces
  }

  /** The namespace an `ip` command runs in, and the command itself. */
  function Unwrapped(v: seq<string>): (Option<string>, seq<string>) {
    if |v| >= 5 && v[0] == "ip" && v[1] == "netns" && v[2] == "exec" then (Some(v[3]), v[4..]) else (None, v)
  }

  /** `ip route replace <cidr> dev <dev> scope link` points the destination at the
      device, whatever it pointed at before; `ip route del <cidr> dev <dev> scope link`
      removes the route only when it leaves by that device. */
  function RouteEffect(routes: map<RouteKey, string>, v: seq<string>): map<RouteKey, string> {
    var (ns, c) := Unwrapped(v);
    if |c| == 8 && c[0] == "ip" && c[1] == "route" && c[4] == "dev" && c[6] == "scope" && c[7] == "link" then
      var key := RouteKey(ns, c[3]);
      if c[2] == "replace" then routes[key := c[5]]
      else if c[2] == "del" && key in routes && routes[key] == c[5] then routes - {key}
      else routes
    else routes
  }

  /** The effect of one recorded action. */
  function Effect(n: Net, a: Action): Net {
    if !a.Exec? then n
    else Net(BridgeEffect(n.bridges, a.argv), PortEffect(n.ports, a.argv), NamespaceEffect(n.namespaces, a.argv),
             RouteEffect(n.routes, a.argv), Ipset.Run(n.sets, a.argv))
  }

  /** The state after a run of actions, first to last. */
  function Replay(n: Net, t: seq<Action>): Net
    decreases |t|
  {
    if t == [] then n else Replay(Effect(n, t[0]), t[1..])
  }

  /** An action that changes nothing in any state. */
  ghost predicate Idle(a: Action) {
    forall m :: Effect(m, a) == m
  }

  lemma {:induction false} ReplayAppend(n: Net, a: seq<Action>, b: seq<Action>)
    ensures Replay(n, a + b) == Replay(Replay(n, a), b)
    decreases |a|
  {
    if a != [] {
      assert (a + b)[0] == a[0] && (a + b)[1..] == a[1..] + b;
      ReplayAppend(Effect(n, a[0]), a[1..], b);
    } else {
      assert a + b == b;
    }
  }

  /** A run of idle actions leaves every state as it was. */
  lemma {:induction false} ReplayIdle(n: Net, t: seq<Action>)
    requires forall k :: 0 <= k < |t| ==> Idle(t[k])
    ensures Replay(n, t) == n
    decreases |t|
  {
    if t != [] {
      assert Effect(n, t[0]) == n;
      ReplayIdle(n, t[1..]);
    }
  }

  lemma ReplayThree(n: Net, a: seq<Action>, b: seq<Action>, c: seq<Action>)
    ensures Replay(n, a + b + c) == Replay(Replay(Replay(n, a), b), c)
  {
    ReplayAppend(n, a + b, c);
    ReplayAppend(n, a, b);
  }

  /** Replaying four runs back to back is replaying them one after the other. */
  lemma ReplayFourRuns(n: Net, a: seq<Action>, b: seq<Action>, c: seq<Action>, d: seq<Action>)
    ensures Replay(n, a + b + c + d) == Replay(Replay(Replay(Replay(n, a), b), c), d)
  {
    ReplayAppend(n, a + b + c, d);
    ReplayThree(n, a, b, c);
  }

  /** The first four actions of a run, one at a time, then the rest. */
  lemma ReplayFour(n: Net, t: seq<Action>)
    requires |t| >= 4
    ensures Replay(n, t) == Replay(Effect(Effect(Effect(Effect(n, t[0]), t[1]), t[2]), t[3]), t[4..])
  {
    ReplayFrom(n, t, 0);
    ReplayFrom(Effect(n, t[0]), t, 1);
    ReplayFrom(Effect(Effect(n, t[0]), t[1]), t, 2);
    ReplayFrom(Effect(Effect(Effect(n, t[0]), t[1]), t[2]), t, 3);
  }

  /** Replaying from position `i` is the action at `i`, then the run after it. */
  lemma ReplayFrom(n: Net, t: seq<Action>, i: nat)
    requires i < |t|
    ensures Replay(n, t[i..]) == Replay(Effect(n, t[i]), t[i + 1..])
  {
    assert t[i..][0] == t[i] && t[i..][1..] == t[i + 1..];
    assert t[0..] == t;
  }

  lemma ReplayOne(n: Net, a: Action)
    ensures Replay(n, [a]) == Effect(n, a)
  {
    assert [a][1..] == [];
  }

  lemma ReplayTwo(n: Net, a: Action, b: Action)
    ensures Replay(n, [a, b]) == Effect(Effect(n, a), b)
  {
    assert [a, b][1..] == [b];
    ReplayOne(Effect(n, a), b);
  }

  /** Adding what was absent and removing it again gives back the set. */
  lemma AddRemoveSet<T>(s: set<T>, x: set<T>)
    requires s !! x
    ensures (s + x) - x == s
  {
  }

  /** The same for two elements. */
  lemma AddRemovePair<T>(s: set<T>, x: T, y: T)
    requires x !in s && y !in s
    ensures (s + {x, y}) - {x, y} == s
  {
  }

  /** Mapping a key that was absent and removing it again gives back the map. */
  lemma AddRemoveKey<K, V>(m: map<K, V>, k: K, v: V)
    requires k !in m
    ensures m[k := v] - {k} == m
  {
  }

  /** Mapping a key twice keeps only the second value. */
  lemma UpdateTwice<K, V>(m: map<K, V>, k: K, a: V, b: V)
    ensures m[k := a][k := b] == m[k := b]
  {
  }

  /** Neither iptables nor dnsmasq touch this state. */
  lemma NonExecIdle(a: Action)
    requires !a.Exec?
    ensures Idle(a)
  {
  }
}
