/** Bringing a named container up with the right ports (internal/service/docker.go). */
module Docker {
  import opened Text
  import opened Order

  type Port = n: nat | n < 65536

  datatype PortMapping = PortMapping(host: Port, container: Port)

  /** `HostConfig.PortBindings`: host ports by container port, as in "5432/tcp". */
  type PortBindings = map<string, seq<string>>

  // ------------------------------------------------------------------ port bindings

  predicate AllDigits(s: string) {
    s != "" && forall i :: 0 <= i < |s| ==> '0' <= s[i] <= '9'
  }

  /** `strconv.Atoi`, for the ports it can mean: other numbers are no port of any mapping. */
  function Atoi(s: string): Option<Port> {
    var digits := if s != "" && (s[0] == '+' || s[0] == '-') then s[1..] else s;
    if !AllDigits(digits) then None
    else
      var value := if s[0] == '-' then -DigitsValue(digits) else DigitsValue(digits);
      if 0 <= value < 65536 then Some(value) else None
  }

  lemma AtoiOfDigits(p: Port)
    ensures Atoi(Digits(p)) == Some(p)
  {
    DigitsRoundTrip(p);
    var s := Digits(p);
    assert '0' <= s[0] <= '9';
  }

  /** `strings.SplitN(s, "/", 2)[0]`. */
  function BeforeSlash(s: string): string {
    if s == "" || s[0] == '/' then "" else [s[0]] + BeforeSlash(s[1..])
  }

  lemma {:induction false} BeforeSlashOf(a: string, b: string)
    requires '/' !in a
    ensures BeforeSlash(a + "/" + b) == a
  {
    if a == "" {
      assert a + "/" + b == "/" + b;
    } else {
      assert (a + "/" + b)[1..] == a[1..] + "/" + b;
      BeforeSlashOf(a[1..], b);
    }
  }

  /** The mappings under one container port; what is no number is skipped. */
  function MappingsAt(containerPort: string, hosts: seq<string>): seq<PortMapping> {
    if hosts == [] || Atoi(BeforeSlash(containerPort)) == None then []
    else
      var front, last := MappingsAt(containerPort, hosts[..|hosts| - 1]), Atoi(hosts[|hosts| - 1]);
      if last == None then front else front + [PortMapping(last.value, Atoi(BeforeSlash(containerPort)).value)]
  }

  /** All mappings under a set of container ports, in no order. */
  ghost function MappingsOf(raw: PortBindings, keys: set<string>): multiset<PortMapping>
    requires keys <= raw.Keys
  {
    if keys == {} then multiset{}
    else
      var k :| k in keys;
      MappingsOf(raw, keys - {k}) + multiset(MappingsAt(k, raw[k]))
  }

  lemma {:induction false} MappingsPick(raw: PortBindings, keys: set<string>, k: string)
    requires keys <= raw.Keys && k in keys
    ensures MappingsOf(raw, keys) == MappingsOf(raw, keys - {k}) + multiset(MappingsAt(k, raw[k]))
    decreases keys
  {
    var x :| x in keys && MappingsOf(raw, keys) == MappingsOf(raw, keys - {x}) + multiset(MappingsAt(x, raw[x]));
    if x == k {
    } else {
      MappingsPick(raw, keys - {x}, k);
      MappingsPick(raw, keys - {k}, x);
      assert keys - {x} - {k} == keys - {k} - {x};
    }
  }

  method MappingsUnder(containerPort: string, hosts: seq<string>) returns (ports: seq<PortMapping>)
    ensures ports == MappingsAt(containerPort, hosts)
  {
    ports := [];
    var cp := Atoi(BeforeSlash(containerPort));
    if cp == None {
      return;
    }
    for i := 0 to |hosts|
      invariant ports == MappingsAt(containerPort, hosts[..i])
    {
      assert hosts[..i + 1][..i] == hosts[..i];
      var hp := Atoi(hosts[i]);
      if hp.Some? {
        ports := ports + [PortMapping(hp.value, cp.value)];
      }
    }
    assert hosts[..|hosts|] == hosts;
  }

  /** Decodes the bindings in whatever order the map is walked. */
  method ParsePortBindings(raw: PortBindings) returns (ports: seq<PortMapping>)
    ensures multiset(ports) == MappingsOf(raw, raw.Keys)
  {
    ports := [];
    var todo := raw.Keys;
    while todo != {}
      invariant todo <= raw.Keys && multiset(ports) == MappingsOf(raw, raw.Keys - todo)
      decreases todo
    {
      var containerPort :| containerPort in todo;
      ghost var done := raw.Keys - todo;
      todo := todo - {containerPort};
      assert raw.Keys - todo == done + {containerPort} && done + {containerPort} - {containerPort} == done;
      MappingsPick(raw, done + {containerPort}, containerPort);
      var more := MappingsUnder(containerPort, raw[containerPort]);
      ports := ports + more;
    }
    assert raw.Keys - todo == raw.Keys;
  }

  function PortKey(p: PortMapping): string {
    Digits(p.container) + "/tcp"
  }

  /** What docker records for `-p 127.0.0.1:host:container` flags. */
  function Published(ports: seq<PortMapping>): PortBindings {
    if ports == [] then map[]
    else
      var front, last := Published(ports[..|ports| - 1]), ports[|ports| - 1];
      front[PortKey(last) := (if PortKey(last) in front then front[PortKey(last)] else []) + [Digits(last.host)]]
  }

  /** One more host port under its container port is one more mapping. */
  lemma MappingsAtSnoc(p: PortMapping, hosts: seq<string>)
    ensures MappingsAt(PortKey(p), hosts + [Digits(p.host)]) == MappingsAt(PortKey(p), hosts) + [p]
  {
    var all := hosts + [Digits(p.host)];
    BeforeSlashOf(Digits(p.container), "tcp");
    assert Digits(p.container) + "/" + "tcp" == PortKey(p);
    AtoiOfDigits(p.container);
    AtoiOfDigits(p.host);
    hide Atoi, BeforeSlash, Digits;
    assert all[..|all| - 1] == hosts;
    if hosts == [] {
      assert MappingsAt(PortKey(p), hosts) == [];
    }
  }

  lemma {:induction false} SameMappings(a: PortBindings, b: PortBindings, keys: set<string>)
    requires keys <= a.Keys && keys <= b.Keys && forall k :: k in keys ==> a[k] == b[k]
    ensures MappingsOf(a, keys) == MappingsOf(b, keys)
    decreases keys
  {
    if keys == {} {
    } else {
      var k :| k in keys;
      MappingsPick(a, keys, k);
      MappingsPick(b, keys, k);
      SameMappings(a, b, keys - {k});
    }
  }

  lemma NoMappings(key: string)
    ensures MappingsAt(key, []) == []
  {
  }

  /** Publishing one more port. */
  lemma PublishOne(raw: PortBindings, p: PortMapping)
    ensures var hosts := (if PortKey(p) in raw then raw[PortKey(p)] else []) + [Digits(p.host)];
      var after := raw[PortKey(p) := hosts];
      MappingsOf(after, after.Keys) == MappingsOf(raw, raw.Keys) + multiset{p}
  {
    hide MappingsOf, MappingsAt, PortKey;
    var key := PortKey(p);
    var before := if key in raw then raw[key] else [];
    var after := raw[key := before + [Digits(p.host)]];
    MappingsAtSnoc(p, before);
    MappingsPick(after, after.Keys, key);
    assert after.Keys - {key} == raw.Keys - {key};
    SameMappings(after, raw, raw.Keys - {key});
    if key in raw {
      MappingsPick(raw, raw.Keys, key);
    } else {
      assert raw.Keys - {key} == raw.Keys;
      NoMappings(key);
    }
  }

  lemma PublishedStep(raw: PortBindings, front: seq<PortMapping>, last: PortMapping, after: PortBindings)
    requires MappingsOf(raw, raw.Keys) == multiset(front)
    requires after == raw[PortKey(last) := (if PortKey(last) in raw then raw[PortKey(last)] else []) + [Digits(last.host)]]
    ensures MappingsOf(after, after.Keys) == multiset(front + [last])
  {
    hide *;
    PublishOne(raw, last);
    assert multiset(front + [last]) == multiset(front) + multiset{last};
  }

  lemma PublishedSnoc(ports: seq<PortMapping>)
    requires ports != []
    ensures var front, last := Published(ports[..|ports| - 1]), ports[|ports| - 1];
      Published(ports) == front[PortKey(last) := (if PortKey(last) in front then front[PortKey(last)] else []) + [Digits(last.host)]]
  {
  }

  /** Reading the bindings back recovers what was published. */
  lemma {:induction false} PublishedRecovered(ports: seq<PortMapping>)
    ensures MappingsOf(Published(ports), Published(ports).Keys) == multiset(ports)
  {
    if ports == [] {
    } else {
      hide *;
      var front, last := ports[..|ports| - 1], ports[|ports| - 1];
      PublishedRecovered(front);
      PublishedSnoc(ports);
      PublishedStep(Published(front), front, last, Published(ports));
      assert front + [last] == ports;
    }
  }

  // ------------------------------------------------------------------- comparing ports

  function CountOf(counts: map<PortMapping, int>, p: PortMapping): int {
    if p in counts then counts[p] else 0
  }

  lemma CountSnoc(a: seq<PortMapping>, i: nat, p: PortMapping)
    requires i < |a|
    ensures multiset(a[..i + 1])[p] == multiset(a[..i])[p] + if a[i] == p then 1 else 0
  {
    assert a[..i + 1] == a[..i] + [a[i]];
  }

  method AllZero(counts: map<PortMapping, int>) returns (zero: bool)
    ensures zero <==> forall p :: CountOf(counts, p) == 0
  {
    var todo := counts.Keys;
    while todo != {}
      invariant todo <= counts.Keys && forall p :: p !in todo ==> CountOf(counts, p) == 0
      decreases todo
    {
      var p :| p in todo;
      if counts[p] != 0 {
        assert CountOf(counts, p) != 0;
        return false;
      }
      todo := todo - {p};
    }
    zero := true;
  }

  /** Equality of two lists but for order. */
  method SamePorts(a: seq<PortMapping>, b: seq<PortMapping>) returns (same: bool)
    ensures same <==> multiset(a) == multiset(b)
  {
    if |a| != |b| {
      assert |multiset(a)| == |a| && |multiset(b)| == |b|;
      return false;
    }
    var counts: map<PortMapping, int> := map[];
    for i := 0 to |a|
      invariant forall p :: CountOf(counts, p) == multiset(a[..i])[p]
    {
      var next := counts[a[i] := CountOf(counts, a[i]) + 1];
      forall p ensures CountOf(next, p) == multiset(a[..i + 1])[p] {
        CountSnoc(a, i, p);
      }
      counts := next;
    }
    assert a[..|a|] == a;
    for i := 0 to |b|
      invariant forall p :: CountOf(counts, p) + multiset(b[..i])[p] == multiset(a)[p]
    {
      var next := counts[b[i] := CountOf(counts, b[i]) - 1];
      forall p ensures CountOf(next, p) + multiset(b[..i + 1])[p] == multiset(a)[p] {
        CountSnoc(b, i, p);
      }
      counts := next;
    }
    assert b[..|b|] == b;
    same := AllZero(counts);
    if same {
      assert forall p :: multiset(a)[p] == multiset(b)[p];
    } else {
      var p :| CountOf(counts, p) != 0;
      assert multiset(a)[p] != multiset(b)[p];
    }
  }

  // ---------------------------------------------------------------------- containers

  datatype ContainerSpec = ContainerSpec(
    name: string, image: string, env: map<string, string>, ports: seq<PortMapping>, cmd: seq<string>)

  datatype Container = Container(running: bool, bindings: PortBindings)

  /** The commands that change something. */
  datatype Command =
    | Remove(name: string)
    | Start(name: string)
    | RunNew(name: string, env: seq<string>, ports: seq<PortMapping>, image: string, cmd: seq<string>)

  /** Ports that can be bound: none is held by anything else, and none is asked for twice. Host
      port 0 stands for any that is free. */
  predicate Bindable(ports: multiset<PortMapping>, busy: set<Port>) {
    && (forall p :: p in ports && p.host != 0 ==> p.host !in busy && ports[p] == 1)
    && (forall p, q :: p in ports && q in ports && p.host == q.host && p.host != 0 ==> p == q)
  }

  ghost function Bindings(c: Container): multiset<PortMapping> {
    MappingsOf(c.bindings, c.bindings.Keys)
  }

  /** What a command makes of the containers. A name can be taken once. A container that cannot
      bind its ports is there all the same, stopped. */
  ghost function Changed(containers: map<string, Container>, busy: set<Port>, c: Command): map<string, Container> {
    match c
    case Remove(name) => containers - {name}
    case Start(name) =>
      if name in containers
      then containers[name := containers[name].(running := containers[name].running || Bindable(Bindings(containers[name]), busy))]
      else containers
    case RunNew(name, _, ports, _, _) =>
      if name in containers then containers
      else containers[name := Container(Bindable(multiset(ports), busy), Published(ports))]
  }

  predicate Runs(containers: map<string, Container>, name: string) {
    name in containers && containers[name].running
  }

  /** The daemon behind the docker CLI, with a log of the changing commands it was given.
      `busy` holds the host ports that are taken by anything but the container at hand. */
  class Daemon {
    const busy: set<Port>
    var containers: map<string, Container>
    var log: seq<Command>

    constructor (containers: map<string, Container>, busy: set<Port>)
      ensures this.containers == containers && this.busy == busy && log == []
    {
      this.containers := containers;
      this.busy := busy;
      log := [];
    }

    method Exec(c: Command) returns (ok: bool)
      modifies this
      ensures containers == Changed(old(containers), busy, c) && log == old(log) + [c]
      ensures ok <==> c.Remove? || (Runs(containers, c.name) && (c.RunNew? ==> c.name !in old(containers)))
    {
      hide MappingsOf, Published;
      log := log + [c];
      var taken := c.name in containers;
      match c {
        case Remove(name) => containers := containers - {name};
        case Start(name) =>
          if name in containers {
            var ports := ParsePortBindings(containers[name].bindings);
            var running := containers[name].running || Bindable(multiset(ports), busy);
            containers := containers[name := containers[name].(running := running)];
          }
        case RunNew(name, _, ports, _, _) =>
          if !taken {
            containers := containers[name := Container(Bindable(multiset(ports), busy), Published(ports))];
          }
      }
      ok := c.Remove? || (Runs(containers, c.name) && (c.RunNew? ==> !taken));
    }
  }

  ghost predicate HasPorts(containers: map<string, Container>, spec: ContainerSpec) {
    spec.name in containers && Bindings(containers[spec.name]) == multiset(spec.ports)
  }

  /** The container runs with exactly the mappings asked for. */
  ghost predicate IsUp(containers: map<string, Container>, spec: ContainerSpec) {
    Runs(containers, spec.name) && HasPorts(containers, spec)
  }

  ghost predicate IsEnvFlags(env: map<string, string>, flags: seq<string>) {
    exists keys :: IsListing(keys, env.Keys) && |flags| == |keys|
      && forall i :: 0 <= i < |keys| ==> keys[i] in env && flags[i] == keys[i] + "=" + env[keys[i]]
  }

  /** The commands a container needs, given the state it is in. */
  ghost predicate NeededCommands(containers: map<string, Container>, spec: ContainerSpec, commands: seq<Command>) {
    if IsUp(containers, spec) then commands == []
    else if HasPorts(containers, spec) then commands == [Start(spec.name)]
    else
      exists flags :: IsEnvFlags(spec.env, flags)
        && commands == (if spec.name in containers then [Remove(spec.name)] else [])
                       + [RunNew(spec.name, flags, spec.ports, spec.image, spec.cmd)]
  }

  method EnvFlags(env: map<string, string>) returns (flags: seq<string>)
    ensures IsEnvFlags(env, flags)
  {
    var keys := SortedKeys(env.Keys);
    flags := [];
    for i := 0 to |keys|
      invariant |flags| == i
      invariant forall k :: 0 <= k < i ==> keys[k] in env && flags[k] == keys[k] + "=" + env[keys[k]]
    {
      assert keys[i] in keys;
      flags := flags + [keys[i] + "=" + env[keys[i]]];
    }
  }

  /** From any state of the named container this ends with it up if it was up or its ports can
      be bound, and otherwise fails with the container there, stopped; other containers stay;
      and no command is given that the state does not need. */
  method EnsureContainer(docker: Daemon, spec: ContainerSpec) returns (ok: bool)
    modifies docker
    ensures ok <==> IsUp(docker.containers, spec)
    ensures ok <==> IsUp(old(docker.containers), spec) || Bindable(multiset(spec.ports), docker.busy)
    ensures HasPorts(docker.containers, spec)
    ensures docker.containers - {spec.name} == old(docker.containers) - {spec.name}
    ensures old(docker.log) <= docker.log
    ensures NeededCommands(old(docker.containers), spec, docker.log[|old(docker.log)|..])
  {
    hide MappingsOf, Published, IsEnvFlags, Bindable;
    ghost var log := docker.log;
    ghost var given: seq<Command> := [];
    if spec.name in docker.containers {
      var state := docker.containers[spec.name];
      var ports := ParsePortBindings(state.bindings);
      var same := SamePorts(ports, spec.ports);
      if !same {
        var removed := docker.Exec(Remove(spec.name));
        given := [Remove(spec.name)];
      } else if state.running {
        return true;
      } else {
        ok := docker.Exec(Start(spec.name));
        assert docker.log[|log|..] == [Start(spec.name)];
        return;
      }
    }
    var flags := EnvFlags(spec.env);
    ok := docker.Exec(RunNew(spec.name, flags, spec.ports, spec.image, spec.cmd));
    PublishedRecovered(spec.ports);
    assert HasPorts(docker.containers, spec);
    assert docker.log[|log|..] == given + [RunNew(spec.name, flags, spec.ports, spec.image, spec.cmd)];
  }

  lemma NeededAgain(containers: map<string, Container>, spec: ContainerSpec, commands: seq<Command>)
    requires HasPorts(containers, spec) && NeededCommands(containers, spec, commands)
    ensures commands == if IsUp(containers, spec) then [] else [Start(spec.name)]
  {}

  /** A second call gives no command after one that succeeded, and one more start after one
      that failed, which fails again. */
  method EnsureTwice(docker: Daemon, spec: ContainerSpec) returns (first: bool, second: bool)
    modifies docker
    ensures first == second && (first <==> IsUp(docker.containers, spec))
    ensures old(docker.log) <= docker.log
    ensures exists commands :: (
      && NeededCommands(old(docker.containers), spec, commands)
      && docker.log == old(docker.log) + commands + if first then [] else [Start(spec.name)])
  {
    hide NeededCommands, Bindings, Bindable;
    ghost var log := docker.log;
    first := EnsureContainer(docker, spec);
    ghost var middle, commands := docker.log, docker.log[|log|..];
    ghost var containers := docker.containers;
    second := EnsureContainer(docker, spec);
    NeededAgain(containers, spec, docker.log[|middle|..]);
    assert docker.log == log + commands + if first then [] else [Start(spec.name)] by {
      assert middle == log + commands;
      assert docker.log == middle + docker.log[|middle|..];
    }
  }
}
