/**
 The persistent network cache as a value: what each operation does to the networks, what it
 answers, and whether it writes the file (pkg/plugin/cache.go:16-370).
 */
module CacheSpec {

  /** A Go map that may be nil. Reading a nil map finds nothing; the file format keeps no empty map. */
  datatype GoMap<V> = NilMap | Made(entries: map<string, V>)

  function Entries<V>(m: GoMap<V>): (r: map<string, V>) {
    match m
    case NilMap => map[]
    case Made(entries) => entries
  }

  /** A map after being printed with omitempty and parsed again: an empty map comes back nil. */
  function Norm<V>(m: GoMap<V>): (r: GoMap<V>) {
    if Entries(m) == map[] then NilMap else m
  }

  datatype Options = Options(bridge: string, ipv6: bool, leaseTimeout: int, ignoreConflicts: bool,
                             skipRoutes: bool, macFormat: string)

  datatype Endpoint = Endpoint(id: string, sandboxKey: string, macAddress: string, ip: string, ipv6: string,
                               gateway: string, hostname: string, seedName: string)

  /** `createdAt` zero is Go's zero time. */
  datatype Metadata = Metadata(name: string, hostname: string, createdAt: int)

  datatype Network = Network(id: string, options: Options, endpoints: GoMap<Endpoint>,
                             containerMap: GoMap<string>, metadataMap: GoMap<Metadata>)

  type Networks = map<string, Network>

  const NO_OPTIONS := Options("", false, 0, false, false, "")
  const NO_ENDPOINT := Endpoint("", "", "", "", "", "", "", "")
  const NO_METADATA := Metadata("", "", 0)
  const NO_NETWORK := Network("", NO_OPTIONS, NilMap, NilMap, NilMap)

  function NormNetwork(n: Network): (r: Network) {
    n.(endpoints := Norm(n.endpoints), containerMap := Norm(n.containerMap), metadataMap := Norm(n.metadataMap))
  }

  /** What the file holds after saving `nets`, and what loading it yields. */
  function Snapshot(nets: Networks): (r: Networks) {
    map id | id in nets :: NormNetwork(nets[id])
  }

  /** A Docker network as listed: its containers with their endpoint IDs, and its options if they decode. */
  datatype DockerNetwork = DockerNetwork(id: string, driver: string, options: Decoded, containers: map<string, string>)
  datatype Decoded = Bad | Good(value: Options)

  type DockerNets = map<string, DockerNetwork>

  /** For each listed network, the container that each endpoint ID was mapped to. */
  type Picks = map<string, map<string, string>>

  const DRIVER_NEW := "ghcr.io/thehaven/docker-net-dhcp:"
  const DRIVER_OLD := "ghcr.io/devplayer0/docker-net-dhcp:"

  /** The pattern of either driver name: the prefix and at least one character, none a newline. */
  predicate IsDHCPPlugin(driver: string) {
    exists prefix :: prefix in {DRIVER_NEW, DRIVER_OLD} &&
      prefix < driver && forall i :: |prefix| <= i < |driver| ==> driver[i] != '\n'
  }

  /** The plugin's networks among those listed; a repeated ID keeps the last. */
  function PluginNetworks(listed: seq<DockerNetwork>): (r: DockerNets) {
    if listed == [] then map[]
    else
      var rest, n := PluginNetworks(listed[..|listed| - 1]), listed[|listed| - 1];
      if IsDHCPPlugin(n.driver) then rest[n.id := n] else rest
  }

  /** The prefix and then a tag of at least one character on one line. */
  ghost predicate Tagged(driver: string, prefix: string) {
    exists tag :: tag != "" && '\n' !in tag && driver == prefix + tag
  }

  /** A driver name of this plugin, old or new. */
  ghost predicate PluginDriver(driver: string) {
    Tagged(driver, "ghcr.io/thehaven/docker-net-dhcp:") || Tagged(driver, "ghcr.io/devplayer0/docker-net-dhcp:")
  }

  /** The last network of the listing with this ID and a driver of the plugin. */
  ghost predicate LastListed(listed: seq<DockerNetwork>, id: string, i: int) {
    && 0 <= i < |listed| && listed[i].id == id && PluginDriver(listed[i].driver)
    && forall j :: i < j < |listed| ==> !(listed[j].id == id && PluginDriver(listed[j].driver))
  }

  lemma TaggedIff(driver: string, prefix: string)
    ensures Tagged(driver, prefix) <==> prefix < driver && forall i :: |prefix| <= i < |driver| ==> driver[i] != '\n'
  {
    if prefix < driver && forall i :: |prefix| <= i < |driver| ==> driver[i] != '\n' {
      var tag := driver[|prefix|..];
      assert driver == prefix + tag && tag != "" && '\n' !in tag;
    }
    if tag :| tag != "" && '\n' !in tag && driver == prefix + tag {
      assert forall i :: |prefix| <= i < |driver| ==> driver[i] == tag[i - |prefix|];
    }
  }

  lemma DriverIs(driver: string)
    ensures IsDHCPPlugin(driver) <==> PluginDriver(driver)
  {
    hide Tagged;
    TaggedIff(driver, DRIVER_NEW);
    TaggedIff(driver, DRIVER_OLD);
  }

  /** The plugin's networks are exactly those listed with one of its drivers, each ID with its last occurrence. */
  lemma {:induction false} NetworksListed(listed: seq<DockerNetwork>, id: string)
    ensures id in PluginNetworks(listed) <==> exists i :: LastListed(listed, id, i)
    ensures forall i :: LastListed(listed, id, i) ==> PluginNetworks(listed)[id] == listed[i]
  {
    hide IsDHCPPlugin, PluginDriver;
    if listed != [] {
      var n := |listed| - 1;
      NetworksListed(listed[..n], id);
      DriverIs(listed[n].driver);
      assert forall i :: 0 <= i < n ==> listed[..n][i] == listed[i];
      if listed[n].id == id && PluginDriver(listed[n].driver) {
        assert LastListed(listed, id, n);
      } else {
        assert forall i :: LastListed(listed, id, i) <==> LastListed(listed[..n], id, i);
      }
    }
  }

  /** `m` lists, for each endpoint ID, some container that has it: one outcome of the rebuilding loop. */
  ghost predicate IsInverse(m: map<string, string>, containers: map<string, string>) {
    && m.Keys == containers.Values
    && forall ep :: ep in m ==> m[ep] in containers && containers[m[ep]] == ep
  }

  function Active(containers: map<string, string>): (r: set<string>) {
    containers.Values - {""}
  }

  function DropKeys<V>(m: GoMap<V>, keys: set<string>): (r: GoMap<V>) {
    match m
    case NilMap => NilMap
    case Made(entries) => Made(entries - keys)
  }

  lemma DropNothing<V>(m: GoMap<V>, keys: set<string>)
    requires Entries(m).Keys !! keys
    ensures DropKeys(m, keys) == m
  {
    if m.Made? {
      assert m.entries - keys == m.entries;
    }
  }

  /** The operations; the times and the outcome of each map traversal are arguments. */
  datatype Op =
    | Get(id: string)
    | GetMetadata(net: string, ep: string)
    | GetAll
    | GetEndpoint(net: string, ep: string)
    | SetMetadata(net: string, ep: string, meta: Metadata)
    | PruneMetadata(maxAge: int)
    | Set(state: Network)
    | SetEndpoint(net: string, endpoint: Endpoint)
    | DeleteEndpoint(net: string, ep: string)
    | Delete(id: string)
    | Reconcile(docker: DockerNets, picks: Picks)

  datatype Timed = Timed(op: Op, now: int)

  /** What the caller sees. */
  datatype Answer =
    | Silent
    | NotFound
    | ANetwork(state: Network, ok: bool)
    | AnEndpoint(endpoint: Endpoint, ok: bool)
    | AMetadata(meta: Metadata, ok: bool)
    | All(states: set<Network>)

  function NormAnswer(a: Answer): (r: Answer) {
    match a
    case ANetwork(state, ok) => ANetwork(NormNetwork(state), ok)
    case All(states) => All(set s | s in states :: NormNetwork(s))
    case _ => a
  }

  /** The networks afterwards, whether the file is written, and the answer. */
  datatype Effect = Effect(nets: Networks, saves: bool, answer: Answer)

  function NonNil<V>(m: GoMap<V>): (r: GoMap<V>) {
    Made(Entries(m))
  }

  function SetMetadataIn(nets: Networks, net: string, ep: string, meta: Metadata): (r: Networks) {
    var n := if net in nets then nets[net] else Network(net, NO_OPTIONS, Made(map[]), NilMap, NilMap);
    nets[net := n.(metadataMap := Made(Entries(n.metadataMap)[ep := meta]))]
  }

  function Expired(m: GoMap<Metadata>, now: int, maxAge: int): (r: set<string>) {
    set ep | ep in Entries(m) && now - Entries(m)[ep].createdAt > maxAge
  }

  function PruneMetadataIn(nets: Networks, now: int, maxAge: int): (r: Networks) {
    map id | id in nets ::
      nets[id].(metadataMap := DropKeys(nets[id].metadataMap, Expired(nets[id].metadataMap, now, maxAge)))
  }

  /** A nil map in the argument means "keep what is cached". */
  function SetIn(nets: Networks, s: Network): (r: Networks) {
    var newNetwork := NO_NETWORK.(endpoints := Made(map[]), metadataMap := Made(map[]));
    var cached := if s.id in nets then nets[s.id] else newNetwork;
    nets[s.id := s.(endpoints := if s.endpoints.NilMap? then cached.endpoints else s.endpoints,
                    metadataMap := if s.metadataMap.NilMap? then cached.metadataMap else s.metadataMap)]
  }

  function SetEndpointIn(nets: Networks, net: string, e: Endpoint): (r: Networks)
    requires net in nets
  {
    nets[net := nets[net].(endpoints := Made(Entries(nets[net].endpoints)[e.id := e]))]
  }

  function DeleteEndpointIn(nets: Networks, net: string, ep: string): (r: Networks)
    requires net in nets
  {
    nets[net := nets[net].(endpoints := DropKeys(nets[net].endpoints, {ep}),
                           metadataMap := DropKeys(nets[net].metadataMap, {ep}))]
  }

  /** The networks a reconciliation leaves cached. */
  function Kept(nets: Networks, docker: DockerNets): (r: set<string>) {
    (nets.Keys * {"global"}) + (set id | id in docker && (id in nets || docker[id].options.Good?))
  }

  function Orphans(n: Network, d: DockerNetwork): (r: set<string>) {
    Entries(n.endpoints).Keys - Active(d.containers)
  }

  /** The cached entry of `id`, or the fresh one a reconciliation starts from. */
  function Existing(nets: Networks, d: DockerNetwork, id: string): (r: Network)
    requires id in nets || d.options.Good?
  {
    if id in nets then nets[id] else Network(id, d.options.value, Made(map[]), NilMap, NilMap)
  }

  function ReconciledNetwork(n: Network, d: DockerNetwork, pick: map<string, string>): (r: Network) {
    n.(endpoints := DropKeys(n.endpoints, Orphans(n, d)),
       containerMap := Made(pick),
       metadataMap := DropKeys(n.metadataMap, Orphans(n, d)))
  }

  function ReconcileIn(nets: Networks, docker: DockerNets, picks: Picks)
    : (r: Networks)
    requires picks.Keys == docker.Keys
  {
    map id | id in Kept(nets, docker) ::
      if id in docker then ReconciledNetwork(Existing(nets, docker[id], id), docker[id], picks[id]) else nets[id]
  }

  predicate ReconcileChanges(nets: Networks, docker: DockerNets) {
    || (exists id :: id in nets && id != "global" && id !in docker)
    || (exists id :: id in docker && id !in nets && docker[id].options.Good?)
    || (exists id :: id in docker && id in nets && Orphans(nets[id], docker[id]) != {})
  }

  ghost predicate ValidOp(op: Op) {
    op.Reconcile? ==>
      && op.picks.Keys == op.docker.Keys
      && forall id :: id in op.docker ==> IsInverse(op.picks[id], op.docker[id].containers)
  }

  function Step(nets: Networks, t: Timed): (r: Effect)
    requires ValidOp(t.op)
  {
    match t.op
    case Get(id) =>
      Effect(nets, false,
             if id in nets
             then
               var n := nets[id];
               ANetwork(n.(endpoints := NonNil(n.endpoints), metadataMap := NonNil(n.metadataMap)), true)
             else ANetwork(NO_NETWORK, false))
    case GetMetadata(net, ep) =>
      var m := if net in nets then Entries(nets[net].metadataMap) else map[];
      Effect(nets, false, if ep in m then AMetadata(m[ep], true) else AMetadata(NO_METADATA, false))
    case GetAll => Effect(nets, false, All(nets.Values))
    case GetEndpoint(net, ep) =>
      var m := if net in nets then Entries(nets[net].endpoints) else map[];
      Effect(nets, false, if ep in m then AnEndpoint(m[ep], true) else AnEndpoint(NO_ENDPOINT, false))
    case SetMetadata(net, ep, meta) =>
      var stamped := if meta.createdAt == 0 then meta.(createdAt := t.now) else meta;
      Effect(SetMetadataIn(nets, net, ep, stamped), true, Silent)
    case PruneMetadata(maxAge) =>
      Effect(PruneMetadataIn(nets, t.now, maxAge),
             exists id :: id in nets && Expired(nets[id].metadataMap, t.now, maxAge) != {}, Silent)
    case Set(state) => Effect(SetIn(nets, state), true, Silent)
    case SetEndpoint(net, e) =>
      if net in nets then Effect(SetEndpointIn(nets, net, e), true, Silent) else Effect(nets, false, NotFound)
    case DeleteEndpoint(net, ep) =>
      if net in nets then Effect(DeleteEndpointIn(nets, net, ep), true, Silent) else Effect(nets, false, Silent)
    case Delete(id) => Effect(nets - {id}, true, Silent)
    case Reconcile(docker, picks) =>
      Effect(ReconcileIn(nets, docker, picks), ReconcileChanges(nets, docker), Silent)
  }
}
