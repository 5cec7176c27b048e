/** The parts of a docker-compose file that the package manager reads and writes. */
module Compose {
  import opened Wrappers
  import opened Environment

  /** A value of a field that the model does not look into. */
  datatype Json =
    | Null
    | Bool(bool)
    | Text(string)
    | Array(seq<Json>)
    | Object(map<string, Json>)

  datatype ServiceNetwork = ServiceNetwork(ipv4: Option<string>, aliases: Option<seq<string>>)

  type NetworksObject = map<string, ServiceNetwork>

  /** The two forms of a service's `networks`. */
  datatype ServiceNetworks = NetworkList(names: seq<string>) | NetworkObject(networks: NetworksObject)

  /** A label: plain text, or the parsed value of one of the stored defaults. */
  datatype Label = PlainLabel(string) | RowsLabel(seq<string>) | EnvsLabel(Envs)

  datatype Service = Service(
    environment: Option<EnvField>,
    ports: Option<seq<string>>,
    volumes: Option<seq<string>>,
    networks: Option<ServiceNetworks>,
    labels: Option<map<string, Label>>,
    rest: map<string, Json>)

  datatype Volume = NullVolume | Volume(driverOpts: Option<map<string, string>>, rest: map<string, Json>)

  datatype Network = NullNetwork | Network(external: Option<bool>, rest: map<string, Json>)

  datatype Compose = Compose(
    version: string,
    services: map<string, Service>,
    volumes: Option<map<string, Volume>>,
    networks: Option<map<string, Network>>)

  const NO_NETWORK := ServiceNetwork(None, None)

  function OrElse<T>(o: Option<T>, default: T): T
  {
    if o.Some? then o.value else default
  }

  /** `parseServiceNetworks`: always the object form. */
  function ParseNetworks(networks: ServiceNetworks): NetworksObject
  {
    match networks
    case NetworkList(names) => map n | n in names :: NO_NETWORK
    case NetworkObject(nets) => nets
  }

  /** The networks of a service, in object form. */
  function NetworksOf(service: Service): NetworksObject
  {
    ParseNetworks(OrElse(service.networks, NetworkObject(map[])))
  }

  /** The environment of a service as an object. */
  function EnvsOf(service: Service): Envs
  {
    Environment.Parse(OrElse(service.environment, EnvField.Object(map[])))
  }

  // ----- cleaning (packages/dockerCompose/src/clean.ts) -----

  /** `isOmitable` for a field that is kept whole. */
  predicate Omitable(value: Json)
  {
    value.Null? || value == Array([]) || value == Json.Object(map[])
  }

  function CleanRest(rest: map<string, Json>): map<string, Json>
  {
    map k | k in rest && (k in ["container_name", "image"] || !Omitable(rest[k])) :: rest[k]
  }

  function CleanEnvironment(environment: Option<EnvField>): Option<EnvField>
  {
    if environment in [Some(Rows([])), Some(EnvField.Object(map[]))] then None else environment
  }

  function CleanNetworks(networks: Option<ServiceNetworks>): Option<ServiceNetworks>
  {
    if networks in [Some(NetworkList([])), Some(NetworkObject(map[]))] then None else networks
  }

  function CleanSeq(rows: Option<seq<string>>): Option<seq<string>>
  {
    if rows == Some([]) then None else rows
  }

  function CleanMap<V(==)>(fields: Option<map<string, V>>): Option<map<string, V>>
  {
    if fields == Some(map[]) then None else fields
  }

  function CleanService(s: Service): Service
  {
    Service(CleanEnvironment(s.environment), CleanSeq(s.ports), CleanSeq(s.volumes), CleanNetworks(s.networks),
            CleanMap(s.labels), CleanRest(s.rest))
  }

  /** `cleanCompose`: drops empty sections and the empty fields of each service. */
  function CleanCompose(c: Compose): Compose
  {
    Compose(c.version, map n | n in c.services :: CleanService(c.services[n]), CleanMap(c.volumes),
            CleanMap(c.networks))
  }

  lemma CleanTwice(c: Compose)
    ensures CleanCompose(CleanCompose(c)) == CleanCompose(c)
  {
    forall n | n in c.services ensures CleanService(CleanService(c.services[n])) == CleanService(c.services[n]) {
      assert CleanRest(CleanRest(c.services[n].rest)) == CleanRest(c.services[n].rest);
    }
  }
}
