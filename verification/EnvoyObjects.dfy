/** The Envoy v1 discovery documents: the field tables of the fourteen struct types, and the
    values of those types. */
module EnvoyObjects {
  import opened Wrappers
  import opened Lexemes
  import opened Structs
  import opened Printer
  import opened Parser
  import opened RoundTrip

  function EnvoyFields(t: TypeName): seq<Field> {
    match t
    case CDSResult => [Field("clusters", PointersKind(EnvoyCluster), false)]
    case EnvoyCluster =>
      [Field("name", StringKind, false), Field("type", StringKind, false),
       Field("connect_timeout_ms", IntKind, false), Field("lb_type", StringKind, false),
       Field("service_name", StringKind, false)]
    case EnvoyFilter =>
      [Field("name", StringKind, false), Field("config", PointerKind(EnvoyFilterConfig), false)]
    case EnvoyFilterConfig =>
      [Field("codec_type", StringKind, true), Field("stat_prefix", StringKind, true),
       Field("route_config", PointerKind(EnvoyRouteConfig), true),
       Field("filters", PointersKind(EnvoyFilter), true),
       Field("tracing", PointerKind(EnvoyTracingConfig), true)]
    case EnvoyHTTPVirtualHost =>
      [Field("name", StringKind, false), Field("domains", StringsKind, false),
       Field("routes", PointersKind(EnvoyRoute), false)]
    case EnvoyListener =>
      [Field("name", StringKind, false), Field("address", StringKind, false),
       Field("filters", PointersKind(EnvoyFilter), false)]
    case EnvoyRoute =>
      [Field("timeout_ms", IntKind, false), Field("prefix", StringKind, false),
       Field("host_rewrite", StringKind, false), Field("cluster", StringKind, false),
       Field("decorator", PointerKind(EnvoyRouteDecorator), true)]
    case EnvoyRouteConfig =>
      [Field("virtual_hosts", PointersKind(EnvoyHTTPVirtualHost), true),
       Field("routes", PointersKind(EnvoyTCPRoute), true)]
    case EnvoyRouteDecorator => [Field("operation", StringKind, true)]
    case EnvoyService =>
      [Field("ip_address", StringKind, false), Field("last_check_in", StringKind, false),
       Field("port", IntKind, false), Field("revision", StringKind, false),
       Field("service", StringKind, false), Field("service_repo_name", StringKind, false),
       Field("tags", TagsKind, false)]
    case EnvoyTCPRoute =>
      [Field("cluster", StringKind, false), Field("destination_ip_list", StringsKind, true),
       Field("destination_ports", StringKind, true), Field("source_ip_list", StringsKind, true),
       Field("source_ports", StringsKind, true)]
    case EnvoyTracingConfig => [Field("operation_name", StringKind, false)]
    case LDSResult => [Field("listeners", PointersKind(EnvoyListener), false)]
    case SDSResult =>
      [Field("env", StringKind, false), Field("hosts", PointersKind(EnvoyService), false),
       Field("service", StringKind, false)]
  }

  /** `c` is generated from the Envoy structs, with whatever library. */
  ghost predicate IsEnvoy(c: Codec) {
    forall t: TypeName :: c.fields(t) == EnvoyFields(t)
  }

  /** Every table keeps what the generator needs. */
  lemma EnvoyTablesAreSound(c: Codec)
    requires IsEnvoy(c)
    ensures Sound(c)
  {
    forall t: TypeName ensures SoundFields(c.fields(t)) {
      hide SoundFields, EnvoyFields;
      match t {
        case CDSResult => CDSResultTable();
        case EnvoyCluster => EnvoyClusterTable();
        case EnvoyFilter => EnvoyFilterTable();
        case EnvoyFilterConfig => EnvoyFilterConfigTable();
        case EnvoyHTTPVirtualHost => EnvoyHTTPVirtualHostTable();
        case EnvoyListener => EnvoyListenerTable();
        case EnvoyRoute => EnvoyRouteTable();
        case EnvoyRouteConfig => EnvoyRouteConfigTable();
        case EnvoyRouteDecorator => EnvoyRouteDecoratorTable();
        case EnvoyService => EnvoyServiceTable();
        case EnvoyTCPRoute => EnvoyTCPRouteTable();
        case EnvoyTracingConfig => EnvoyTracingConfigTable();
        case LDSResult => LDSResultTable();
        case SDSResult => SDSResultTable();
      }
    }
  }

  lemma CDSResultTable()
    ensures SoundFields(EnvoyFields(CDSResult))
  {
  }

  lemma EnvoyClusterTable()
    ensures SoundFields(EnvoyFields(EnvoyCluster))
  {
  }

  lemma EnvoyFilterTable()
    ensures SoundFields(EnvoyFields(EnvoyFilter))
  {
  }

  lemma EnvoyFilterConfigTable()
    ensures SoundFields(EnvoyFields(EnvoyFilterConfig))
  {
  }

  lemma EnvoyHTTPVirtualHostTable()
    ensures SoundFields(EnvoyFields(EnvoyHTTPVirtualHost))
  {
  }

  lemma EnvoyListenerTable()
    ensures SoundFields(EnvoyFields(EnvoyListener))
  {
  }

  lemma EnvoyRouteTable()
    ensures SoundFields(EnvoyFields(EnvoyRoute))
  {
  }

  lemma EnvoyRouteConfigTable()
    ensures SoundFields(EnvoyFields(EnvoyRouteConfig))
  {
  }

  lemma EnvoyRouteDecoratorTable()
    ensures SoundFields(EnvoyFields(EnvoyRouteDecorator))
  {
  }

  lemma EnvoyServiceTable()
    ensures SoundFields(EnvoyFields(EnvoyService))
  {
  }

  lemma EnvoyTCPRouteTable()
    ensures SoundFields(EnvoyFields(EnvoyTCPRoute))
  {
  }

  lemma EnvoyTracingConfigTable()
    ensures SoundFields(EnvoyFields(EnvoyTracingConfig))
  {
  }

  lemma LDSResultTable()
    ensures SoundFields(EnvoyFields(LDSResult))
  {
  }

  lemma SDSResultTable()
    ensures SoundFields(EnvoyFields(SDSResult))
  {
  }

  // The structs themselves, fields in declaration order.

  function CDS(clusters: Pointers): Obj {
    Obj(CDSResult, [PointersV(clusters)])
  }

  function LDS(listeners: Pointers): Obj {
    Obj(LDSResult, [PointersV(listeners)])
  }

  function SDS(env: string, hosts: Pointers, service: string): Obj {
    Obj(SDSResult, [StringV(env), PointersV(hosts), StringV(service)])
  }

  function Cluster(name: string, typ: string, connectTimeoutMs: int, lbType: string, serviceName: string): Obj {
    Obj(EnvoyCluster, [StringV(name), StringV(typ), IntV(connectTimeoutMs), StringV(lbType), StringV(serviceName)])
  }

  function Service(ipAddress: string, lastCheckIn: string, port: int, revision: string, service: string,
                   serviceRepoName: string, tags: Option<map<string, string>>, visit: seq<string>): Obj {
    Obj(EnvoyService, [StringV(ipAddress), StringV(lastCheckIn), IntV(port), StringV(revision), StringV(service),
                       StringV(serviceRepoName), TagsV(tags, visit)])
  }

  function Listener(name: string, address: string, filters: Pointers): Obj {
    Obj(EnvoyListener, [StringV(name), StringV(address), PointersV(filters)])
  }

  function Filter(name: string, config: Pointer): Obj {
    Obj(EnvoyFilter, [StringV(name), PointerV(config)])
  }

  function FilterConfig(codecType: string, statPrefix: string, routeConfig: Pointer, filters: Pointers, tracing: Pointer): Obj {
    Obj(EnvoyFilterConfig, [StringV(codecType), StringV(statPrefix), PointerV(routeConfig), PointersV(filters), PointerV(tracing)])
  }

  function RouteConfig(virtualHosts: Pointers, routes: Pointers): Obj {
    Obj(EnvoyRouteConfig, [PointersV(virtualHosts), PointersV(routes)])
  }

  function VirtualHost(name: string, domains: Option<seq<string>>, routes: Pointers): Obj {
    Obj(EnvoyHTTPVirtualHost, [StringV(name), StringsV(domains), PointersV(routes)])
  }

  function Route(timeoutMs: int, prefix: string, hostRewrite: string, cluster: string, decorator: Pointer): Obj {
    Obj(EnvoyRoute, [IntV(timeoutMs), StringV(prefix), StringV(hostRewrite), StringV(cluster), PointerV(decorator)])
  }

  function Decorator(operation: string): Obj {
    Obj(EnvoyRouteDecorator, [StringV(operation)])
  }

  function TracingConfig(operationName: string): Obj {
    Obj(EnvoyTracingConfig, [StringV(operationName)])
  }

  function TCPRoute(cluster: string, destinationIPList: Option<seq<string>>, destinationPorts: string,
                    sourceIPList: Option<seq<string>>, sourcePorts: Option<seq<string>>): Obj {
    Obj(EnvoyTCPRoute, [StringV(cluster), StringsV(destinationIPList), StringV(destinationPorts),
                        StringsV(sourceIPList), StringsV(sourcePorts)])
  }

  /** `o` is typed and printable, and its text carries all of it. */
  ghost predicate Exact(c: Codec, o: Obj) {
    Typed(c, o) && Printable(o) && Norm(c, o) == o
  }

  ghost predicate ExactField(c: Codec, f: Field, v: Value) {
    && TypedValue(c, f.kind, v) && PrintableValue(v) && NormValue(c, v) == v
    && (Omitted(f, v) ==> v == ZeroValue(f.kind))
  }

  ghost predicate ExactPointer(c: Codec, t: TypeName, p: Pointer) {
    p.To? ==> p.target.typ == t && Exact(c, p.target)
  }

  ghost predicate ExactSlice(c: Codec, t: TypeName, os: seq<Pointer>) {
    forall i :: 0 <= i < |os| ==> os[i].To? && ExactPointer(c, t, os[i])
  }

  lemma ExactByFields(c: Codec, o: Obj)
    requires |o.fields| == |c.fields(o.typ)|
    requires forall i :: 0 <= i < |o.fields| ==> ExactField(c, c.fields(o.typ)[i], o.fields[i])
    ensures Exact(c, o)
  {
    hide TypedValue, PrintableValue, NormValue;
    assert forall i :: 0 <= i < |o.fields| ==> NormField(c, o.typ, i, o.fields[i]) == o.fields[i];
  }

  lemma ExactPointerField(c: Codec, f: Field, t: TypeName, p: Pointer)
    requires f.kind == PointerKind(t) && ExactPointer(c, t, p)
    ensures ExactField(c, f, PointerV(p))
  {
    if p.To? {
      assert Norm(c, p.target) == p.target;
    }
  }

  lemma {:induction false} ExactElements(c: Codec, t: TypeName, os: seq<Pointer>)
    requires ExactSlice(c, t, os)
    ensures TypedElements(c, t, os) && PrintableElements(os) && NormElements(c, os) == os
  {
    if os != [] {
      ExactElements(c, t, os[1..]);
      assert os == [os[0]] + os[1..];
      assert ExactPointer(c, t, os[0]);
    }
  }

  lemma ExactPointersField(c: Codec, f: Field, t: TypeName, ps: Pointers)
    requires f.kind == PointersKind(t) && (ps.Slice? ==> ExactSlice(c, t, ps.elems))
    requires f.omitEmpty ==> ps != Slice([])
    ensures ExactField(c, f, PointersV(ps))
  {
    if ps.Slice? {
      ExactElements(c, t, ps.elems);
    }
  }

  /** An exact document is read back from its text as it is. */
  lemma ExactRoundTrip(c: Codec, o: Obj, rest: seq<Lexeme>)
    requires IsEnvoy(c) && Exact(c, o)
    ensures ParseObject(c, Zero(c, o.typ), MapStart, Base, PrintObject(c, o) + rest) == Ok(o, rest)
  {
    EnvoyTablesAreSound(c);
    DocumentRoundTrip(c, o, rest);
  }
}
