/** The three discovery views that Envoy reads: listeners, clusters and services. */
module EnvoyApi {
  import opened Wrappers
  import opened Structs
  import opened Registry
  import opened EnvoyObjects

  // One entry -----------------------------------------------------------------------------------

  function ServiceOf(net: Net, now: string, e: Entry): Obj {
    Service(net.ipString(e.backendIP), now, e.backendPort, "1", SvcName(e), "docker service", Some(map[]), [])
  }

  function ClusterOf(e: Entry): Obj {
    Cluster(SvcName(e), "sds", 500, "round_robin", SvcName(e))
  }

  function HttpFilter(e: Entry): Obj {
    Filter("envoy.http_connection_manager",
      To(FilterConfig("auto", "ingress_http",
        To(RouteConfig(
          Slice([To(VirtualHost(SvcName(e), Some(["*"]),
            Slice([To(Route(0, "/", "", SvcName(e), To(Decorator(e.serviceName))))])))]),
          NilSlice)),
        Slice([To(Filter("router", To(FilterConfig("", "", Nil, NilSlice, Nil))))]),
        To(TracingConfig("egress")))))
  }

  function TcpFilter(e: Entry): Obj {
    Filter("envoy.tcp_proxy",
      To(FilterConfig("", "ingress_tcp",
        To(RouteConfig(NilSlice, Slice([To(TCPRoute(SvcName(e), None, "", None, None))]))),
        NilSlice, Nil)))
  }

  /** Everything that is not "http" is proxied as TCP. */
  function ListenerOf(net: Net, e: Entry): Obj {
    Listener(SvcName(e), "tcp://" + net.ipString(e.frontendIP) + ":" + Rendered(e.frontendPort),
      Slice([To(if e.proxyMode == "http" then HttpFilter(e) else TcpFilter(e))]))
  }

  // The documents -------------------------------------------------------------------------------

  function Listeners(net: Net, t: Table, order: seq<string>): seq<Pointer>
    requires forall i :: 0 <= i < |order| ==> order[i] in t
  {
    seq(|order|, i requires 0 <= i < |order| => To(ListenerOf(net, t[order[i]])))
  }

  function Clusters(t: Table, order: seq<string>): seq<Pointer>
    requires forall i :: 0 <= i < |order| ==> order[i] in t
  {
    seq(|order|, i requires 0 <= i < |order| => To(ClusterOf(t[order[i]])))
  }

  /** The answer to a service request: 404 without a name or without an entry. */
  datatype Answer = NotFound | Found(doc: Obj)

  function Registration(net: Net, now: string, t: Table, name: Option<string>): Answer {
    if name.None? || name.value !in t then NotFound
    else Found(SDS("", Slice([To(ServiceOf(net, now, t[name.value]))]), name.value))
  }

  class EnvoyApi {
    const registrar: Registrar

    constructor (registrar: Registrar)
      ensures this.registrar == registrar
    {
      this.registrar := registrar;
    }

    method EnvoyClustersFromRegistrar() returns (clusters: seq<Pointer>)
      ensures exists order :: IsRange(order, registrar.entries) && clusters == Clusters(registrar.entries, order)
    {
      hide ClusterOf;
      var visited, failed := registrar.EachEntry((n, e) => false);
      clusters := [];
      for i := 0 to |visited|
        invariant clusters == Clusters(registrar.entries, visited[..i])
      {
        clusters := clusters + [To(ClusterOf(registrar.entries[visited[i]]))];
      }
      assert visited[..|visited|] == visited;
    }

    method EnvoyListenersFromRegistrar() returns (listeners: seq<Pointer>)
      ensures exists order :: IsRange(order, registrar.entries) &&
                              listeners == Listeners(registrar.net, registrar.entries, order)
    {
      hide ListenerOf;
      var visited, failed := registrar.EachEntry((n, e) => false);
      listeners := [];
      for i := 0 to |visited|
        invariant listeners == Listeners(registrar.net, registrar.entries, visited[..i])
      {
        listeners := listeners + [To(ListenerOf(registrar.net, registrar.entries[visited[i]]))];
      }
      assert visited[..|visited|] == visited;
    }

    method RegistrationHandler(service: Option<string>, now: string) returns (answer: Answer)
      ensures answer == Registration(registrar.net, now, registrar.entries, service)
    {
      if service.None? {
        return NotFound;
      }
      var entry := registrar.GetEntry(service.value);
      if entry.None? {
        return NotFound;
      }
      return Found(SDS("", Slice([To(ServiceOf(registrar.net, now, entry.value))]), service.value));
    }
  }
}
