/** The documents served from any reachable registrar: they print to text that parses back to
    exactly them, and the three views agree. */
module ServedDocuments {
  import opened Wrappers
  import opened Lexemes
  import opened Structs
  import opened Printer
  import opened Parser
  import opened Registry
  import opened EnvoyObjects
  import opened EnvoyApi

  // Every struct the views build is exact -----------------------------------------------------

  lemma ExactDecorator(c: Codec, operation: string)
    requires IsEnvoy(c)
    ensures Exact(c, Decorator(operation))
  {
    ExactByFields(c, Decorator(operation));
  }

  lemma ExactRoute(c: Codec, prefix: string, cluster: string, decorator: Pointer)
    requires IsEnvoy(c) && ExactPointer(c, EnvoyRouteDecorator, decorator)
    ensures Exact(c, Route(0, prefix, "", cluster, decorator))
  {
    var o := Route(0, prefix, "", cluster, decorator);
    hide ExactPointer;
    ExactPointerField(c, c.fields(EnvoyRoute)[4], EnvoyRouteDecorator, decorator);
    hide TypedPointer, PrintablePointer, NormPointer, ZeroValue;
    ExactByFields(c, o);
  }

  lemma ExactVirtualHost(c: Codec, name: string, domains: seq<string>, routes: seq<Pointer>)
    requires IsEnvoy(c) && ExactSlice(c, EnvoyRoute, routes)
    ensures Exact(c, VirtualHost(name, Some(domains), Slice(routes)))
  {
    ExactPointersField(c, c.fields(EnvoyHTTPVirtualHost)[2], EnvoyRoute, Slice(routes));
    hide ExactSlice, TypedElements, PrintableElements, NormElements;
    ExactByFields(c, VirtualHost(name, Some(domains), Slice(routes)));
  }

  lemma ExactTCPRoute(c: Codec, cluster: string)
    requires IsEnvoy(c)
    ensures Exact(c, TCPRoute(cluster, None, "", None, None))
  {
    ExactByFields(c, TCPRoute(cluster, None, "", None, None));
  }

  lemma ExactRouteConfig(c: Codec, hosts: Pointers, routes: Pointers)
    requires IsEnvoy(c)
    requires hosts.Slice? ==> hosts.elems != [] && ExactSlice(c, EnvoyHTTPVirtualHost, hosts.elems)
    requires routes.Slice? ==> routes.elems != [] && ExactSlice(c, EnvoyTCPRoute, routes.elems)
    ensures Exact(c, RouteConfig(hosts, routes))
  {
    ExactPointersField(c, c.fields(EnvoyRouteConfig)[0], EnvoyHTTPVirtualHost, hosts);
    ExactPointersField(c, c.fields(EnvoyRouteConfig)[1], EnvoyTCPRoute, routes);
    hide ExactField, ExactSlice;
    ExactByFields(c, RouteConfig(hosts, routes));
  }

  lemma ExactTracingConfig(c: Codec, operationName: string)
    requires IsEnvoy(c)
    ensures Exact(c, TracingConfig(operationName))
  {
    ExactByFields(c, TracingConfig(operationName));
  }

  lemma ExactStringField(c: Codec, f: Field, s: string)
    requires f.kind == StringKind
    ensures ExactField(c, f, StringV(s))
  {
  }

  lemma ExactFilterConfig(c: Codec, codecType: string, statPrefix: string, routeConfig: Pointer, filters: Pointers, tracing: Pointer)
    requires IsEnvoy(c) && ExactPointer(c, EnvoyRouteConfig, routeConfig) && ExactPointer(c, EnvoyTracingConfig, tracing)
    requires filters.Slice? ==> filters.elems != [] && ExactSlice(c, EnvoyFilter, filters.elems)
    ensures Exact(c, FilterConfig(codecType, statPrefix, routeConfig, filters, tracing))
  {
    var fs := c.fields(EnvoyFilterConfig);
    ExactStringField(c, fs[0], codecType);
    ExactStringField(c, fs[1], statPrefix);
    ExactPointerField(c, fs[2], EnvoyRouteConfig, routeConfig);
    ExactPointersField(c, fs[3], EnvoyFilter, filters);
    ExactPointerField(c, fs[4], EnvoyTracingConfig, tracing);
    hide ExactField, ExactSlice, ExactPointer;
    ExactByFields(c, FilterConfig(codecType, statPrefix, routeConfig, filters, tracing));
  }

  lemma ExactFilter(c: Codec, name: string, config: Pointer)
    requires IsEnvoy(c) && ExactPointer(c, EnvoyFilterConfig, config)
    ensures Exact(c, Filter(name, config))
  {
    ExactStringField(c, c.fields(EnvoyFilter)[0], name);
    ExactPointerField(c, c.fields(EnvoyFilter)[1], EnvoyFilterConfig, config);
    hide ExactField, ExactPointer;
    ExactByFields(c, Filter(name, config));
  }

  lemma ExactHttpFilter(c: Codec, e: Entry)
    requires IsEnvoy(c)
    ensures Exact(c, HttpFilter(e))
  {
    hide Exact, SvcName;
    var name := SvcName(e);
    var decorator := To(Decorator(e.serviceName));
    var route := Route(0, "/", "", name, decorator);
    var host := VirtualHost(name, Some(["*"]), Slice([To(route)]));
    var routes := RouteConfig(Slice([To(host)]), NilSlice);
    var router := Filter("router", To(FilterConfig("", "", Nil, NilSlice, Nil)));
    ExactDecorator(c, e.serviceName);
    ExactRoute(c, "/", name, decorator);
    ExactVirtualHost(c, name, ["*"], [To(route)]);
    ExactRouteConfig(c, Slice([To(host)]), NilSlice);
    ExactFilterConfig(c, "", "", Nil, NilSlice, Nil);
    ExactFilter(c, "router", To(FilterConfig("", "", Nil, NilSlice, Nil)));
    ExactTracingConfig(c, "egress");
    ExactFilterConfig(c, "auto", "ingress_http", To(routes), Slice([To(router)]), To(TracingConfig("egress")));
    ExactFilter(c, "envoy.http_connection_manager",
      To(FilterConfig("auto", "ingress_http", To(routes), Slice([To(router)]), To(TracingConfig("egress")))));
  }

  lemma ExactTcpFilter(c: Codec, e: Entry)
    requires IsEnvoy(c)
    ensures Exact(c, TcpFilter(e))
  {
    hide Exact, SvcName;
    var route := TCPRoute(SvcName(e), None, "", None, None);
    var routes := RouteConfig(NilSlice, Slice([To(route)]));
    ExactTCPRoute(c, SvcName(e));
    ExactRouteConfig(c, NilSlice, Slice([To(route)]));
    ExactFilterConfig(c, "", "ingress_tcp", To(routes), NilSlice, Nil);
    ExactFilter(c, "envoy.tcp_proxy", To(FilterConfig("", "ingress_tcp", To(routes), NilSlice, Nil)));
  }

  lemma ExactListener(c: Codec, net: Net, e: Entry)
    requires IsEnvoy(c)
    ensures Exact(c, ListenerOf(net, e))
  {
    hide Exact, SvcName, HttpFilter, TcpFilter;
    var filter := if e.proxyMode == "http" then HttpFilter(e) else TcpFilter(e);
    ExactHttpFilter(c, e);
    ExactTcpFilter(c, e);
    FilterTypes(e);
    var o := ListenerOf(net, e);
    ExactStringField(c, c.fields(EnvoyListener)[0], SvcName(e));
    ExactStringField(c, c.fields(EnvoyListener)[1], o.fields[1].s);
    ExactPointersField(c, c.fields(EnvoyListener)[2], EnvoyFilter, Slice([To(filter)]));
    hide ExactField;
    ExactByFields(c, o);
  }

  lemma FilterTypes(e: Entry)
    ensures HttpFilter(e).typ == EnvoyFilter && TcpFilter(e).typ == EnvoyFilter
  {
  }

  lemma ExactCluster(c: Codec, e: Entry)
    requires IsEnvoy(c)
    ensures Exact(c, ClusterOf(e))
  {
    hide SvcName;
    ExactByFields(c, ClusterOf(e));
  }

  lemma ExactService(c: Codec, net: Net, now: string, e: Entry)
    requires IsEnvoy(c)
    ensures Exact(c, ServiceOf(net, now, e))
  {
    hide SvcName;
    ExactByFields(c, ServiceOf(net, now, e));
  }

  // The documents ------------------------------------------------------------------------------

  /** Whatever the requests, and whatever the order in which the map is visited, the listener
      document is read back from its text exactly, and exactly its text is consumed. */
  lemma ListenersServed(c: Codec, net: Net, reqs: seq<Request>, order: seq<string>, rest: seq<Lexeme>)
    requires IsEnvoy(c) && IsRange(order, Run(net, map[], reqs))
    ensures var doc := LDS(Slice(Listeners(net, Run(net, map[], reqs), order)));
            ParseObject(c, Zero(c, LDSResult), MapStart, Base, PrintObject(c, doc) + rest) == Ok(doc, rest)
  {
    hide Exact, ListenerOf, Run;
    var t := Run(net, map[], reqs);
    var os := Listeners(net, t, order);
    forall i | 0 <= i < |os| ensures os[i].To? && ExactPointer(c, EnvoyListener, os[i]) {
      ExactListener(c, net, t[order[i]]);
      ListenerType(net, t[order[i]]);
    }
    ExactPointersField(c, c.fields(LDSResult)[0], EnvoyListener, Slice(os));
    hide ExactField;
    ExactByFields(c, LDS(Slice(os)));
    ExactRoundTrip(c, LDS(Slice(os)), rest);
  }

  lemma ListenerType(net: Net, e: Entry)
    ensures ListenerOf(net, e).typ == EnvoyListener
  {
  }

  /** The same for the cluster document. */
  lemma ClustersServed(c: Codec, net: Net, reqs: seq<Request>, order: seq<string>, rest: seq<Lexeme>)
    requires IsEnvoy(c) && IsRange(order, Run(net, map[], reqs))
    ensures var doc := CDS(Slice(Clusters(Run(net, map[], reqs), order)));
            ParseObject(c, Zero(c, CDSResult), MapStart, Base, PrintObject(c, doc) + rest) == Ok(doc, rest)
  {
    hide Exact, Run, SvcName;
    var t := Run(net, map[], reqs);
    var os := Clusters(t, order);
    forall i | 0 <= i < |os| ensures os[i].To? && ExactPointer(c, EnvoyCluster, os[i]) {
      ExactCluster(c, t[order[i]]);
    }
    ExactPointersField(c, c.fields(CDSResult)[0], EnvoyCluster, Slice(os));
    hide ExactField;
    ExactByFields(c, CDS(Slice(os)));
    ExactRoundTrip(c, CDS(Slice(os)), rest);
  }

  lemma ExactAnswer(c: Codec, host: Obj, name: string)
    requires IsEnvoy(c) && Exact(c, host) && host.typ == EnvoyService
    ensures Exact(c, SDS("", Slice([To(host)]), name))
  {
    hide Exact;
    ExactStringField(c, c.fields(SDSResult)[0], "");
    ExactPointersField(c, c.fields(SDSResult)[1], EnvoyService, Slice([To(host)]));
    ExactStringField(c, c.fields(SDSResult)[2], name);
    hide ExactField;
    ExactByFields(c, SDS("", Slice([To(host)]), name));
  }

  /** The same for the answer to a service request, at any time of day. */
  lemma RegistrationServed(c: Codec, net: Net, now: string, t: Table, name: Option<string>, rest: seq<Lexeme>)
    requires IsEnvoy(c) && Registration(net, now, t, name).Found?
    ensures var doc := Registration(net, now, t, name).doc;
            ParseObject(c, Zero(c, SDSResult), MapStart, Base, PrintObject(c, doc) + rest) == Ok(doc, rest)
  {
    hide Exact, SvcName;
    var e := t[name.value];
    var os := [To(ServiceOf(net, now, e))];
    ExactService(c, net, now, e);
    ExactAnswer(c, ServiceOf(net, now, e), name.value);
    ExactRoundTrip(c, SDS("", Slice(os), name.value), rest);
  }

  // Agreement ------------------------------------------------------------------------------------

  /** The first field, the name, of each listed struct. */
  function Names(os: seq<Pointer>): seq<string>
    requires forall i :: 0 <= i < |os| ==> os[i].To? && os[i].target.fields != [] && os[i].target.fields[0].StringV?
  {
    seq(|os|, i requires 0 <= i < |os| => os[i].target.fields[0].s)
  }

  /** In one state of the registrar, reached by any requests: the listeners and the clusters
      are listed under exactly the keys of the table, each once, and a service is found exactly
      under those names. */
  lemma ViewsAgree(net: Net, now: string, reqs: seq<Request>, lo: seq<string>, co: seq<string>, name: string)
    requires IsRange(lo, Run(net, map[], reqs)) && IsRange(co, Run(net, map[], reqs))
    ensures var t := Run(net, map[], reqs);
            && Names(Listeners(net, t, lo)) == lo && Names(Clusters(t, co)) == co
            && (name in lo <==> name in co)
            && (name in lo <==> Registration(net, now, t, Some(name)).Found?)
  {
    RunConsistent(net, map[], reqs);
    hide Run;
    ListenerNames(net, Run(net, map[], reqs), lo);
    ClusterNames(Run(net, map[], reqs), co);
  }

  lemma ListenerNames(net: Net, t: Table, order: seq<string>)
    requires Consistent(t) && IsRange(order, t)
    ensures Names(Listeners(net, t, order)) == order
  {
    hide SvcName, HttpFilter, TcpFilter;
    assert forall i :: 0 <= i < |order| ==> Listeners(net, t, order)[i].target.fields[0].s == SvcName(t[order[i]]) == order[i];
  }

  lemma ClusterNames(t: Table, order: seq<string>)
    requires Consistent(t) && IsRange(order, t)
    ensures Names(Clusters(t, order)) == order
  {
    hide SvcName;
    assert forall i :: 0 <= i < |order| ==> Clusters(t, order)[i].target.fields[0].s == SvcName(t[order[i]]) == order[i];
  }

  /** The clusters that a struct routes to, wherever they stand in it. */
  function Routed(o: Obj): seq<string>
    decreases o, |o.fields| + 1
  {
    if o.typ == EnvoyRoute && |o.fields| == 5 && o.fields[3].StringV? then [o.fields[3].s]
    else if o.typ == EnvoyTCPRoute && |o.fields| == 5 && o.fields[0].StringV? then [o.fields[0].s]
    else RoutedFrom(o, 0)
  }

  function RoutedFrom(o: Obj, i: nat): seq<string>
    decreases o, |o.fields| - i
  {
    if i >= |o.fields| then [] else RoutedValue(o.fields[i]) + RoutedFrom(o, i + 1)
  }

  function RoutedValue(v: Value): seq<string>
    decreases v
  {
    match v
    case PointerV(p) => RoutedPointer(p)
    case PointersV(Slice(os)) => RoutedPointers(os)
    case _ => []
  }

  function RoutedPointer(p: Pointer): seq<string>
    decreases p
  {
    if p.Nil? then [] else Routed(p.target)
  }

  function RoutedPointers(os: seq<Pointer>): seq<string>
    decreases os
  {
    if os == [] then [] else RoutedPointer(os[0]) + RoutedPointers(os[1..])
  }

  lemma RoutedOne(p: Pointer)
    ensures RoutedPointers([p]) == RoutedPointer(p)
  {
    assert [p][1..] == [];
  }

  lemma RoutedFields2(o: Obj)
    requires |o.fields| == 2
    ensures RoutedFrom(o, 0) == RoutedValue(o.fields[0]) + RoutedValue(o.fields[1])
  {
    assert RoutedFrom(o, 1) == RoutedValue(o.fields[1]) + RoutedFrom(o, 2);
  }

  lemma RoutedFields3(o: Obj)
    requires |o.fields| == 3
    ensures RoutedFrom(o, 0) == RoutedValue(o.fields[0]) + (RoutedValue(o.fields[1]) + RoutedValue(o.fields[2]))
  {
    assert RoutedFrom(o, 2) == RoutedValue(o.fields[2]) + RoutedFrom(o, 3);
    assert RoutedFrom(o, 1) == RoutedValue(o.fields[1]) + RoutedFrom(o, 2);
  }

  lemma RoutedFields5(o: Obj)
    requires |o.fields| == 5
    ensures RoutedFrom(o, 0) == RoutedValue(o.fields[0]) + (RoutedValue(o.fields[1]) + (RoutedValue(o.fields[2])
                                + (RoutedValue(o.fields[3]) + RoutedValue(o.fields[4]))))
  {
    assert RoutedFrom(o, 4) == RoutedValue(o.fields[4]) + RoutedFrom(o, 5);
    assert RoutedFrom(o, 3) == RoutedValue(o.fields[3]) + RoutedFrom(o, 4);
    assert RoutedFrom(o, 2) == RoutedValue(o.fields[2]) + RoutedFrom(o, 3);
    assert RoutedFrom(o, 1) == RoutedValue(o.fields[1]) + RoutedFrom(o, 2);
  }

  lemma HttpFilterRoutes(e: Entry)
    ensures Routed(HttpFilter(e)) == [SvcName(e)]
  {
    hide SvcName, RoutedFrom, RoutedPointers;
    var name := SvcName(e);
    var route := Route(0, "/", "", name, To(Decorator(e.serviceName)));
    var host := VirtualHost(name, Some(["*"]), Slice([To(route)]));
    RoutedOne(To(route));
    RoutedFields3(host);
    assert Routed(host) == [name];
    var routes := RouteConfig(Slice([To(host)]), NilSlice);
    RoutedOne(To(host));
    RoutedFields2(routes);
    assert Routed(routes) == [name];
    var inner := FilterConfig("", "", Nil, NilSlice, Nil);
    RoutedFields5(inner);
    assert Routed(inner) == [];
    var router := Filter("router", To(inner));
    RoutedFields2(router);
    assert Routed(router) == [];
    var tracing := TracingConfig("egress");
    TracingRoutesNothing();
    var config := FilterConfig("auto", "ingress_http", To(routes), Slice([To(router)]), To(tracing));
    RoutedOne(To(router));
    RoutedFields5(config);
    assert Routed(config) == [name];
    RoutedFields2(HttpFilter(e));
  }

  lemma TracingRoutesNothing()
    ensures Routed(TracingConfig("egress")) == []
  {
    assert RoutedFrom(TracingConfig("egress"), 0) == [] + RoutedFrom(TracingConfig("egress"), 1);
  }

  lemma TcpFilterRoutes(e: Entry)
    ensures Routed(TcpFilter(e)) == [SvcName(e)]
  {
    hide SvcName, RoutedFrom, RoutedPointers;
    var route := TCPRoute(SvcName(e), None, "", None, None);
    var routes := RouteConfig(NilSlice, Slice([To(route)]));
    RoutedOne(To(route));
    RoutedFields2(routes);
    assert Routed(routes) == [SvcName(e)];
    var config := FilterConfig("", "ingress_tcp", To(routes), NilSlice, Nil);
    RoutedFields5(config);
    assert Routed(config) == [SvcName(e)];
    RoutedFields2(TcpFilter(e));
  }

  lemma ListenerRoutes(net: Net, e: Entry)
    ensures Routed(ListenerOf(net, e)) == [SvcName(e)]
  {
    HttpFilterRoutes(e);
    TcpFilterRoutes(e);
    hide SvcName, RoutedFrom, RoutedPointers, HttpFilter, TcpFilter;
    RoutedOne(To(if e.proxyMode == "http" then HttpFilter(e) else TcpFilter(e)));
    RoutedFields3(ListenerOf(net, e));
  }

  /** From request to answer: what a service request returns is decided by the last request
      about that name, and carries that request's backend. */
  lemma LastRequestServed(net: Net, now: string, reqs: seq<Request>, name: string)
    ensures Registration(net, now, Run(net, map[], reqs), Some(name))
            == match LastAbout(reqs, name)
               case None => NotFound
               case Some(r) =>
                 if r.action != REGISTER then NotFound
                 else Found(SDS("", Slice([To(Service(net.ipString(net.parseIP(r.backendAddr)), now, r.backendPort, "1", name,
                                                      "docker service", Some(map[]), []))]), name))
  {
    LastWriterWins(net, map[], reqs, name);
    LastAboutIsAbout(reqs, name);
    if LastAbout(reqs, name).Some? {
      EntryName(net, LastAbout(reqs, name).value);
    }
    hide Run, LastAbout, NameOf, SvcName;
  }

  /** A listener's mode: the filter it starts with. */
  function FirstFilterName(listener: Obj): string
    requires |listener.fields| == 3 && listener.fields[2].PointersV? && listener.fields[2].objs.Slice?
    requires listener.fields[2].objs.elems != [] && listener.fields[2].objs.elems[0].To?
    requires var f := listener.fields[2].objs.elems[0].target; f.fields != [] && f.fields[0].StringV?
  {
    listener.fields[2].objs.elems[0].target.fields[0].s
  }

  /** From request to listener: a name registered last by `r` is listened for at `r`'s frontend,
      over HTTP if and only if `r` asks for that mode. */
  lemma LastRequestListens(net: Net, reqs: seq<Request>, r: Request)
    requires r.action == REGISTER && LastAbout(reqs, NameOf(r)) == Some(r)
    ensures var t := Run(net, map[], reqs);
            && NameOf(r) in t
            && var l := ListenerOf(net, t[NameOf(r)]);
               && l.fields[0] == StringV(NameOf(r))
               && l.fields[1] == StringV("tcp://" + net.ipString(net.parseIP(r.frontendAddr)) + ":" + Rendered(r.frontendPort))
               && (FirstFilterName(l) == "envoy.http_connection_manager" <==> r.proxyMode == "http")
               && (FirstFilterName(l) == "envoy.tcp_proxy" <==> r.proxyMode != "http")
  {
    LastWriterWins(net, map[], reqs, NameOf(r));
    EntryName(net, r);
    FilterNames(RequestToEntry(net, r));
    hide Run, LastAbout, NameOf, SvcName, HttpFilter, TcpFilter;
  }

  lemma FilterNames(e: Entry)
    ensures HttpFilter(e).fields != [] && HttpFilter(e).fields[0] == StringV("envoy.http_connection_manager")
    ensures TcpFilter(e).fields != [] && TcpFilter(e).fields[0] == StringV("envoy.tcp_proxy")
    ensures "envoy.http_connection_manager" != "envoy.tcp_proxy"
  {
    assert "envoy.http_connection_manager"[6] == 'h' && "envoy.tcp_proxy"[6] == 't';
  }
}
