/** The served documents, member by member, as JSON. */
module ServedJson {
  import opened Wrappers
  import opened Lexemes
  import opened Structs
  import opened Printer
  import opened JsonGrammar
  import opened PrintedJson
  import opened EnvoyObjects
  import opened Registry
  import opened EnvoyApi
  import opened ServedDocuments
  import EnvoyProxy
  import Marshal

  // The documents, written out ----------------------------------------------------------------------

  function S(s: string): Json {
    Atom(Str(s))
  }

  function M(key: string, value: Json): seq<JsonMember> {
    [JsonMember(key, value)]
  }

  function ClusterJson(name: string): Json {
    Object(M("name", S(name)) + (M("type", S("sds")) + (M("connect_timeout_ms", Atom(Int(500))) +
           (M("lb_type", S("round_robin")) + M("service_name", S(name))))))
  }

  function HostJson(ip: string, now: string, port: int, name: string): Json {
    Object(M("ip_address", S(ip)) + (M("last_check_in", S(now)) + (M("port", Atom(Int(port))) + (M("revision", S("1")) +
           (M("service", S(name)) + (M("service_repo_name", S("docker service")) + M("tags", Object([]))))))))
  }

  function RouteJson(name: string, operation: string): Json {
    Object(M("timeout_ms", Atom(Int(0))) + (M("prefix", S("/")) + (M("host_rewrite", S("")) + (M("cluster", S(name)) +
           M("decorator", Object(if operation == "" then [] else M("operation", S(operation))))))))
  }

  function HttpJson(name: string, operation: string): Json {
    Object(M("name", S("envoy.http_connection_manager")) +
           M("config", Object(
             M("codec_type", S("auto")) + (M("stat_prefix", S("ingress_http")) +
             (M("route_config", Object(M("virtual_hosts", Array([Object(
                M("name", S(name)) + (M("domains", Array([S("*")])) + M("routes", Array([RouteJson(name, operation)]))))])))) +
             (M("filters", Array([Object(M("name", S("router")) + M("config", Object([])))])) +
             M("tracing", Object(M("operation_name", S("egress"))))))))))
  }

  function TcpJson(name: string): Json {
    Object(M("name", S("envoy.tcp_proxy")) +
           M("config", Object(
             M("stat_prefix", S("ingress_tcp")) +
             M("route_config", Object(M("routes", Array([Object(M("cluster", S(name)))])))))))
  }

  function ListenerJson(name: string, ip: string, port: int, filter: Json): Json {
    Object(M("name", S(name)) + (M("address", S("tcp://" + ip + ":" + Rendered(port))) + M("filters", Array([filter]))))
  }

  // The tree of each struct -------------------------------------------------------------------------

  /** What the printer writes for field `i`. */
  function One(c: Codec, o: Obj, i: nat): seq<JsonMember>
    requires i < |o.fields| == |c.fields(o.typ)|
  {
    if LeftOut(c, o, i) then [] else M(c.fields(o.typ)[i].key, ValueTree(c, o.fields[i]))
  }

  lemma Step(c: Codec, o: Obj, i: nat)
    requires i < |o.fields| == |c.fields(o.typ)|
    ensures MemberTrees(c, o, i) == One(c, o, i) + MemberTrees(c, o, i + 1)
  {
    hide ValueTree, GoEmpty;
    assert [] + MemberTrees(c, o, i + 1) == MemberTrees(c, o, i + 1);
  }

  lemma LastStep(c: Codec, o: Obj, i: nat)
    requires i < |o.fields| == |c.fields(o.typ)| && i == |o.fields| - 1
    ensures MemberTrees(c, o, i) == One(c, o, i)
  {
    hide ValueTree, GoEmpty;
    Step(c, o, i);
    assert MemberTrees(c, o, i + 1) == [];
    assert One(c, o, i) + [] == One(c, o, i);
  }

  lemma Tree1(c: Codec, o: Obj)
    requires |o.fields| == |c.fields(o.typ)| == 1
    ensures TreeOf(c, o) == Object(One(c, o, 0))
  {
    hide MemberTrees, One;
    LastStep(c, o, 0);
  }

  lemma Tree2(c: Codec, o: Obj)
    requires |o.fields| == |c.fields(o.typ)| == 2
    ensures TreeOf(c, o) == Object(One(c, o, 0) + One(c, o, 1))
  {
    hide MemberTrees, One;
    Step(c, o, 0);
    LastStep(c, o, 1);
  }

  lemma Tree3(c: Codec, o: Obj)
    requires |o.fields| == |c.fields(o.typ)| == 3
    ensures TreeOf(c, o) == Object(One(c, o, 0) + (One(c, o, 1) + One(c, o, 2)))
  {
    hide MemberTrees, One;
    Step(c, o, 0);
    Step(c, o, 1);
    LastStep(c, o, 2);
  }

  lemma Tree5(c: Codec, o: Obj)
    requires |o.fields| == |c.fields(o.typ)| == 5
    ensures TreeOf(c, o) == Object(One(c, o, 0) + (One(c, o, 1) + (One(c, o, 2) + (One(c, o, 3) + One(c, o, 4)))))
  {
    hide MemberTrees, One;
    Step(c, o, 0);
    Step(c, o, 1);
    Step(c, o, 2);
    Step(c, o, 3);
    LastStep(c, o, 4);
  }

  lemma Tree7(c: Codec, o: Obj)
    requires |o.fields| == |c.fields(o.typ)| == 7
    ensures TreeOf(c, o) == Object(One(c, o, 0) + (One(c, o, 1) + (One(c, o, 2) + (One(c, o, 3) + (One(c, o, 4) + (One(c, o, 5) + One(c, o, 6)))))))
  {
    hide MemberTrees, One;
    Step(c, o, 0);
    Step(c, o, 1);
    Step(c, o, 2);
    Step(c, o, 3);
    Step(c, o, 4);
    Step(c, o, 5);
    LastStep(c, o, 6);
  }

  lemma OneOf(c: Codec, o: Obj, i: nat, f: Field, v: Value)
    requires i < |o.fields| == |c.fields(o.typ)| && c.fields(o.typ)[i] == f && o.fields[i] == v
    ensures One(c, o, i) == if f.omitEmpty && GoEmpty(v) then [] else M(f.key, ValueTree(c, v))
  {
  }

  lemma PointerIs(c: Codec, o: Obj)
    ensures PointerTree(c, To(o)) == TreeOf(c, o)
  {
  }

  lemma OnePointer(c: Codec, p: Pointer)
    ensures PointerTrees(c, [p]) == [PointerTree(c, p)]
  {
    assert [p][1..] == [];
  }

  lemma ClusterTree(c: Codec, e: Entry)
    requires IsEnvoy(c)
    ensures TreeOf(c, ClusterOf(e)) == ClusterJson(SvcName(e))
  {
    hide SvcName, TreeOf;
    Tree5(c, ClusterOf(e));
  }

  lemma HostTree(c: Codec, net: Net, now: string, e: Entry)
    requires IsEnvoy(c)
    ensures TreeOf(c, ServiceOf(net, now, e)) == HostJson(net.ipString(e.backendIP), now, e.backendPort, SvcName(e))
  {
    hide SvcName, TreeOf;
    Tree7(c, ServiceOf(net, now, e));
    assert TagTrees(map[], []) == [];
  }

  lemma DecoratorTree(c: Codec, operation: string)
    requires IsEnvoy(c)
    ensures TreeOf(c, Decorator(operation)) == Object(if operation == "" then [] else M("operation", S(operation)))
  {
    hide TreeOf;
    Tree1(c, Decorator(operation));
  }

  lemma RouteTree(c: Codec, name: string, operation: string)
    requires IsEnvoy(c)
    ensures TreeOf(c, Route(0, "/", "", name, To(Decorator(operation)))) == RouteJson(name, operation)
  {
    var o := Route(0, "/", "", name, To(Decorator(operation)));
    DecoratorTree(c, operation);
    PointerIs(c, Decorator(operation));
    hide TreeOf, PointerTree, One;
    Tree5(c, o);
    var fs := EnvoyFields(EnvoyRoute);
    OneOf(c, o, 0, fs[0], IntV(0));
    OneOf(c, o, 1, fs[1], StringV("/"));
    OneOf(c, o, 2, fs[2], StringV(""));
    OneOf(c, o, 3, fs[3], StringV(name));
    OneOf(c, o, 4, fs[4], PointerV(To(Decorator(operation))));
  }

  lemma HostsTree(c: Codec, name: string, domain: string, route: Obj)
    requires IsEnvoy(c)
    ensures TreeOf(c, VirtualHost(name, Some([domain]), Slice([To(route)])))
            == Object(M("name", S(name)) + (M("domains", Array([S(domain)])) + M("routes", Array([TreeOf(c, route)]))))
  {
    hide TreeOf;
    Tree3(c, VirtualHost(name, Some([domain]), Slice([To(route)])));
    OnePointer(c, To(route));
    assert [domain][1..] == [];
    assert StringTrees([domain]) == [S(domain)];
  }

  lemma RouteConfigTree(c: Codec, hosts: Pointers, routes: Pointers)
    requires IsEnvoy(c)
    ensures TreeOf(c, RouteConfig(hosts, routes))
            == Object((if hosts == NilSlice || hosts.elems == [] then [] else M("virtual_hosts", Array(PointerTrees(c, hosts.elems)))) +
                      (if routes == NilSlice || routes.elems == [] then [] else M("routes", Array(PointerTrees(c, routes.elems)))))
  {
    hide TreeOf;
    Tree2(c, RouteConfig(hosts, routes));
  }

  lemma FilterConfigTree(c: Codec, codecType: string, statPrefix: string, routes: Pointer, filters: Pointers, tracing: Pointer)
    requires IsEnvoy(c)
    ensures TreeOf(c, FilterConfig(codecType, statPrefix, routes, filters, tracing))
            == Object((if codecType == "" then [] else M("codec_type", S(codecType))) +
                      ((if statPrefix == "" then [] else M("stat_prefix", S(statPrefix))) +
                      ((if routes == Nil then [] else M("route_config", PointerTree(c, routes))) +
                      ((if filters == NilSlice || filters.elems == [] then [] else M("filters", Array(PointerTrees(c, filters.elems)))) +
                      (if tracing == Nil then [] else M("tracing", PointerTree(c, tracing)))))))
  {
    var o := FilterConfig(codecType, statPrefix, routes, filters, tracing);
    hide TreeOf, One, PointerTree, PointerTrees;
    Tree5(c, o);
    var fs := EnvoyFields(EnvoyFilterConfig);
    OneOf(c, o, 0, fs[0], StringV(codecType));
    OneOf(c, o, 1, fs[1], StringV(statPrefix));
    OneOf(c, o, 2, fs[2], PointerV(routes));
    OneOf(c, o, 3, fs[3], PointersV(filters));
    OneOf(c, o, 4, fs[4], PointerV(tracing));
  }

  lemma FilterTree(c: Codec, name: string, config: Obj)
    requires IsEnvoy(c)
    ensures TreeOf(c, Filter(name, To(config))) == Object(M("name", S(name)) + M("config", TreeOf(c, config)))
  {
    PointerIs(c, config);
    hide TreeOf, PointerTree;
    Tree2(c, Filter(name, To(config)));
  }

  /** A TCP route with whatever lists. */
  lemma TCPRouteTree(c: Codec, cluster: string, destIPs: Option<seq<string>>, destPorts: string, sourceIPs: Option<seq<string>>,
                     sourcePorts: Option<seq<string>>)
    requires IsEnvoy(c)
    ensures TreeOf(c, TCPRoute(cluster, destIPs, destPorts, sourceIPs, sourcePorts))
            == Object(M("cluster", S(cluster)) +
                      ((if destIPs == None || destIPs.value == [] then [] else M("destination_ip_list", Array(StringTrees(destIPs.value)))) +
                      ((if destPorts == "" then [] else M("destination_ports", S(destPorts))) +
                      ((if sourceIPs == None || sourceIPs.value == [] then [] else M("source_ip_list", Array(StringTrees(sourceIPs.value)))) +
                      (if sourcePorts == None || sourcePorts.value == [] then [] else M("source_ports", Array(StringTrees(sourcePorts.value))))))))
  {
    var o := TCPRoute(cluster, destIPs, destPorts, sourceIPs, sourcePorts);
    hide TreeOf, One, StringTrees;
    Tree5(c, o);
    var fs := EnvoyFields(EnvoyTCPRoute);
    OneOf(c, o, 0, fs[0], StringV(cluster));
    OneOf(c, o, 1, fs[1], StringsV(destIPs));
    OneOf(c, o, 2, fs[2], StringV(destPorts));
    OneOf(c, o, 3, fs[3], StringsV(sourceIPs));
    OneOf(c, o, 4, fs[4], StringsV(sourcePorts));
  }

  lemma TracingTree(c: Codec, operationName: string)
    requires IsEnvoy(c)
    ensures TreeOf(c, TracingConfig(operationName)) == Object(M("operation_name", S(operationName)))
  {
    hide TreeOf;
    Tree1(c, TracingConfig(operationName));
  }

  /** The empty config of the router filter is `{}`. */
  lemma EmptyConfigTree(c: Codec)
    requires IsEnvoy(c)
    ensures TreeOf(c, FilterConfig("", "", Nil, NilSlice, Nil)) == Object([])
  {
    hide TreeOf;
    FilterConfigTree(c, "", "", Nil, NilSlice, Nil);
  }

  /** The text of that config, and of the one of a TCP filter: two members. */
  lemma ConfigTexts(c: Codec, e: Entry)
    requires IsEnvoy(c)
    ensures PrintObject(c, FilterConfig("", "", Nil, NilSlice, Nil)) == [BeginObject, EndObject]
    ensures At(TreeOf(c, TcpFilter(e)), "config")
            == Some(Object(M("stat_prefix", S("ingress_tcp")) +
                           M("route_config", Object(M("routes", Array([Object(M("cluster", S(SvcName(e))))]))))))
  {
    var empty := FilterConfig("", "", Nil, NilSlice, Nil);
    TcpTree(c, e);
    var config := Object(M("stat_prefix", S("ingress_tcp")) +
                         M("route_config", Object(M("routes", Array([Object(M("cluster", S(SvcName(e))))])))));
    FindCons("config", config, [], "config");
    FindCons("name", S("envoy.tcp_proxy"), M("config", config), "config");
    hide PrintValue, TreeOf, SvcName;
    assert forall i :: 0 <= i < 5 ==> Omitted(EnvoyFields(EnvoyFilterConfig)[i], empty.fields[i]);
    NothingPrinted(c, empty, 0);
  }

  lemma {:induction false} NothingPrinted(c: Codec, o: Obj, i: nat)
    requires |o.fields| == |c.fields(o.typ)| && forall k :: 0 <= k < |o.fields| ==> Omitted(c.fields(o.typ)[k], o.fields[k])
    ensures PrintMembers(c, o, i, true).out == [EndObject]
    decreases |o.fields| - i
  {
    if i < |o.fields| {
      NothingPrinted(c, o, i + 1);
    }
  }

  lemma HttpTree(c: Codec, e: Entry)
    requires IsEnvoy(c)
    ensures TreeOf(c, HttpFilter(e)) == HttpJson(SvcName(e), e.serviceName)
  {
    hide SvcName, TreeOf, PointerTrees;
    var name := SvcName(e);
    var route := Route(0, "/", "", name, To(Decorator(e.serviceName)));
    var host := VirtualHost(name, Some(["*"]), Slice([To(route)]));
    var routes := RouteConfig(Slice([To(host)]), NilSlice);
    var empty := FilterConfig("", "", Nil, NilSlice, Nil);
    var router := Filter("router", To(empty));
    var tracing := TracingConfig("egress");
    var config := FilterConfig("auto", "ingress_http", To(routes), Slice([To(router)]), To(tracing));
    RouteTree(c, name, e.serviceName);
    HostsTree(c, name, "*", route);
    OnePointer(c, To(host));
    RouteConfigTree(c, Slice([To(host)]), NilSlice);
    var hosts := M("virtual_hosts", Array([TreeOf(c, host)]));
    assert hosts + [] == hosts;
    EmptyConfigTree(c);
    FilterTree(c, "router", empty);
    OnePointer(c, To(router));
    TracingTree(c, "egress");
    FilterConfigTree(c, "auto", "ingress_http", To(routes), Slice([To(router)]), To(tracing));
    FilterTree(c, "envoy.http_connection_manager", config);
  }

  lemma TcpTree(c: Codec, e: Entry)
    requires IsEnvoy(c)
    ensures TreeOf(c, TcpFilter(e)) == TcpJson(SvcName(e))
  {
    hide SvcName, TreeOf, PointerTrees;
    var name := SvcName(e);
    var route := TCPRoute(name, None, "", None, None);
    var routes := RouteConfig(NilSlice, Slice([To(route)]));
    var config := FilterConfig("", "ingress_tcp", To(routes), NilSlice, Nil);
    TCPRouteTree(c, name, None, "", None, None);
    Nothing(M("cluster", S(name)));
    OnePointer(c, To(route));
    RouteConfigTree(c, NilSlice, Slice([To(route)]));
    var list := M("routes", Array([TreeOf(c, route)]));
    assert [] + list == list;
    FilterConfigTree(c, "", "ingress_tcp", To(routes), NilSlice, Nil);
    var prefix, inner := M("stat_prefix", S("ingress_tcp")), M("route_config", TreeOf(c, routes));
    Nothing(inner);
    assert [] + (prefix + inner) == prefix + inner;
    FilterTree(c, "envoy.tcp_proxy", config);
  }

  lemma Nothing(ms: seq<JsonMember>)
    ensures ms + ([] + []) == ms && ms + ([] + ([] + ([] + []))) == ms
  {
  }

  lemma ListenerTree(c: Codec, net: Net, e: Entry)
    requires IsEnvoy(c)
    ensures TreeOf(c, ListenerOf(net, e))
            == ListenerJson(SvcName(e), net.ipString(e.frontendIP), e.frontendPort,
                            if e.proxyMode == "http" then HttpJson(SvcName(e), e.serviceName) else TcpJson(SvcName(e)))
  {
    HttpTree(c, e);
    TcpTree(c, e);
    hide SvcName, TreeOf, HttpFilter, TcpFilter, HttpJson, TcpJson;
    Tree3(c, ListenerOf(net, e));
    OnePointer(c, To(if e.proxyMode == "http" then HttpFilter(e) else TcpFilter(e)));
  }

  // The texts ---------------------------------------------------------------------------------------

  lemma {:induction false} TreesOf(c: Codec, os: seq<Pointer>)
    requires forall i :: 0 <= i < |os| ==> os[i].To?
    ensures PointerTrees(c, os) == seq(|os|, i requires 0 <= i < |os| => TreeOf(c, os[i].target))
    decreases os
  {
    if os != [] {
      hide TreeOf;
      TreesOf(c, os[1..]);
    }
  }

  /** `text` is this JSON object with one member, a list. */
  ghost predicate IsList(text: seq<Lexeme>, key: string, elems: seq<Json>) {
    Compact(text) == JsonText(Object([JsonMember(key, Array(elems))]), [])
  }

  /** The clusters of the document, in this order. */
  function ClustersJson(order: seq<string>): seq<Json> {
    seq(|order|, i requires 0 <= i < |order| => ClusterJson(order[i]))
  }

  /** The cluster document is, for every entry in the order of some range, this cluster. */
  lemma ClustersText(c: Codec, net: Net, reqs: seq<Request>, order: seq<string>)
    requires IsEnvoy(c) && IsRange(order, Run(net, map[], reqs))
    ensures IsList(PrintObject(c, CDS(Slice(Clusters(Run(net, map[], reqs), order)))), "clusters", ClustersJson(order))
  {
    RunConsistent(net, map[], reqs);
    var t := Run(net, map[], reqs);
    hide Run, TreeOf, PrintObject, ClustersJson, Clusters, Exact, IsList, PointerTrees, ExactSlice;
    ClustersTrees(c, t, order);
    ListText(c, CDS(Slice(Clusters(t, order))), Clusters(t, order), EnvoyCluster);
  }

  lemma ClustersTrees(c: Codec, t: Table, order: seq<string>)
    requires IsEnvoy(c) && Consistent(t) && IsRange(order, t)
    ensures var os := Clusters(t, order); ExactSlice(c, EnvoyCluster, os) && PointerTrees(c, os) == ClustersJson(order)
  {
    hide TreeOf, SvcName, ClusterOf, ClusterJson, Exact, PointerTrees, EnvoyFields;
    var os := Clusters(t, order);
    forall i | 0 <= i < |os| ensures os[i].To? && TreeOf(c, os[i].target) == ClusterJson(order[i]) && ExactPointer(c, EnvoyCluster, os[i]) {
      ClusterTree(c, t[order[i]]);
      ExactCluster(c, t[order[i]]);
      ClusterType(t[order[i]]);
    }
    TreesOf(c, os);
    assert PointerTrees(c, os) == ClustersJson(order);
  }

  lemma ClusterType(e: Entry)
    ensures ClusterOf(e).typ == EnvoyCluster
  {
  }

  /** A document that is a list of exact structs. */
  lemma ListText(c: Codec, doc: Obj, os: seq<Pointer>, t: TypeName)
    requires IsEnvoy(c) && |c.fields(doc.typ)| == 1 && c.fields(doc.typ)[0].kind == PointersKind(t) && !c.fields(doc.typ)[0].omitEmpty
    requires doc.fields == [PointersV(Slice(os))] && ExactSlice(c, t, os)
    ensures IsList(PrintObject(c, doc), c.fields(doc.typ)[0].key, PointerTrees(c, os))
  {
    var f := c.fields(doc.typ)[0];
    ExactPointersField(c, f, t, Slice(os));
    hide TreeOf, PrintObject, Compact, JsonText, ExactField, ExactSlice, PointerTrees;
    ExactByFields(c, doc);
    ExactHasNoNil(c, doc);
    Tree1(c, doc);
    OneOf(c, doc, 0, f, PointersV(Slice(os)));
    ExactIsTyped(c, doc);
    PrintedTree(c, doc, TreeOf(c, doc));
  }

  lemma ExactIsTyped(c: Codec, o: Obj)
    requires Exact(c, o)
    ensures Typed(c, o) && Printable(o)
  {
  }

  lemma ExactHasNoNil(c: Codec, o: Obj)
    requires Exact(c, o)
    ensures NoNil(o)
  {
    PrintableHasNoNil(o);
  }

  lemma {:induction false} PrintableHasNoNil(o: Obj)
    requires Printable(o)
    ensures NoNil(o)
    decreases o
  {
    forall i | 0 <= i < |o.fields| ensures NoNilValue(o.fields[i]) {
      PrintableValueHasNoNil(o.fields[i]);
    }
  }

  lemma {:induction false} PrintableValueHasNoNil(v: Value)
    requires PrintableValue(v)
    ensures NoNilValue(v)
    decreases v
  {
    match v
    case PointerV(p) => PrintablePointerHasNoNil(p);
    case PointersV(Slice(os)) => PrintableElementsHaveNoNil(os);
    case _ =>
  }

  lemma {:induction false} PrintablePointerHasNoNil(p: Pointer)
    requires PrintablePointer(p)
    ensures NoNilPointer(p)
    decreases p
  {
    if p.To? {
      PrintableHasNoNil(p.target);
    }
  }

  lemma {:induction false} PrintableElementsHaveNoNil(os: seq<Pointer>)
    requires PrintableElements(os)
    ensures NoNilElements(os)
    decreases os
  {
    if os != [] {
      PrintablePointerHasNoNil(os[0]);
      PrintableElementsHaveNoNil(os[1..]);
    }
  }

  /** The listener that entry `e`, filed under `name`, is served as. */
  function Served(net: Net, name: string, e: Entry): Json {
    ListenerJson(name, net.ipString(e.frontendIP), e.frontendPort,
                 if e.proxyMode == "http" then HttpJson(name, e.serviceName) else TcpJson(name))
  }

  /** The listeners of the document, in this order. */
  function ListenersJson(net: Net, t: Table, order: seq<string>): seq<Json>
    requires forall i :: 0 <= i < |order| ==> order[i] in t
  {
    seq(|order|, i requires 0 <= i < |order| => Served(net, order[i], t[order[i]]))
  }

  /** The listener document is, for every entry in the order of some range, this listener. */
  lemma ListenersText(c: Codec, net: Net, reqs: seq<Request>, order: seq<string>)
    requires IsEnvoy(c) && IsRange(order, Run(net, map[], reqs))
    ensures var t := Run(net, map[], reqs);
            IsList(PrintObject(c, LDS(Slice(Listeners(net, t, order)))), "listeners", ListenersJson(net, t, order))
  {
    RunConsistent(net, map[], reqs);
    var t := Run(net, map[], reqs);
    hide Run, TreeOf, PrintObject, ListenersJson, Listeners, Exact, IsList, PointerTrees, ExactSlice;
    ListenersTrees(c, net, t, order);
    ListText(c, LDS(Slice(Listeners(net, t, order))), Listeners(net, t, order), EnvoyListener);
  }

  lemma ListenersTrees(c: Codec, net: Net, t: Table, order: seq<string>)
    requires IsEnvoy(c) && Consistent(t) && IsRange(order, t)
    ensures var os := Listeners(net, t, order);
            ExactSlice(c, EnvoyListener, os) && PointerTrees(c, os) == ListenersJson(net, t, order)
  {
    hide TreeOf, SvcName, ListenerOf, Served, Exact, PointerTrees, EnvoyFields;
    var os := Listeners(net, t, order);
    forall i | 0 <= i < |os| ensures os[i].To? && TreeOf(c, os[i].target) == Served(net, order[i], t[order[i]]) && ExactPointer(c, EnvoyListener, os[i]) {
      OneServed(c, net, t[order[i]]);
    }
    TreesOf(c, os);
    assert PointerTrees(c, os) == ListenersJson(net, t, order);
  }

  lemma OneServed(c: Codec, net: Net, e: Entry)
    requires IsEnvoy(c)
    ensures var o := ListenerOf(net, e);
            TreeOf(c, o) == Served(net, SvcName(e), e) && Exact(c, o) && o.typ == EnvoyListener
  {
    ListenerTree(c, net, e);
    ExactListener(c, net, e);
    ListenerType(net, e);
  }

  /** The answer to a service request for `name`, filed there as `e`. */
  function AnswerJson(net: Net, now: string, name: string, e: Entry): Json {
    Object(M("env", S("")) + (M("hosts", Array([HostJson(net.ipString(e.backendIP), now, e.backendPort, name)])) + M("service", S(name))))
  }

  lemma AnswerText(c: Codec, net: Net, now: string, reqs: seq<Request>, name: string)
    requires IsEnvoy(c)
    ensures var t := Run(net, map[], reqs); var a := Registration(net, now, t, Some(name));
            && (a.Found? <==> name in t)
            && (a.Found? ==> Compact(PrintObject(c, a.doc)) == JsonText(AnswerJson(net, now, name, t[name]), []))
  {
    RunConsistent(net, map[], reqs);
    var t := Run(net, map[], reqs);
    hide Run, SvcName, PrintObject, Compact, JsonText, AnswerJson, ServiceOf;
    if name in t {
      AnswerDoc(c, net, now, t[name]);
    }
  }

  lemma AnswerDoc(c: Codec, net: Net, now: string, e: Entry)
    requires IsEnvoy(c)
    ensures Compact(PrintObject(c, SDS("", Slice([To(ServiceOf(net, now, e))]), SvcName(e))))
            == JsonText(AnswerJson(net, now, SvcName(e), e), [])
  {
    var host := ServiceOf(net, now, e);
    var doc := SDS("", Slice([To(host)]), SvcName(e));
    HostTree(c, net, now, e);
    ExactService(c, net, now, e);
    ServiceType(net, now, e);
    hide TreeOf, PrintObject, Compact, JsonText, SvcName, Exact, HostJson, ServiceOf;
    ExactAnswer(c, host, SvcName(e));
    ExactHasNoNil(c, doc);
    ExactIsTyped(c, doc);
    AnswerTree(c, host, SvcName(e));
    PrintedTree(c, doc, TreeOf(c, doc));
  }

  lemma AnswerTree(c: Codec, host: Obj, name: string)
    requires IsEnvoy(c)
    ensures TreeOf(c, SDS("", Slice([To(host)]), name))
            == Object(M("env", S("")) + (M("hosts", Array([TreeOf(c, host)])) + M("service", S(name))))
  {
    hide TreeOf;
    Tree3(c, SDS("", Slice([To(host)]), name));
    OnePointer(c, To(host));
    PointerIs(c, host);
  }

  lemma ServiceType(net: Net, now: string, e: Entry)
    ensures ServiceOf(net, now, e).typ == EnvoyService
  {
  }

  // What Envoy makes of them --------------------------------------------------------------------------

  /** The value under a key. */
  function At(j: Json, key: string): Option<Json> {
    if j.Object? then Find(j.members, key) else None
  }

  function Find(ms: seq<JsonMember>, key: string): Option<Json> {
    if ms == [] then None
    else if ms[0].key == key then Some(ms[0].value)
    else Find(ms[1..], key)
  }

  lemma FindCons(key: string, value: Json, ms: seq<JsonMember>, k: string)
    ensures Find(M(key, value) + ms, k) == if k == key then Some(value) else Find(ms, k)
    ensures Find(M(key, value), k) == if k == key then Some(value) else None
  {
    assert (M(key, value) + ms)[1..] == ms;
    assert M(key, value)[1..] == [];
  }

  lemma ClusterMembers(name: string)
    ensures At(ClusterJson(name), "name") == At(ClusterJson(name), "service_name") == Some(S(name))
    ensures At(ClusterJson(name), "type") == Some(S("sds")) && At(ClusterJson(name), "lb_type") == Some(S("round_robin"))
    ensures At(ClusterJson(name), "connect_timeout_ms") == Some(Atom(Int(500)))
  {
    forall k: string
      ensures At(ClusterJson(name), k)
              == if k == "name" then Some(S(name)) else if k == "type" then Some(S("sds"))
                 else if k == "connect_timeout_ms" then Some(Atom(Int(500)))
                 else if k == "lb_type" then Some(S("round_robin")) else if k == "service_name" then Some(S(name)) else None
    {
      hide Find;
      var m5 := M("service_name", S(name));
      var m4 := M("lb_type", S("round_robin")) + m5;
      var m3 := M("connect_timeout_ms", Atom(Int(500))) + m4;
      var m2 := M("type", S("sds")) + m3;
      FindCons("service_name", S(name), [], k);
      FindCons("lb_type", S("round_robin"), m5, k);
      FindCons("connect_timeout_ms", Atom(Int(500)), m4, k);
      FindCons("type", S("sds"), m3, k);
      FindCons("name", S(name), m2, k);
    }
  }

  /** From cluster to host, the way Envoy goes. In one reachable state, whatever JSON object the
      text of the cluster document is, its one member lists the clusters; each is of the type that
      asks for its hosts by `service_name`; and asking for the name under that key is answered with
      one host, the backend of the entry filed under it. */
  lemma ClustersResolve(c: Codec, net: Net, now: string, reqs: seq<Request>, order: seq<string>, ms: seq<JsonMember>, i: nat)
    requires IsEnvoy(c) && IsRange(order, Run(net, map[], reqs)) && i < |order|
    requires Compact(PrintObject(c, CDS(Slice(Clusters(Run(net, map[], reqs), order))))) == JsonText(Object(ms), [])
    ensures |ms| == 1 && ms[0].key == "clusters" && ms[0].value.Array? && |ms[0].value.elems| == |order|
    ensures var j := ms[0].value.elems[i];
            && At(j, "name") == At(j, "service_name") == Some(S(order[i]))
            && At(j, "type") == Some(S("sds")) && At(j, "lb_type") == Some(S("round_robin"))
            && At(j, "connect_timeout_ms") == Some(Atom(Int(500)))
    ensures var e := Run(net, map[], reqs)[order[i]];
            var a := Registration(net, now, Run(net, map[], reqs), Some(order[i]));
            a.Found? && Compact(PrintObject(c, a.doc)) == JsonText(AnswerJson(net, now, order[i], e), [])
  {
    ClustersText(c, net, reqs, order);
    AnswerText(c, net, now, reqs, order[i]);
    ClusterMembers(order[i]);
    hide Run, PrintObject, Compact, JsonText, ClusterJson, At;
    SameJson(Object(ms), Object([JsonMember("clusters", Array(ClustersJson(order)))]), [], []);
    assert ms[0].value.elems[i] == ClusterJson(order[i]);
  }

  /** From listener to host. In one reachable state each listener routes to one cluster name; under
      that name the cluster document lists exactly one cluster; that one asks for its hosts by
      `service_name`, and the answer is the backend of the entry the listener stands for. */
  lemma RoutesResolve(c: Codec, net: Net, now: string, reqs: seq<Request>, lo: seq<string>, co: seq<string>, i: nat)
    requires IsEnvoy(c) && IsRange(lo, Run(net, map[], reqs)) && IsRange(co, Run(net, map[], reqs)) && i < |lo|
    ensures var t := Run(net, map[], reqs);
            && Routed(Listeners(net, t, lo)[i].target) == [lo[i]]
            && IsList(PrintObject(c, CDS(Slice(Clusters(t, co)))), "clusters", ClustersJson(co))
            && exists j :: 0 <= j < |co| &&
                 var cluster := ClustersJson(co)[j];
                 && At(cluster, "name") == Some(S(lo[i]))
                 && (forall k :: 0 <= k < |co| && At(ClustersJson(co)[k], "name") == Some(S(lo[i])) ==> k == j)
                 && At(cluster, "type") == Some(S("sds")) && At(cluster, "service_name") == Some(S(lo[i]))
    ensures var t := Run(net, map[], reqs); var a := Registration(net, now, t, Some(lo[i]));
            a.Found? && Compact(PrintObject(c, a.doc)) == JsonText(AnswerJson(net, now, lo[i], t[lo[i]]), [])
  {
    RunConsistent(net, map[], reqs);
    var t := Run(net, map[], reqs);
    ListenerRoutes(net, t[lo[i]]);
    AnswerText(c, net, now, reqs, lo[i]);
    ClustersText(c, net, reqs, co);
    hide Run, SvcName, ListenerOf, Routed, PrintObject, Compact, JsonText, AnswerJson, ClusterJson, At, IsList;
    var j :| 0 <= j < |co| && co[j] == lo[i];
    forall k | 0 <= k < |co| ensures ClustersJson(co)[k] == ClusterJson(co[k]) && At(ClusterJson(co[k]), "name") == Some(S(co[k])) {
      ClusterMembers(co[k]);
    }
    ClusterMembers(co[j]);
    assert At(ClustersJson(co)[j], "name") == Some(S(lo[i]));
  }

  /** From the shim to Envoy. After an applied registration, the three documents carry the shim's
      own addresses and ports and the settings of its container: the listener stands at the
      frontend, and the service answer names the backend. */
  lemma ShimIsServed(c: Codec, net: Net, now: string, reqs: seq<Request>, p: EnvoyProxy.Shim, s: EnvoyProxy.Settings, name: string)
    requires IsEnvoy(c)
    requires IsNameOf(name, s.serviceName, s.environmentName, EnvoyProxy.ToInt32(p.frontendPort))
    requires EnvoyProxy.FiledFor(net, Run(net, map[], reqs), p, s)
    ensures var t := Run(net, map[], reqs);
            && name in t
            && Served(net, name, t[name])
               == ListenerJson(name, net.ipString(net.parseIP(net.ipString(p.frontendIP))), EnvoyProxy.ToInt32(p.frontendPort),
                               if s.proxyMode == "http" then HttpJson(name, s.serviceName) else TcpJson(name))
            && AnswerJson(net, now, name, t[name])
               == Object(M("env", S("")) +
                         (M("hosts", Array([HostJson(net.ipString(net.parseIP(net.ipString(p.backendIP))), now,
                                                     EnvoyProxy.ToInt32(p.backendPort), name)])) +
                          M("service", S(name))))
            && var a := Registration(net, now, t, Some(name));
               a.Found? && Compact(PrintObject(c, a.doc)) == JsonText(AnswerJson(net, now, name, t[name]), [])
  {
    AnswerText(c, net, now, reqs, name);
    hide Run, PrintObject, Compact, JsonText, IsNameOf, HttpJson, TcpJson, HostJson, ListenerJson;
  }

  // The handlers --------------------------------------------------------------------------------------

  /** `clustersHandler`, up to the text it writes. */
  method ClustersHandler(api: EnvoyApi, c: Codec, ghost reqs: seq<Request>) returns (text: seq<Lexeme>)
    requires IsEnvoy(c) && api.registrar.entries == Run(api.registrar.net, map[], reqs)
    ensures exists order :: IsRange(order, api.registrar.entries) && IsList(text, "clusters", ClustersJson(order))
  {
    hide PrintObject, Run, ClustersJson, IsList, IsEnvoy, Clusters;
    var clusters := api.EnvoyClustersFromRegistrar();
    ghost var order :| IsRange(order, api.registrar.entries) && clusters == Clusters(api.registrar.entries, order);
    ClustersText(c, api.registrar.net, reqs, order);
    text := Marshal.MarshalJSON(c, To(CDS(Slice(clusters))));
  }

  /** `listenersHandler`, up to the text it writes. */
  method ListenersHandler(api: EnvoyApi, c: Codec, ghost reqs: seq<Request>) returns (text: seq<Lexeme>)
    requires IsEnvoy(c) && api.registrar.entries == Run(api.registrar.net, map[], reqs)
    ensures exists order :: IsRange(order, api.registrar.entries) &&
                            IsList(text, "listeners", ListenersJson(api.registrar.net, api.registrar.entries, order))
  {
    hide PrintObject, Run, ListenersJson, IsList, IsEnvoy, Listeners;
    var listeners := api.EnvoyListenersFromRegistrar();
    ghost var order :| IsRange(order, api.registrar.entries) &&
                       listeners == Listeners(api.registrar.net, api.registrar.entries, order);
    ListenersText(c, api.registrar.net, reqs, order);
    text := Marshal.MarshalJSON(c, To(LDS(Slice(listeners))));
  }
}
