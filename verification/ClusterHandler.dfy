/** The cluster handler's use of the router: subtree reports from children, and the split of a
    message from above into one message per child. */
module ClusterHandler {

  import opened Clusters
  import opened Collections
  import opened Options
  import opened RouteTable
  import opened ClusterRouter
  import opened Selector
  import N = Neighbours

  /** A registration from child `client`; `None` is one without cluster information. It is sent on
      to the parent, or stored at the root, only if the route is accepted. */
  method HandleRegist(router: Router, isRoot: bool, client: Name, cluster: Option<Name>)
    returns (transmitted: bool, stored: bool)
    modifies router`subtreeRouter
    ensures cluster.None? ==> router.subtreeRouter == old(router.subtreeRouter) && !transmitted && !stored
    ensures cluster.Some? ==>
              && router.subtreeRouter == Apply(old(router.subtreeRouter), Regist(cluster.value, client))
              && (forall k :: k in old(router.subtreeRouter) ==>
                                k in router.subtreeRouter && router.subtreeRouter[k] == old(router.subtreeRouter)[k])
              && router.subtreeRouter.Keys == old(router.subtreeRouter).Keys + {cluster.value}
              && (transmitted || stored <==>
                  cluster.value in router.subtreeRouter && router.subtreeRouter[cluster.value] == client)
              && (transmitted ==> !isRoot) && (stored ==> isRoot)
  {
    if cluster.None? {
      return false, false;
    }
    var ok := router.AddRoute(cluster.value, client);
    if !ok {
      return false, false;
    }
    transmitted, stored := !isRoot, isRoot;
  }

  /** An unregistration: whether or not a route was deleted, it is sent on or marked at the root. */
  method HandleUnregist(router: Router, isRoot: bool, client: Name, cluster: Option<Name>)
    returns (transmitted: bool, marked: bool)
    modifies router`subtreeRouter
    ensures cluster.None? ==> router.subtreeRouter == old(router.subtreeRouter) && !transmitted && !marked
    ensures cluster.Some? ==>
              && router.subtreeRouter == Apply(old(router.subtreeRouter), Unregist(cluster.value, client))
              && transmitted == !isRoot && marked == isRoot
    ensures forall k :: k in router.subtreeRouter ==>
                          k in old(router.subtreeRouter) && router.subtreeRouter[k] == old(router.subtreeRouter)[k]
    ensures cluster.Some? ==> forall k :: k in old(router.subtreeRouter) && k !in router.subtreeRouter ==>
                                            old(router.subtreeRouter)[k] == client || k == client == cluster.value
  {
    if cluster.None? {
      return false, false;
    }
    router.DelRoute(cluster.value, client);
    transmitted, marked := !isRoot, isRoot;
  }

  /** closeChild and the unregistration it raises: the child is no longer listed, nothing is routed
      to it or through it, every other route stays, and the unregistration goes on. */
  method CloseChild(router: Router, isRoot: bool, child: Name)
    returns (notify: N.Msg, transmitted: bool, marked: bool)
    modifies router`childs, router`subtreeRouter
    ensures router.childs == old(router.childs) - {child} && notify == N.Msg(router.childs, router.neighbor)
    ensures router.subtreeRouter == Del(old(router.subtreeRouter), child, child)
    ensures child !in router.subtreeRouter && child !in router.subtreeRouter.Values
    ensures forall k :: k in old(router.subtreeRouter) && k != child && old(router.subtreeRouter)[k] != child ==>
                          k in router.subtreeRouter && router.subtreeRouter[k] == old(router.subtreeRouter)[k]
    ensures transmitted == !isRoot && marked == isRoot
  {
    notify := router.DelChild(child);
    transmitted, marked := HandleUnregist(router, isRoot, child, Some(child));
  }

  /** A subtree report of child `cluster`; `None` is a report that cannot be decoded. Both loops
      visit their maps in any order. */
  method UpdateRouteToSubtree(router: Router, subtrees: Option<set<Name>>, cluster: Name) returns (ok: bool)
    modifies router`subtreeRouter
    ensures ok <==> subtrees.Some?
    ensures router.subtreeRouter ==
            if ok then Report(old(router.subtreeRouter), subtrees.value, cluster) else old(router.subtreeRouter)
    ensures ok ==> forall k ::
                k in router.subtreeRouter <==>
                     if k in old(router.subtreeRouter) && old(router.subtreeRouter)[k] == cluster
                     then k == cluster || k in subtrees.value
                     else k in old(router.subtreeRouter) || k in subtrees.value
    ensures forall k :: k in router.subtreeRouter ==>
                          router.subtreeRouter[k] ==
                          if k in old(router.subtreeRouter) then old(router.subtreeRouter)[k] else cluster
  {
    if subtrees.None? {
      return false;
    }
    ghost var t := router.subtreeRouter;
    var names := subtrees.value;
    var rest := names;
    while rest != {}
      invariant rest <= names
      invariant router.subtreeRouter == map k | k in t.Keys + (names - rest) :: if k in t then t[k] else cluster
      decreases rest
    {
      var to :| to in rest;
      rest := rest - {to};
      var _ := router.AddRoute(to, cluster);
    }
    assert names - {} == names;
    DropUnreported(router, names, cluster);
    ok := true;
  }

  /** The second half of the report: delete what is behind the child but not reported. */
  method DropUnreported(router: Router, names: set<Name>, cluster: Name)
    modifies router`subtreeRouter
    ensures var t := old(router.subtreeRouter);
            router.subtreeRouter == map k | k in t && (t[k] == cluster ==> k == cluster || k in names) :: t[k]
  {
    ghost var t := router.subtreeRouter;
    var childs := router.SubTreeOfPort(cluster);
    for i := 0 to |childs|
      invariant router.subtreeRouter == map k | k in t && (k in childs[..i] ==> k in names) :: t[k]
    {
      var c := childs[i];
      assert c in childs && c in t && t[c] == cluster && c != cluster;
      if c !in names {
        router.DelRoute(c, cluster);
      }
    }
    assert childs[..|childs|] == childs;
  }

  /** The clusters a selector with patterns `ps` selects behind a port. */
  ghost function SelectedBehind(matches: Matcher, t: Table, ps: set<string>, port: Name): set<Name> {
    set k | k in t && t[k] == port && Matched(matches, ps, k)
  }

  /** The selector lists exactly these clusters. */
  ghost predicate Carries(selector: string, clusters: set<Name>) {
    exists names :: names != [] && selector == Join(names) && Elems(names) == clusters
  }

  /** selectChild: a child is sent a message exactly if it leads to a selected cluster, and its
      selector lists the selected clusters behind it, in some order. */
  method SelectChild(router: Router, matches: Matcher, selector: string) returns (ret: map<Name, string>)
    ensures var ps := Elems(Patterns(selector));
            && (forall port :: port in ret <==> SelectedBehind(matches, router.subtreeRouter, ps, port) != {})
            && (forall port :: port in ret ==>
                                 Carries(ret[port], SelectedBehind(matches, router.subtreeRouter, ps, port)))
  {
    var patterns := NewSelector(selector);
    ghost var ps := Elems(patterns);
    ghost var t := router.subtreeRouter;
    var clusters := router.SubTreeClusters();
    var selected := [];
    for i := 0 to |clusters|
      invariant forall k :: k in selected <==> k in clusters[..i] && Matched(matches, ps, k)
    {
      var found := Has(matches, patterns, clusters[i]);
      if found {
        selected := selected + [clusters[i]];
      }
    }
    assert clusters[..|clusters|] == clusters;
    var groups := router.PortsToSubtreeClusters(selected);
    forall port
      ensures Elems(Through(t, selected, port)) == SelectedBehind(matches, t, ps, port)
      ensures port in groups <==> SelectedBehind(matches, t, ps, port) != {}
    {
      ThroughElems(t, selected, port);
      assert port in groups ==> Through(t, selected, port)[0] in SelectedBehind(matches, t, ps, port);
    }
    ret := map port | port in groups :: Join(groups[port]);
    forall port | port in ret
      ensures Carries(ret[port], SelectedBehind(matches, t, ps, port))
    {
      assert ret[port] == Join(groups[port]);
    }
  }
}
