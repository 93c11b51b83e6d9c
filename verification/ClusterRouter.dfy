/** The router object of one controller, updated in place. Locks are held for the whole of each
    method, so every method is one atomic step. */
module ClusterRouter {

  import opened Clusters
  import opened Options
  import opened RouteTable
  import N = Neighbours

  /** The cluster itself if it is routed through `port`. */
  function Routed(t: Table, c: Name, port: Name): seq<Name> {
    if c in t && t[c] == port then [c] else []
  }

  /** The entries of `clusters` routed through `port`, in order. */
  function Through(t: Table, clusters: seq<Name>, port: Name): seq<Name> {
    if clusters == [] then [] else Routed(t, clusters[0], port) + Through(t, clusters[1..], port)
  }

  lemma {:induction false} ThroughAppend(t: Table, a: seq<Name>, c: Name, port: Name)
    ensures Through(t, a + [c], port) == Through(t, a, port) + Routed(t, c, port)
    decreases a
  {
    if a != [] {
      ThroughAppend(t, a[1..], c, port);
      assert (a + [c])[1..] == a[1..] + [c];
    }
  }

  lemma {:induction false} ThroughElems(t: Table, a: seq<Name>, port: Name)
    ensures forall c :: c in Through(t, a, port) <==> c in a && c in t && t[c] == port
    decreases a
  {
    if a != [] {
      ThroughElems(t, a[1..], port);
    }
  }

  class Router {
    var childs: N.Listen
    var neighbor: Option<N.Listen>
    var parentNeighbor: Option<N.Listen>
    var subtreeRouter: Table

    constructor ()
      ensures View() == N.View(map[], None, None) && subtreeRouter == map[]
    {
      childs, neighbor, parentNeighbor, subtreeRouter := map[], None, None, map[];
    }

    function View(): N.View
      reads this
    {
      N.View(childs, neighbor, parentNeighbor)
    }

    /** Add a child; the message is broadcast, `None` reports a name already in use. */
    method AddChild(clusterName: Name, listen: N.Addr) returns (notify: Option<N.Msg>)
      modifies this`childs
      ensures old(clusterName in childs) ==> childs == old(childs) && notify == None
      ensures old(clusterName !in childs) ==>
                childs == old(childs)[clusterName := listen] && notify == Some(N.Msg(childs, neighbor))
    {
      if clusterName in childs {
        return None;
      }
      childs := childs[clusterName := listen];
      notify := Some(N.MsgOf(View()));
    }

    /** Delete a child; the message is broadcast even if there was no such child. */
    method DelChild(clusterName: Name) returns (notify: N.Msg)
      modifies this`childs
      ensures childs == old(childs) - {clusterName} && notify == N.Msg(childs, neighbor)
    {
      if clusterName in childs {
        childs := childs - {clusterName};
      }
      notify := N.MsgOf(View());
    }

    method AddRoute(to: Name, port: Name) returns (ok: bool)
      modifies this`subtreeRouter
      ensures subtreeRouter == Add(old(subtreeRouter), to, port)
      ensures subtreeRouter.Keys == old(subtreeRouter).Keys + {to}
      ensures forall k :: k in subtreeRouter ==>
                            subtreeRouter[k] == if k in old(subtreeRouter) then old(subtreeRouter)[k] else port
      ensures ok <==> Accepts(old(subtreeRouter), to, port)
      ensures ok <==> to in subtreeRouter && subtreeRouter[to] == port
    {
      if to !in subtreeRouter {
        subtreeRouter := subtreeRouter[to := port];
      } else if port != subtreeRouter[to] {
        return false;
      }
      ok := true;
    }

    /** A route to another cluster goes only if it leads through `port`. With a child go the route to
        it and all routes through it. All other routes stay as they are. */
    method DelRoute(to: Name, port: Name)
      modifies this`subtreeRouter
      ensures subtreeRouter == Del(old(subtreeRouter), to, port)
      ensures to == port ==>
                forall k ::
                  k in subtreeRouter <==> k in old(subtreeRouter) && k != port && old(subtreeRouter)[k] != port
      ensures to != port ==>
                forall k ::
                  k in subtreeRouter <==> k in old(subtreeRouter) && !(k == to && old(subtreeRouter)[k] == port)
      ensures forall k :: k in subtreeRouter ==> subtreeRouter[k] == old(subtreeRouter)[k]
    {
      if to in subtreeRouter && subtreeRouter[to] == port {
        subtreeRouter := subtreeRouter - {to};
      }
      if to == port {
        subtreeRouter := subtreeRouter - {to};
        ghost var t := subtreeRouter;
        var rest := subtreeRouter.Keys;
        while rest != {}
          invariant rest <= subtreeRouter.Keys <= t.Keys
          invariant forall k :: k in subtreeRouter ==> subtreeRouter[k] == t[k]
          invariant forall k :: k in t && k !in rest ==> (k in subtreeRouter <==> t[k] != port)
          decreases rest
        {
          var key :| key in rest;
          rest := rest - {key};
          if subtreeRouter[key] == port {
            subtreeRouter := subtreeRouter - {key};
          }
        }
      }
    }

    /** The destinations behind a port other than the port itself, each once, in any order. */
    method SubTreeOfPort(port: Name) returns (ret: seq<Name>)
      ensures forall k :: k in ret <==> k in subtreeRouter && subtreeRouter[k] == port && k != port
      ensures forall i, j :: 0 <= i < j < |ret| ==> ret[i] != ret[j]
    {
      ret := [];
      var rest := subtreeRouter.Keys;
      while rest != {}
        invariant rest <= subtreeRouter.Keys
        invariant forall k :: k in ret <==> k in subtreeRouter && k !in rest && subtreeRouter[k] == port && k != port
        invariant forall i, j :: 0 <= i < j < |ret| ==> ret[i] != ret[j]
        decreases rest
      {
        var to :| to in rest;
        rest := rest - {to};
        if subtreeRouter[to] == port && to != port {
          ret := ret + [to];
        }
      }
    }

    /** All destinations, each once, in any order. */
    method SubTreeClusters() returns (ret: seq<Name>)
      ensures forall k :: k in ret <==> k in subtreeRouter
      ensures forall i, j :: 0 <= i < j < |ret| ==> ret[i] != ret[j]
    {
      ret := [];
      var rest := subtreeRouter.Keys;
      while rest != {}
        invariant rest <= subtreeRouter.Keys
        invariant forall k :: k in ret <==> k in subtreeRouter && k !in rest
        invariant forall i, j :: 0 <= i < j < |ret| ==> ret[i] != ret[j]
        decreases rest
      {
        var key :| key in rest;
        rest := rest - {key};
        ret := ret + [key];
      }
    }

    /** Group clusters by next hop: a port is listed exactly if it leads to one of them, with
        its clusters in the given order; clusters without a route are left out. */
    method PortsToSubtreeClusters(clusters: seq<Name>) returns (ret: map<Name, seq<Name>>)
      ensures forall port :: port in ret <==> Through(subtreeRouter, clusters, port) != []
      ensures forall port :: port in ret ==> ret[port] == Through(subtreeRouter, clusters, port)
    {
      ret := map[];
      for i := 0 to |clusters|
        invariant forall port :: port in ret <==> Through(subtreeRouter, clusters[..i], port) != []
        invariant forall port :: port in ret ==> ret[port] == Through(subtreeRouter, clusters[..i], port)
      {
        var c := clusters[i];
        assert clusters[..i + 1] == clusters[..i] + [c];
        forall port
          ensures Through(subtreeRouter, clusters[..i + 1], port) ==
                  Through(subtreeRouter, clusters[..i], port) + Routed(subtreeRouter, c, port)
        {
          ThroughAppend(subtreeRouter, clusters[..i], c, port);
        }
        if c in subtreeRouter {
          var port := subtreeRouter[c];
          if port in ret {
            ret := ret[port := ret[port] + [c]];
          } else {
            ret := ret[port := [c]];
          }
        }
      }
      assert clusters[..|clusters|] == clusters;
    }

    /** A route message from the parent: `None` if the neighbours did not change. */
    method UpdateRouter(parent: N.Msg) returns (notify: Option<N.Msg>)
      modifies this`neighbor, this`parentNeighbor
      ensures View() == N.Receive(old(View()), parent)
      ensures notify == if N.Notifies(old(View()), parent) then Some(N.MsgOf(View())) else None
      ensures neighbor == Some(parent.childs) && parentNeighbor == parent.neighbor
      ensures notify == if old(neighbor) == Some(parent.childs) then None else Some(N.Msg(childs, neighbor))
    {
      notify := None;
      if neighbor != Some(parent.childs) {
        neighbor := Some(parent.childs);
        notify := Some(N.MsgOf(View()));
      }
      if parentNeighbor != parent.neighbor {
        parentNeighbor := parent.neighbor;
      }
    }
  }
}
