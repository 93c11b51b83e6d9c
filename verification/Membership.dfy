/** Clusters joining and leaving a tree: a registration climbs from the new child's parent to the
    root and every controller on the way adds a route; an unregistration climbs in the same way. */
module Membership {

  import opened Clusters
  import opened RouteTable
  import opened ClusterTree
  import opened Uplinks
  import opened Convergence

  /** A cluster of the tree, as the positions of the children on the way to it. */
  predicate IsPath(t: Tree, path: seq<nat>) {
    path == [] || (path[0] < |t.kids| && IsPath(t.kids[path[0]], path[1..]))
  }

  function NodeAt(t: Tree, path: seq<nat>): Tree
    requires IsPath(t, path)
  {
    if path == [] then t else NodeAt(t.kids[path[0]], path[1..])
  }

  /** The tree with its child `i` replaced. */
  function With(t: Tree, i: nat, kid: Tree): Tree
    requires i < |t.kids|
  {
    Tree(t.name, t.kids[i := kid])
  }

  /** The tree with `s` as a new child of the cluster at `path`. */
  function Graft(t: Tree, path: seq<nat>, s: Tree): Tree
    requires IsPath(t, path)
  {
    if path == [] then Tree(t.name, t.kids + [s])
    else With(t, path[0], Graft(t.kids[path[0]], path[1..], s))
  }

  /** The tree without child `i` of the cluster at `path`. */
  function Prune(t: Tree, path: seq<nat>, i: nat): Tree
    requires IsPath(t, path) && i < |NodeAt(t, path).kids|
  {
    if path == [] then Tree(t.name, t.kids[..i] + t.kids[i + 1..])
    else With(t, path[0], Prune(t.kids[path[0]], path[1..], i))
  }

  // ----- What climbs -----

  /** The tables when a message has reached a controller, and whether it is sent on. */
  datatype Climb = Climb(net: Net, up: bool)

  /** The registration of `n`, a new child of the cluster at `path`; a controller that refuses
      the route does not send it on. */
  function RegistUp(net: Net, t: Tree, path: seq<nat>, n: Name): Climb
    requires IsPath(t, path)
    decreases path
  {
    if path == [] then RegistAt(net, t.name, n, n)
    else
      var kid := t.kids[path[0]];
      var c := RegistUp(net, kid, path[1..], n);
      if c.up then RegistAt(c.net, t.name, n, kid.name) else c
  }

  function RegistAt(net: Net, at: Name, n: Name, client: Name): Climb {
    Climb(net[at := Add(TableOf(net, at), n, client)], Accepts(TableOf(net, at), n, client))
  }

  /** The unregistration of `n`, a closed child of the cluster at `path`; it is always sent on. */
  function UnregistUp(net: Net, t: Tree, path: seq<nat>, n: Name): Net
    requires IsPath(t, path)
    decreases path
  {
    if path == [] then net[t.name := Del(TableOf(net, t.name), n, n)]
    else
      var kid := t.kids[path[0]];
      var net1 := UnregistUp(net, kid, path[1..], n);
      net1[t.name := Del(TableOf(net1, t.name), n, kid.name)]
  }

  /** Tables outside the tree are not touched. */
  lemma {:induction false} RegistFrame(net: Net, t: Tree, path: seq<nat>, n: Name, m: Name)
    requires IsPath(t, path) && m !in Names(t)
    ensures var net' := RegistUp(net, t, path, n).net;
            (m in net' <==> m in net) && TableOf(net', m) == TableOf(net, m)
    decreases path
  {
    if path != [] {
      KidWithout(t, path[0], m);
      RegistFrame(net, t.kids[path[0]], path[1..], n, m);
    }
  }

  lemma {:induction false} UnregistFrame(net: Net, t: Tree, path: seq<nat>, n: Name, m: Name)
    requires IsPath(t, path) && m !in Names(t)
    ensures var net' := UnregistUp(net, t, path, n);
            (m in net' <==> m in net) && TableOf(net', m) == TableOf(net, m)
    decreases path
  {
    if path != [] {
      KidWithout(t, path[0], m);
      UnregistFrame(net, t.kids[path[0]], path[1..], n, m);
    }
  }

  lemma KidWithout(t: Tree, i: nat, m: Name)
    requires i < |t.kids| && m !in Below(t)
    ensures m !in Names(t.kids[i])
  {
    if m in Names(t.kids[i]) {
      InKid(t, i, m);
    }
  }

  // ----- Names of changed trees -----

  lemma BelowIff(t: Tree, m: Name)
    ensures m in Below(t) <==> exists i :: 0 <= i < |t.kids| && m in Names(t.kids[i])
  {
    if m in Below(t) {
      var i := KidOf(t, m);
    }
    if i :| 0 <= i < |t.kids| && m in Names(t.kids[i]) {
      InKid(t, i, m);
    }
  }

  /** Replacing a child changes the names below by that child's names. */
  lemma WithNames(t: Tree, i: nat, kid: Tree, m: Name)
    requires Distinct(t) && i < |t.kids|
    ensures m in Below(With(t, i, kid)) <==> m in Names(kid) || (m in Below(t) && m !in Names(t.kids[i]))
  {
    var t' := With(t, i, kid);
    BelowIff(t', m);
    BelowIff(t, m);
    assert t'.kids[i] == kid;
    if m in Below(t) && m !in Names(t.kids[i]) {
      var j := KidOf(t, m);
      assert t'.kids[j] == t.kids[j];
    }
    if j :| 0 <= j < |t.kids| && j != i && m in Names(t'.kids[j]) {
      KidsApart(t, i, j);
    }
  }

  lemma WithDistinct(t: Tree, i: nat, kid: Tree)
    requires Distinct(t) && Distinct(kid) && i < |t.kids|
    requires t.name !in Names(kid) && forall j :: 0 <= j < |t.kids| && j != i ==> Names(t.kids[j]) !! Names(kid)
    ensures Distinct(With(t, i, kid))
  {
    WithNames(t, i, kid, t.name);
    var t' := With(t, i, kid);
    forall j, k | 0 <= j < k < |t'.kids|
      ensures Names(t'.kids[j]) !! Names(t'.kids[k])
    {
      KidsApart(t, j, k);
    }
  }

  lemma {:induction false} GraftNames(t: Tree, path: seq<nat>, s: Tree)
    requires Distinct(t) && IsPath(t, path) && Distinct(s) && Names(s) !! Names(t)
    ensures var t' := Graft(t, path, s);
            t'.name == t.name && Distinct(t') && Below(t') == Below(t) + Names(s)
    decreases path
  {
    var t' := Graft(t, path, s);
    if path == [] {
      forall m
        ensures m in Below(t') <==> m in Below(t) || m in Names(s)
      {
        BelowIff(t, m);
        BelowIff(t', m);
        assert t'.kids[|t.kids|] == s;
        assert forall j :: 0 <= j < |t.kids| ==> t'.kids[j] == t.kids[j];
      }
      forall j | 0 <= j < |t.kids|
        ensures Names(t.kids[j]) !! Names(s)
      {
        KidInside(t, j);
      }
    } else {
      var i := path[0];
      KidInside(t, i);
      GraftNames(t.kids[i], path[1..], s);
      var kid := Graft(t.kids[i], path[1..], s);
      forall m
        ensures m in Below(t') <==> m in Below(t) || m in Names(s)
      {
        WithNames(t, i, kid, m);
      }
      forall j | 0 <= j < |t.kids| && j != i
        ensures Names(t.kids[j]) !! Names(kid)
      {
        KidsApart(t, i, j);
        KidInside(t, j);
      }
      WithDistinct(t, i, kid);
    }
  }

  lemma KidInside(t: Tree, i: nat)
    requires i < |t.kids|
    ensures Names(t.kids[i]) <= Below(t) <= Names(t)
  {
    forall m | m in Names(t.kids[i])
      ensures m in Below(t)
    {
      InKid(t, i, m);
    }
  }

  /** The names that leave with child `i` of the cluster at `path`. */
  ghost function Leaving(t: Tree, path: seq<nat>, i: nat): set<Name>
    requires IsPath(t, path) && i < |NodeAt(t, path).kids|
  {
    Names(NodeAt(t, path).kids[i])
  }

  lemma {:induction false} LeavingInside(t: Tree, path: seq<nat>, i: nat)
    requires IsPath(t, path) && i < |NodeAt(t, path).kids|
    ensures Leaving(t, path, i) <= Below(t)
    ensures path != [] ==> Leaving(t, path, i) <= Below(t.kids[path[0]])
    decreases path
  {
    if path == [] {
      KidInside(t, i);
    } else {
      LeavingInside(t.kids[path[0]], path[1..], i);
      KidInside(t, path[0]);
    }
  }

  lemma {:induction false} PruneNames(t: Tree, path: seq<nat>, i: nat)
    requires Distinct(t) && IsPath(t, path) && i < |NodeAt(t, path).kids|
    ensures var t' := Prune(t, path, i);
            t'.name == t.name && Distinct(t') && Below(t') == Below(t) - Leaving(t, path, i)
    decreases path
  {
    var t' := Prune(t, path, i);
    if path == [] {
      forall m
        ensures m in Below(t') <==> m in Below(t) && m !in Names(t.kids[i])
      {
        CutNames(t, i, m);
      }
      forall j, k | 0 <= j < k < |t'.kids|
        ensures Names(t'.kids[j]) !! Names(t'.kids[k])
      {
        KidsApart(t, if j < i then j else j + 1, if k < i then k else k + 1);
      }
    } else {
      var a := path[0];
      PruneNames(t.kids[a], path[1..], i);
      LeavingInside(t, path, i);
      var kid := Prune(t.kids[a], path[1..], i);
      forall m
        ensures m in Below(t') <==> m in Below(t) && m !in Leaving(t, path, i)
      {
        WithNames(t, a, kid, m);
        if m in Names(t.kids[a]) {
          InKid(t, a, m);
        }
      }
      KidInside(t, a);
      forall j | 0 <= j < |t.kids| && j != a
        ensures Names(t.kids[j]) !! Names(kid)
      {
        KidsApart(t, a, j);
      }
      WithDistinct(t, a, kid);
    }
  }

  lemma CutNames(t: Tree, i: nat, m: Name)
    requires Distinct(t) && i < |t.kids|
    ensures m in Below(Prune(t, [], i)) <==> m in Below(t) && m !in Names(t.kids[i])
  {
    var t' := Prune(t, [], i);
    if m in Below(t') {
      var j := KidOf(t', m);
      var j' := if j < i then j else j + 1;
      assert t'.kids[j] == t.kids[j'];
      InKid(t, j', m);
      KidsApart(t, i, j');
    } else if m in Below(t) {
      var j := KidOf(t, m);
      if j != i {
        var j' := if j < i then j else j - 1;
        assert t'.kids[j'] == t.kids[j];
        InKid(t', j', m);
      }
    }
  }

  // ----- Tables that stay the same -----

  ghost predicate Same(net: Net, net': Net, names: set<Name>) {
    forall m :: m in names ==> (m in net' <==> m in net) && TableOf(net', m) == TableOf(net, m)
  }

  lemma {:induction false} SameExact(net: Net, net': Net, t: Tree)
    requires Same(net, net', Names(t)) && AllExact(net, t)
    ensures AllExact(net', t)
    decreases t
  {
    forall i | 0 <= i < |t.kids|
      ensures AllExact(net', t.kids[i])
    {
      KidInside(t, i);
      SameExact(net, net', t.kids[i]);
    }
    assert TableOf(net', t.name) == TableOf(net, t.name);
  }

  /** A registration leaves every subtree beside its way alone. */
  lemma RegistBeside(net: Net, t: Tree, path: seq<nat>, n: Name, names: set<Name>)
    requires IsPath(t, path) && t.name !in names && (path != [] ==> names !! Names(t.kids[path[0]]))
    ensures Same(net, RegistUp(net, t, path, n).net, names)
  {
    if path != [] {
      forall m | m in names
        ensures Same(net, RegistUp(net, t.kids[path[0]], path[1..], n).net, {m})
      {
        RegistFrame(net, t.kids[path[0]], path[1..], n, m);
      }
      assert forall m :: m in names ==> m in {m};
    }
  }

  lemma UnregistBeside(net: Net, t: Tree, path: seq<nat>, n: Name, names: set<Name>)
    requires IsPath(t, path) && t.name !in names && (path != [] ==> names !! Names(t.kids[path[0]]))
    ensures Same(net, UnregistUp(net, t, path, n), names)
  {
    if path != [] {
      forall m | m in names
        ensures Same(net, UnregistUp(net, t.kids[path[0]], path[1..], n), {m})
      {
        UnregistFrame(net, t.kids[path[0]], path[1..], n, m);
      }
      assert forall m :: m in names ==> m in {m};
    }
  }

  // ----- A cluster joins -----

  /** No controller on the way to the root has a route to `n` left. */
  predicate Unrouted(net: Net, t: Tree, path: seq<nat>, n: Name)
    requires IsPath(t, path)
    decreases path
  {
    n !in TableOf(net, t.name) && (path != [] ==> Unrouted(net, t.kids[path[0]], path[1..], n))
  }

  /** The child of `t` that a registration comes through. */
  function Client(t: Tree, path: seq<nat>, n: Name): Name
    requires IsPath(t, path)
  {
    if path == [] then n else t.kids[path[0]].name
  }

  /** A registration that nobody refuses reaches the root, and adds one route to each table. */
  lemma {:induction false} RegistClimbs(net: Net, t: Tree, path: seq<nat>, n: Name)
    requires Distinct(t) && IsPath(t, path) && Unrouted(net, t, path, n)
    ensures RegistUp(net, t, path, n).up && t.name in RegistUp(net, t, path, n).net
    ensures RegistUp(net, t, path, n).net[t.name] == TableOf(net, t.name)[n := Client(t, path, n)]
    decreases path
  {
    if path != [] {
      RegistClimbs(net, t.kids[path[0]], path[1..], n);
      KidWithout(t, path[0], t.name);
      RegistFrame(net, t.kids[path[0]], path[1..], n, t.name);
    }
  }

  /** The tables of a joined child's subtree, seen one level up. */
  lemma RegistKid(net: Net, t: Tree, path: seq<nat>, s: Tree)
    requires Distinct(t) && IsPath(t, path) && path != [] && Distinct(s) && Names(s) !! Names(t)
    requires Unrouted(net, t, path, s.name)
    ensures var a := path[0];
            Same(RegistUp(net, t.kids[a], path[1..], s.name).net, RegistUp(net, t, path, s.name).net,
                 Names(Graft(t.kids[a], path[1..], s)))
  {
    var a := path[0];
    RegistClimbs(net, t.kids[a], path[1..], s.name);
    KidInside(t, a);
    GraftNames(t.kids[a], path[1..], s);
    assert t.name !in Names(Graft(t.kids[a], path[1..], s));
  }

  lemma {:induction false} JoinedNames(t: Tree, path: seq<nat>, s: Tree)
    requires IsPath(t, path)
    ensures KidNames(Graft(t, path, s)) == if path == [] then KidNames(t) + {s.name} else KidNames(t)
  {
    if path == [] {
      var t' := Graft(t, path, s);
      assert t'.kids[|t.kids|] == s;
      assert forall j :: 0 <= j < |t.kids| ==> t'.kids[j] == t.kids[j];
    } else {
      WithKidNames(t, path[0], Graft(t.kids[path[0]], path[1..], s));
    }
  }

  /** Which of the tables below a changed cluster are as before. */
  lemma JoinedKid(net: Net, t: Tree, path: seq<nat>, s: Tree, j: nat)
    requires Distinct(t) && IsPath(t, path) && Distinct(s) && Names(s) !! Names(t)
    requires Unrouted(net, t, path, s.name) && j < |Graft(t, path, s).kids|
    ensures var t', net' := Graft(t, path, s), RegistUp(net, t, path, s.name).net;
            if path != [] && j == path[0]
            then t'.kids[j] == Graft(t.kids[j], path[1..], s)
                 && Same(RegistUp(net, t.kids[j], path[1..], s.name).net, net', Names(t'.kids[j]))
            else t'.kids[j] == (if j < |t.kids| then t.kids[j] else s) && Same(net, net', Names(t'.kids[j]))
  {
    if path != [] && j == path[0] {
      RegistKid(net, t, path, s);
    } else if j < |t.kids| {
      KidInside(t, j);
      if path != [] {
        KidsApart(t, j, path[0]);
      }
      RegistBeside(net, t, path, s.name, Names(t.kids[j]));
    } else {
      RegistBeside(net, t, path, s.name, Names(s));
    }
  }

  /** With exact tables a registration gives exact tables again if and only if the new child has
      nothing below it; what is below it is made known by its reports. */
  lemma {:induction false} JoinIsExactIff(net: Net, t: Tree, path: seq<nat>, s: Tree)
    requires Distinct(t) && IsPath(t, path) && Distinct(s) && Names(s) !! Names(t)
    requires AllExact(net, t) && AllExact(net, s)
    ensures AllExact(RegistUp(net, t, path, s.name).net, Graft(t, path, s)) <==> s.kids == []
    decreases path, 1
  {
    var t', net' := Graft(t, path, s), RegistUp(net, t, path, s.name).net;
    ExactIsUnrouted(net, t, path, s.name);
    GraftNames(t, path, s);
    RegistClimbs(net, t, path, s.name);
    assert net'[t.name].Keys == Below(t) + {s.name};
    if s.kids == [] {
      LeafNames(s);
      JoinedTableExact(net, t, path, s);
      forall j | 0 <= j < |t'.kids|
        ensures AllExact(net', t'.kids[j])
      {
        JoinedKidExact(net, t, path, s, j);
      }
    } else {
      var m := SomeBelow(s);
      assert m in Names(s) && m !in Names(t);
      assert m in Below(t') && m !in net'[t.name];
    }
  }

  lemma SomeBelow(s: Tree) returns (m: Name)
    requires Distinct(s) && s.kids != []
    ensures m in Below(s) && m != s.name
  {
    m := s.kids[0].name;
    assert m in Names(s.kids[0]);
    InKid(s, 0, m);
  }

  lemma {:induction false} ExactIsUnrouted(net: Net, t: Tree, path: seq<nat>, n: Name)
    requires IsPath(t, path) && AllExact(net, t) && n !in Names(t)
    ensures Unrouted(net, t, path, n)
    decreases path
  {
    if path != [] {
      KidWithout(t, path[0], n);
      ExactIsUnrouted(net, t.kids[path[0]], path[1..], n);
    }
  }

  lemma {:induction false} JoinedTableExact(net: Net, t: Tree, path: seq<nat>, s: Tree)
    requires Distinct(t) && IsPath(t, path) && Distinct(s) && Names(s) !! Names(t)
    requires AllExact(net, t) && Names(s) == {s.name} && Unrouted(net, t, path, s.name)
    ensures var net' := RegistUp(net, t, path, s.name).net;
            t.name in net' && TableExact(net'[t.name], Graft(t, path, s))
  {
    var t' := Graft(t, path, s);
    GraftNames(t, path, s);
    RegistClimbs(net, t, path, s.name);
    forall j, d | 0 <= j < |t'.kids| && d in Names(t'.kids[j])
      ensures d == s.name ==> t'.kids[j].name == Client(t, path, s.name)
      ensures d != s.name ==> j < |t.kids| && d in Names(t.kids[j]) && t'.kids[j].name == t.kids[j].name
    {
      JoinedAt(t, path, s, j, d);
    }
  }

  lemma JoinedAt(t: Tree, path: seq<nat>, s: Tree, j: nat, d: Name)
    requires Distinct(t) && IsPath(t, path) && Distinct(s) && Names(s) !! Names(t) && Names(s) == {s.name}
    requires j < |Graft(t, path, s).kids| && d in Names(Graft(t, path, s).kids[j])
    ensures var kid := Graft(t, path, s).kids[j];
            && (d == s.name ==> kid.name == Client(t, path, s.name))
            && (d != s.name ==> j < |t.kids| && d in Names(t.kids[j]) && kid.name == t.kids[j].name)
  {
    if j < |t.kids| {
      KidInside(t, j);
      if path != [] && j == path[0] {
        GraftNames(t.kids[j], path[1..], s);
      }
    }
  }

  lemma {:induction false} JoinedKidExact(net: Net, t: Tree, path: seq<nat>, s: Tree, j: nat)
    requires Distinct(t) && IsPath(t, path) && Distinct(s) && Names(s) !! Names(t)
    requires AllExact(net, t) && AllExact(net, s) && s.kids == [] && Unrouted(net, t, path, s.name)
    requires j < |Graft(t, path, s).kids|
    ensures AllExact(RegistUp(net, t, path, s.name).net, Graft(t, path, s).kids[j])
    decreases path, 0
  {
    var net' := RegistUp(net, t, path, s.name).net;
    JoinedKid(net, t, path, s, j);
    if path != [] && j == path[0] {
      KidInside(t, j);
      JoinIsExactIff(net, t.kids[j], path[1..], s);
      SameExact(RegistUp(net, t.kids[j], path[1..], s.name).net, net', Graft(t, path, s).kids[j]);
    } else {
      SameExact(net, net', Graft(t, path, s).kids[j]);
    }
  }

  // ----- A cluster leaves -----

  /** The child of `t` that an unregistration comes through, and what it does to the table. */
  lemma {:induction false} UnregistClimbs(net: Net, t: Tree, path: seq<nat>, n: Name)
    requires Distinct(t) && IsPath(t, path)
    ensures t.name in UnregistUp(net, t, path, n)
    ensures UnregistUp(net, t, path, n)[t.name] == Del(TableOf(net, t.name), n, Client(t, path, n))
    decreases path
  {
    if path != [] {
      UnregistClimbs(net, t.kids[path[0]], path[1..], n);
      KidWithout(t, path[0], t.name);
      UnregistFrame(net, t.kids[path[0]], path[1..], n, t.name);
    }
  }

  lemma LeftKid(net: Net, t: Tree, path: seq<nat>, i: nat, n: Name, j: nat)
    requires Distinct(t) && IsPath(t, path) && i < |NodeAt(t, path).kids| && j < |Prune(t, path, i).kids|
    ensures var t', net' := Prune(t, path, i), UnregistUp(net, t, path, n);
            if path != [] && j == path[0]
            then t'.kids[j] == Prune(t.kids[j], path[1..], i)
                 && Same(UnregistUp(net, t.kids[j], path[1..], n), net', Names(t'.kids[j]))
            else t'.kids[j] == t.kids[if path == [] && j >= i then j + 1 else j] && Same(net, net', Names(t'.kids[j]))
  {
    var t' := Prune(t, path, i);
    if path != [] && j == path[0] {
      KidInside(t, j);
      PruneNames(t.kids[j], path[1..], i);
      assert t.name !in Names(t'.kids[j]);
    } else {
      var j' := if path == [] && j >= i then j + 1 else j;
      KidInside(t, j');
      if path != [] {
        KidsApart(t, j', path[0]);
      }
      UnregistBeside(net, t, path, n, Names(t.kids[j']));
    }
  }

  lemma LeftNames(t: Tree, path: seq<nat>, i: nat)
    requires Distinct(t) && IsPath(t, path) && i < |NodeAt(t, path).kids|
    ensures var n := NodeAt(t, path).kids[i].name;
            && KidNames(Prune(t, path, i)) == (if path == [] then KidNames(t) - {n} else KidNames(t))
            && (path != [] ==> n !in KidNames(t) && n != Client(t, path, n))
  {
    if path == [] {
      CutKidNames(t, i);
    } else {
      WithKidNames(t, path[0], Prune(t.kids[path[0]], path[1..], i));
      LeavingInside(t, path, i);
      DeepIsNoKid(t, path[0], NodeAt(t, path).kids[i].name);
    }
  }

  lemma CutKidNames(t: Tree, i: nat)
    requires Distinct(t) && i < |t.kids|
    ensures KidNames(Prune(t, [], i)) == KidNames(t) - {t.kids[i].name}
  {
    var t' := Prune(t, [], i);
    KidNamesApart(t);
    forall c | c in KidNames(t')
      ensures c in KidNames(t) && c != t.kids[i].name
    {
      var j := KidNamed(t', c);
      assert t'.kids[j] == t.kids[if j < i then j else j + 1];
    }
    forall c | c in KidNames(t) && c != t.kids[i].name
      ensures c in KidNames(t')
    {
      var j := KidNamed(t, c);
      assert t.kids[j] == t'.kids[if j < i then j else j - 1];
    }
  }

  lemma WithKidNames(t: Tree, i: nat, kid: Tree)
    requires i < |t.kids| && kid.name == t.kids[i].name
    ensures KidNames(With(t, i, kid)) == KidNames(t)
  {
    assert forall j :: 0 <= j < |t.kids| ==> With(t, i, kid).kids[j].name == t.kids[j].name;
  }

  /** What is below a child is not itself a child. */
  lemma DeepIsNoKid(t: Tree, i: nat, n: Name)
    requires Distinct(t) && i < |t.kids| && n in Below(t.kids[i])
    ensures n !in KidNames(t)
  {
    assert Distinct(t.kids[i]);
    if n in KidNames(t) {
      var j := KidNamed(t, n);
      KidsApart(t, i, j);
    }
  }

  /** With exact tables an unregistration gives exact tables again if and only if it comes from a
      child of the root or the closed child had nothing below it: the controllers above its
      parent drop the closed child only, and learn about the rest from reports. */
  lemma {:induction false} LeaveIsExactIff(net: Net, t: Tree, path: seq<nat>, i: nat)
    requires Distinct(t) && IsPath(t, path) && i < |NodeAt(t, path).kids| && AllExact(net, t)
    ensures AllExact(UnregistUp(net, t, path, NodeAt(t, path).kids[i].name), Prune(t, path, i)) <==>
            path == [] || NodeAt(t, path).kids[i].kids == []
    decreases path, 1
  {
    var gone := NodeAt(t, path).kids[i];
    var t', net' := Prune(t, path, i), UnregistUp(net, t, path, gone.name);
    LeftKeys(net, t, path, i);
    PruneNames(t, path, i);
    LeavingInside(t, path, i);
    if path == [] || gone.kids == [] {
      LeftTableExact(net, t, path, i);
      forall j | 0 <= j < |t'.kids|
        ensures AllExact(net', t'.kids[j])
      {
        LeftKidExact(net, t, path, i, j);
      }
    } else {
      NodeDistinct(t, path, i);
      var m := SomeBelow(gone);
      assert m in Leaving(t, path, i) && m in net'[t.name] && m !in Below(t');
    }
  }

  lemma {:induction false} NodeDistinct(t: Tree, path: seq<nat>, i: nat)
    requires Distinct(t) && IsPath(t, path) && i < |NodeAt(t, path).kids|
    ensures Distinct(NodeAt(t, path).kids[i])
    decreases path
  {
    if path != [] {
      NodeDistinct(t.kids[path[0]], path[1..], i);
    }
  }

  /** What an unregistration leaves in an exact table. */
  lemma LeftKeys(net: Net, t: Tree, path: seq<nat>, i: nat)
    requires Distinct(t) && IsPath(t, path) && i < |NodeAt(t, path).kids| && AllExact(net, t)
    ensures var n := NodeAt(t, path).kids[i].name;
            var net' := UnregistUp(net, t, path, n);
            && t.name in net'
            && net'[t.name].Keys == Below(t) - (if path == [] then Leaving(t, path, i) else {n})
            && forall k :: k in net'[t.name] ==> net'[t.name][k] == net[t.name][k]
  {
    var n := NodeAt(t, path).kids[i].name;
    var table := net[t.name];
    UnregistClimbs(net, t, path, n);
    LeavingInside(t, path, i);
    if path == [] {
      forall k | k in table
        ensures table[k] == n <==> k in Names(t.kids[i])
      {
        if table[k] == n {
          BehindKid(table, t, i, k);
        }
      }
      assert n in Names(t.kids[i]);
    } else {
      LeftNames(t, path, i);
      assert n in Names(t.kids[path[0]]) && n in Below(t);
    }
  }

  lemma LeftTableExact(net: Net, t: Tree, path: seq<nat>, i: nat)
    requires Distinct(t) && IsPath(t, path) && i < |NodeAt(t, path).kids| && AllExact(net, t)
    requires path == [] || NodeAt(t, path).kids[i].kids == []
    ensures var net' := UnregistUp(net, t, path, NodeAt(t, path).kids[i].name);
            t.name in net' && TableExact(net'[t.name], Prune(t, path, i))
  {
    var net' := UnregistUp(net, t, path, NodeAt(t, path).kids[i].name);
    LeftKeys(net, t, path, i);
    PruneNames(t, path, i);
    if path != [] {
      LeafNames(NodeAt(t, path).kids[i]);
    }
    PrunedExact(net[t.name], net'[t.name], t, path, i);
  }

  lemma PrunedExact(table: Table, table': Table, t: Tree, path: seq<nat>, i: nat)
    requires Distinct(t) && IsPath(t, path) && i < |NodeAt(t, path).kids| && TableExact(table, t)
    requires table'.Keys == Below(Prune(t, path, i)) && table'.Keys <= table.Keys
    requires forall k :: k in table' ==> table'[k] == table[k]
    ensures TableExact(table', Prune(t, path, i))
  {
    var t' := Prune(t, path, i);
    forall j, d | 0 <= j < |t'.kids| && d in Names(t'.kids[j])
      ensures d in table' && table'[d] == t'.kids[j].name
    {
      LeftRoute(table, t, path, i, j, d);
    }
  }

  /** What is left keeps its route. */
  lemma LeftRoute(table: Table, t: Tree, path: seq<nat>, i: nat, j: nat, d: Name)
    requires Distinct(t) && IsPath(t, path) && i < |NodeAt(t, path).kids| && TableExact(table, t)
    requires j < |Prune(t, path, i).kids| && d in Names(Prune(t, path, i).kids[j])
    ensures d in Below(Prune(t, path, i)) && d in table && table[d] == Prune(t, path, i).kids[j].name
  {
    InKid(Prune(t, path, i), j, d);
    LeftAt(t, path, i, j, d);
  }

  lemma LeftAt(t: Tree, path: seq<nat>, i: nat, j: nat, d: Name)
    requires Distinct(t) && IsPath(t, path) && i < |NodeAt(t, path).kids|
    requires j < |Prune(t, path, i).kids| && d in Names(Prune(t, path, i).kids[j])
    ensures var j' := if path == [] && j >= i then j + 1 else j;
            d in Names(t.kids[j']) && t.kids[j'].name == Prune(t, path, i).kids[j].name
  {
    if path != [] && j == path[0] {
      PruneNames(t.kids[j], path[1..], i);
    }
  }

  lemma {:induction false} LeftKidExact(net: Net, t: Tree, path: seq<nat>, i: nat, j: nat)
    requires Distinct(t) && IsPath(t, path) && i < |NodeAt(t, path).kids| && AllExact(net, t)
    requires path == [] || NodeAt(t, path).kids[i].kids == []
    requires j < |Prune(t, path, i).kids|
    ensures AllExact(UnregistUp(net, t, path, NodeAt(t, path).kids[i].name), Prune(t, path, i).kids[j])
    decreases path, 0
  {
    var n := NodeAt(t, path).kids[i].name;
    var net' := UnregistUp(net, t, path, n);
    LeftKid(net, t, path, i, n, j);
    if path != [] && j == path[0] {
      LeaveIsExactIff(net, t.kids[j], path[1..], i);
      SameExact(UnregistUp(net, t.kids[j], path[1..], n), net', Prune(t, path, i).kids[j]);
    } else {
      SameExact(net, net', Prune(t, path, i).kids[j]);
    }
  }
}
