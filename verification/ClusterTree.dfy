/** A fixed tree of clusters with distinct names. */
module ClusterTree {

  import opened Clusters
  import opened RouteTable

  datatype Tree = Tree(name: Name, kids: seq<Tree>)

  /** The names of a tree. */
  ghost function Names(t: Tree): set<Name>
    decreases t, 1
  {
    {t.name} + Below(t)
  }

  /** The names strictly below the root. */
  ghost function Below(t: Tree): set<Name>
    decreases t, 0
  {
    NamesOf(t.kids)
  }

  ghost function NamesOf(ts: seq<Tree>): set<Name> {
    if ts == [] then {} else Names(ts[0]) + NamesOf(ts[1..])
  }

  lemma LeafNames(t: Tree)
    requires t.kids == []
    ensures Names(t) == {t.name} && Below(t) == {}
  {
  }

  lemma {:induction false} NamesOfHas(ts: seq<Tree>, n: Name)
    requires n in NamesOf(ts)
    ensures exists i :: 0 <= i < |ts| && n in Names(ts[i])
  {
    if n in Names(ts[0]) {
    } else {
      NamesOfHas(ts[1..], n);
      var i :| 0 <= i < |ts| - 1 && n in Names(ts[1..][i]);
      assert ts[1..][i] == ts[i + 1];
    }
  }

  lemma {:induction false} InNamesOf(ts: seq<Tree>, i: nat, n: Name)
    requires i < |ts| && n in Names(ts[i])
    ensures n in NamesOf(ts)
  {
    if i > 0 {
      assert ts[i] == ts[1..][i - 1];
      InNamesOf(ts[1..], i - 1, n);
    }
  }

  ghost predicate Distinct(t: Tree) {
    && t.name !in Below(t)
    && (forall i, j :: 0 <= i < j < |t.kids| ==> Names(t.kids[i]) !! Names(t.kids[j]))
    && (forall i :: 0 <= i < |t.kids| ==> Distinct(t.kids[i]))
  }

  ghost function KidNames(t: Tree): set<Name> {
    set i | 0 <= i < |t.kids| :: t.kids[i].name
  }

  /** What is below each child. */
  ghost function Kids(t: Tree): map<Name, set<Name>> {
    KidsOf(t.kids)
  }

  ghost function KidsOf(ts: seq<Tree>): map<Name, set<Name>> {
    if ts == [] then map[] else KidsOf(ts[1..])[ts[0].name := Below(ts[0])]
  }

  lemma {:induction false} KidsOfKey(ts: seq<Tree>, c: Name)
    requires c in KidsOf(ts)
    ensures exists i :: 0 <= i < |ts| && ts[i].name == c
  {
    if c != ts[0].name {
      KidsOfKey(ts[1..], c);
      var i :| 0 <= i < |ts| - 1 && ts[1..][i].name == c;
      assert ts[i + 1].name == c;
    }
  }

  lemma {:induction false} KidsOfAt(ts: seq<Tree>, i: nat)
    requires forall i, j :: 0 <= i < j < |ts| ==> ts[i].name != ts[j].name
    requires i < |ts|
    ensures ts[i].name in KidsOf(ts) && KidsOf(ts)[ts[i].name] == Below(ts[i])
  {
    if i > 0 {
      assert ts[i] == ts[1..][i - 1];
      KidsOfAt(ts[1..], i - 1);
    }
  }

  lemma KidNamesApart(t: Tree)
    requires Distinct(t)
    ensures forall i, j :: 0 <= i < j < |t.kids| ==> t.kids[i].name != t.kids[j].name
  {
    forall i, j | 0 <= i < j < |t.kids|
      ensures t.kids[i].name != t.kids[j].name
    {
      assert t.kids[i].name in Names(t.kids[i]) && t.kids[j].name in Names(t.kids[j]);
    }
  }

  lemma KidsKeys(t: Tree)
    requires Distinct(t)
    ensures Kids(t).Keys == KidNames(t)
  {
    forall c | c in Kids(t)
      ensures c in KidNames(t)
    {
      KidsOfKey(t.kids, c);
    }
    KidNamesApart(t);
    forall i | 0 <= i < |t.kids|
      ensures t.kids[i].name in Kids(t)
    {
      KidsOfAt(t.kids, i);
    }
  }

  /** A name below `t` is in a child's subtree. */
  lemma KidOf(t: Tree, n: Name) returns (i: nat)
    requires n in Below(t)
    ensures i < |t.kids| && n in Names(t.kids[i])
    ensures n == t.kids[i].name || n in Below(t.kids[i])
  {
    NamesOfHas(t.kids, n);
    i :| 0 <= i < |t.kids| && n in Names(t.kids[i]);
  }

  lemma KidsAt(t: Tree, i: nat)
    requires Distinct(t) && i < |t.kids|
    ensures t.kids[i].name in Kids(t) && Kids(t)[t.kids[i].name] == Below(t.kids[i])
  {
    KidNamesApart(t);
    KidsOfAt(t.kids, i);
  }

  lemma InKid(t: Tree, i: nat, n: Name)
    requires i < |t.kids| && n in Names(t.kids[i])
    ensures n in Below(t)
  {
    InNamesOf(t.kids, i, n);
  }

  lemma KidNamed(t: Tree, c: Name) returns (i: nat)
    requires c in KidNames(t)
    ensures i < |t.kids| && t.kids[i].name == c && c in Names(t.kids[i])
  {
    i :| 0 <= i < |t.kids| && t.kids[i].name == c;
  }

  lemma KidsApart(t: Tree, i: nat, j: nat)
    requires Distinct(t) && i < |t.kids| && j < |t.kids|
    ensures i != j ==> Names(t.kids[i]) !! Names(t.kids[j])
  {
    assert i < j ==> Names(t.kids[i]) !! Names(t.kids[j]);
  }

  lemma BelowInKids(t: Tree, n: Name)
    requires Distinct(t) && n in Below(t)
    ensures n in All(Kids(t))
  {
    var i := KidOf(t, n);
    KidsAt(t, i);
  }

  lemma KidsInBelow(t: Tree, n: Name)
    requires Distinct(t) && n in All(Kids(t))
    ensures n in Below(t)
  {
    var c := InAll(Kids(t), n);
    KidsKeys(t);
    var i := KidNamed(t, c);
    KidsAt(t, i);
    InKid(t, i, n);
  }

  lemma KidsAll(t: Tree)
    requires Distinct(t)
    ensures All(Kids(t)) == Below(t)
  {
    var below, all := Below(t), All(Kids(t));
    forall n
      ensures n in below ==> n in all
      ensures n in all ==> n in below
    {
      if n in below {
        BelowInKids(t, n);
      }
      if n in all {
        KidsInBelow(t, n);
      }
    }
    assert below <= all && all <= below;
  }

  lemma KidsDisjoint(t: Tree)
    requires Distinct(t)
    ensures Disjoint(Kids(t))
  {
    var m := Kids(t);
    KidsKeys(t);
    forall c, d | c in m && d in m
      ensures c != d ==> m[c] !! m[d]
      ensures d !in m[c]
    {
      var i := KidNamed(t, c);
      var j := KidNamed(t, d);
      KidsAt(t, i);
      KidsAt(t, j);
      KidsApart(t, i, j);
      assert Distinct(t.kids[i]);
    }
  }

  ghost function Height(t: Tree): nat {
    if t.kids == [] then 0 else 1 + MaxHeight(t.kids)
  }

  ghost function MaxHeight(kids: seq<Tree>): (h: nat)
    requires kids != []
    ensures forall i :: 0 <= i < |kids| ==> Height(kids[i]) <= h
  {
    var first := Height(kids[0]);
    if |kids| == 1 then first
    else
      var rest := MaxHeight(kids[1..]);
      assert forall i :: 1 <= i < |kids| ==> kids[i] == kids[1..][i - 1];
      if first < rest then rest else first
  }

  lemma ChildlessKids(t: Tree)
    requires Distinct(t) && Height(t) == 1
    ensures forall c :: c in Kids(t) ==> Kids(t)[c] == {}
  {
    KidsKeys(t);
    forall c | c in Kids(t)
      ensures Kids(t)[c] == {}
    {
      var i := KidNamed(t, c);
      KidsAt(t, i);
      assert Height(t.kids[i]) == 0;
    }
  }

  ghost function Links(t: Tree): set<Link> {
    (set i | 0 <= i < |t.kids| :: Link(t.name, t.kids[i].name))
    + set i, l | 0 <= i < |t.kids| && l in Links(t.kids[i]) :: l
  }

  lemma {:induction false} LinkEnds(t: Tree, l: Link)
    requires l in Links(t)
    ensures l.parent in Names(t) && l.child in Below(t)
  {
    if i :| 0 <= i < |t.kids| && l in Links(t.kids[i]) {
      LinkEnds(t.kids[i], l);
      InKid(t, i, l.parent);
      InKid(t, i, l.child);
    } else {
      var i :| 0 <= i < |t.kids| && l == Link(t.name, t.kids[i].name);
      InKid(t, i, l.child);
    }
  }

  /** The only link of `t` that ends at its own root are those of its children. */
  lemma {:induction false} RootLinks(t: Tree, l: Link)
    requires Distinct(t) && l in Links(t) && l.parent == t.name
    ensures l.child in KidNames(t)
  {
    if i :| 0 <= i < |t.kids| && l in Links(t.kids[i]) {
      LinkEnds(t.kids[i], l);
      InKid(t, i, l.parent);
    }
  }

  /** Seen from the subtree `t`, the link is one of its own or touches no table of it. */
  ghost predicate Fits(t: Tree, l: Link) {
    l.parent in Names(t) ==> l in Links(t)
  }

  lemma {:induction false} FitsKid(t: Tree, l: Link, i: nat)
    requires Distinct(t) && Fits(t, l) && i < |t.kids|
    ensures Fits(t.kids[i], l)
  {
    if l.parent in Names(t.kids[i]) {
      InKid(t, i, l.parent);
      LinkInKid(t, l, i);
    }
  }

  lemma {:induction false} LinkInKid(t: Tree, l: Link, i: nat)
    requires Distinct(t) && l in Links(t) && i < |t.kids| && l.parent in Names(t.kids[i])
    ensures l in Links(t.kids[i])
  {
    InKid(t, i, l.parent);
    var j :| 0 <= j < |t.kids| && l in Links(t.kids[j]);
    LinkEnds(t.kids[j], l);
    KidsApart(t, i, j);
  }

  /** A cluster has one parent. */
  lemma {:induction false} OneParent(t: Tree, l: Link, l': Link)
    requires Distinct(t) && l in Links(t) && l' in Links(t) && l.child == l'.child
    ensures l == l'
    decreases t
  {
    if i :| 0 <= i < |t.kids| && l in Links(t.kids[i]) {
      OneParentInside(t, l, l', i);
    } else if j :| 0 <= j < |t.kids| && l' in Links(t.kids[j]) {
      OneParentInside(t, l', l, j);
    }
  }

  lemma {:induction false} OneParentInside(t: Tree, l: Link, l': Link, i: nat)
    requires Distinct(t) && i < |t.kids| && l in Links(t.kids[i]) && l' in Links(t) && l.child == l'.child
    ensures l == l'
    decreases t, 0
  {
    LinkEnds(t.kids[i], l);
    if j :| 0 <= j < |t.kids| && l' in Links(t.kids[j]) {
      LinkEnds(t.kids[j], l');
      KidsApart(t, i, j);
      OneParent(t.kids[i], l, l');
    } else {
      var j :| 0 <= j < |t.kids| && l' == Link(t.name, t.kids[j].name);
      KidNotDeeper(t, i, j);
    }
  }

  /** A child is not below another child. */
  lemma KidNotDeeper(t: Tree, i: nat, j: nat)
    requires Distinct(t) && i < |t.kids| && j < |t.kids|
    ensures t.kids[j].name !in Below(t.kids[i])
  {
    KidsApart(t, i, j);
    assert Distinct(t.kids[i]) && t.kids[j].name in Names(t.kids[j]);
  }
}
