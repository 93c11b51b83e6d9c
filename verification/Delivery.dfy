/** Delivery of a message down a tree of clusters: every controller on the way rewrites the
    selector to the names of the selected clusters behind each child. */
module Delivery {

  import opened Clusters
  import opened Collections
  import opened ClusterTree
  import opened Selector
  import U = Uplinks
  import C = Convergence
  import H = ClusterHandler

  /** What the code leaves open: the regular expression engine, and the order in which a
      controller lists the selected clusters of a child. */
  datatype Env = Env(matches: Matcher, list: (Name, set<Name>) -> seq<Name>)

  ghost predicate Lists(env: Env) {
    forall at, s :: Elems(env.list(at, s)) == s
  }

  /** Cluster names can be carried by a selector and match themselves. */
  ghost predicate GoodNames(env: Env, names: set<Name>) {
    forall n :: n in names ==> ValidName(n) && env.matches(n, n)
  }

  ghost function PatternSet(selector: string): set<string> {
    Elems(Patterns(selector))
  }

  /** The clusters a controller selects behind its child `c`. */
  ghost function Selected(env: Env, net: U.Net, at: Name, selector: string, c: Name): set<Name> {
    H.SelectedBehind(env.matches, U.TableOf(net, at), PatternSet(selector), c)
  }

  /** The selector it sends to that child. */
  ghost function Rewritten(env: Env, net: U.Net, at: Name, selector: string, c: Name): string {
    Join(env.list(at, Selected(env, net, at, selector, c)))
  }

  /** One copy of the message on its arrival at a cluster. */
  datatype Copy = Copy(to: Name, selector: string)

  /** All copies that arise when the message arrives at the root of `t`. */
  ghost function Copies(env: Env, net: U.Net, t: Tree, selector: string): seq<Copy>
    decreases t
  {
    [Copy(t.name, selector)] + Sent(env, net, t.name, t.kids, selector)
  }

  /** All copies that arise when `at` forwards the message to its children `kids`. */
  ghost function Sent(env: Env, net: U.Net, at: Name, kids: seq<Tree>, selector: string): seq<Copy>
    decreases kids
  {
    if kids == [] then []
    else
      var c := kids[0].name;
      (if Selected(env, net, at, selector, c) != {}
       then Copies(env, net, kids[0], Rewritten(env, net, at, selector, c)) else [])
      + Sent(env, net, at, kids[1..], selector)
  }

  /** A cluster handles a copy if its own name matches the selector it arrives with. */
  ghost predicate Handles(env: Env, c: Copy) {
    Matched(env.matches, PatternSet(c.selector), c.to)
  }

  ghost function Handlers(env: Env, copies: seq<Copy>): set<Name> {
    set c | c in copies && Handles(env, c) :: c.to
  }

  /** The clusters below `t` that the original selector matches. */
  ghost function Targets(env: Env, t: Tree, selector: string): set<Name> {
    set n | n in Below(t) && Matched(env.matches, PatternSet(selector), n)
  }

  lemma {:induction false} SentTo(env: Env, net: U.Net, at: Name, kids: seq<Tree>, selector: string, i: nat, copy: Copy)
    requires i < |kids| && Selected(env, net, at, selector, kids[i].name) != {}
    requires copy in Copies(env, net, kids[i], Rewritten(env, net, at, selector, kids[i].name))
    ensures copy in Sent(env, net, at, kids, selector)
    decreases kids
  {
    if i > 0 {
      assert kids[1..][i - 1] == kids[i];
      SentTo(env, net, at, kids[1..], selector, i - 1, copy);
    }
  }

  lemma {:induction false} SentFrom(env: Env, net: U.Net, at: Name, kids: seq<Tree>, selector: string, copy: Copy)
    returns (i: nat)
    requires copy in Sent(env, net, at, kids, selector)
    ensures i < |kids| && Selected(env, net, at, selector, kids[i].name) != {}
    ensures copy in Copies(env, net, kids[i], Rewritten(env, net, at, selector, kids[i].name))
    decreases kids
  {
    if copy in Sent(env, net, at, kids[1..], selector) {
      i := SentFrom(env, net, at, kids[1..], selector, copy);
      assert kids[1..][i] == kids[i + 1];
      i := i + 1;
    } else {
      i := 0;
    }
  }

  // ----- At most one copy -----

  ghost predicate OneEach(copies: seq<Copy>, names: set<Name>) {
    && (forall c :: c in copies ==> c.to in names)
    && (forall i, j :: 0 <= i < j < |copies| ==> copies[i].to != copies[j].to)
  }

  lemma OneEachConcat(a: seq<Copy>, an: set<Name>, b: seq<Copy>, bn: set<Name>)
    requires OneEach(a, an) && OneEach(b, bn) && an !! bn
    ensures OneEach(a + b, an + bn)
  {
    forall i, j | 0 <= i < j < |a + b|
      ensures (a + b)[i].to != (a + b)[j].to
    {
      if i < |a| <= j {
        assert a[i] in a && b[j - |a|] in b;
      }
    }
  }

  ghost predicate DistinctAll(ts: seq<Tree>) {
    && (forall i, j :: 0 <= i < j < |ts| ==> Names(ts[i]) !! Names(ts[j]))
    && (forall i :: 0 <= i < |ts| ==> Distinct(ts[i]))
  }

  lemma FirstApart(ts: seq<Tree>)
    requires ts != [] && DistinctAll(ts)
    ensures Names(ts[0]) !! NamesOf(ts[1..]) && DistinctAll(ts[1..])
  {
    forall n | n in NamesOf(ts[1..])
      ensures n !in Names(ts[0])
    {
      NamesOfHas(ts[1..], n);
      var i :| 0 <= i < |ts| - 1 && n in Names(ts[1..][i]);
      assert ts[1..][i] == ts[i + 1];
    }
    assert forall i :: 0 <= i < |ts[1..]| ==> ts[1..][i] == ts[i + 1];
  }

  /** No cluster receives a message twice, whatever the tables hold. */
  lemma {:induction false} AtMostOneCopy(env: Env, net: U.Net, t: Tree, selector: string)
    requires Distinct(t)
    ensures OneEach(Copies(env, net, t, selector), Names(t))
    decreases t
  {
    var root := [Copy(t.name, selector)];
    SentOnce(env, net, t.name, t.kids, selector);
    OneEachConcat(root, {t.name}, Sent(env, net, t.name, t.kids, selector), Below(t));
  }

  lemma {:induction false} SentOnce(env: Env, net: U.Net, at: Name, kids: seq<Tree>, selector: string)
    requires DistinctAll(kids)
    ensures OneEach(Sent(env, net, at, kids, selector), NamesOf(kids))
    decreases kids
  {
    if kids != [] {
      FirstApart(kids);
      SentOnce(env, net, at, kids[1..], selector);
      var c := kids[0].name;
      AtMostOneCopy(env, net, kids[0], Rewritten(env, net, at, selector, c));
      var first := if Selected(env, net, at, selector, c) != {}
      then Copies(env, net, kids[0], Rewritten(env, net, at, selector, c)) else [];
      OneEachConcat(first, Names(kids[0]), Sent(env, net, at, kids[1..], selector), NamesOf(kids[1..]));
    }
  }

  // ----- Who handles it -----

  ghost predicate Settled(env: Env, net: U.Net, t: Tree) {
    Distinct(t) && C.AllExact(net, t) && GoodNames(env, Names(t)) && Lists(env)
  }

  lemma SettledKid(env: Env, net: U.Net, t: Tree, i: nat)
    requires Settled(env, net, t) && i < |t.kids|
    ensures Settled(env, net, t.kids[i])
  {
    forall n | n in Names(t.kids[i])
      ensures ValidName(n) && env.matches(n, n)
    {
      InKid(t, i, n);
    }
  }

  /** With an exact table, what is selected behind a child is what matches in its subtree, and
      exactly those names are the patterns it is sent. */
  lemma SelectedIs(env: Env, net: U.Net, t: Tree, selector: string, i: nat)
    requires Settled(env, net, t) && i < |t.kids|
    ensures var s := Selected(env, net, t.name, selector, t.kids[i].name);
            && (forall n :: n in s <==> n in Names(t.kids[i]) && Matched(env.matches, PatternSet(selector), n))
            && (s != {} ==> PatternSet(Rewritten(env, net, t.name, selector, t.kids[i].name)) == s)
  {
    var c := t.kids[i].name;
    var s := Selected(env, net, t.name, selector, c);
    forall n | n in s
      ensures n in Names(t.kids[i]) && n in Names(t)
    {
      C.BehindKid(net[t.name], t, i, n);
      InKid(t, i, n);
    }
    if s != {} {
      var names := env.list(t.name, s);
      assert Elems(names) == s;
      assert forall n :: n in names <==> n in s;
      SelectorCarriesNames(names);
    }
  }

  /** Every cluster of the subtree that the arriving selector matches handles a copy. */
  lemma {:induction false} MatchedIsHandled(env: Env, net: U.Net, t: Tree, selector: string, n: Name)
    requires Settled(env, net, t) && n in Names(t) && Matched(env.matches, PatternSet(selector), n)
    ensures n in Handlers(env, Copies(env, net, t, selector))
    decreases t
  {
    if n == t.name {
      var copy := Copy(t.name, selector);
      assert copy in Copies(env, net, t, selector) && Handles(env, copy);
    } else {
      var i := KidOf(t, n);
      var copy := SelectedIsHandled(env, net, t, selector, i, n);
      SentTo(env, net, t.name, t.kids, selector, i, copy);
      assert copy in Copies(env, net, t, selector);
    }
  }

  lemma {:induction false} SelectedIsHandled(env: Env, net: U.Net, t: Tree, selector: string, i: nat, n: Name)
    returns (copy: Copy)
    requires Settled(env, net, t) && i < |t.kids| && n in Names(t.kids[i])
    requires Matched(env.matches, PatternSet(selector), n)
             || Matched(env.matches, Selected(env, net, t.name, selector, t.kids[i].name), n)
    ensures Selected(env, net, t.name, selector, t.kids[i].name) != {}
    ensures copy in Copies(env, net, t.kids[i], Rewritten(env, net, t.name, selector, t.kids[i].name))
    ensures copy.to == n && Handles(env, copy)
    decreases t, 0
  {
    var c := t.kids[i].name;
    SelectedIs(env, net, t, selector, i);
    SettledKid(env, net, t, i);
    var s := Selected(env, net, t.name, selector, c);
    assert n in s ==> env.matches(n, n) by {
      InKid(t, i, n);
    }
    assert Matched(env.matches, s, n);
    MatchedIsHandled(env, net, t.kids[i], Rewritten(env, net, t.name, selector, c), n);
    copy :| copy in Copies(env, net, t.kids[i], Rewritten(env, net, t.name, selector, c))
            && Handles(env, copy) && copy.to == n;
  }

  /** No pattern of `ps` matches a cluster of the subtree outside `ps`. */
  ghost predicate Closed(env: Env, ps: set<string>, names: set<Name>) {
    forall n :: n in names && Matched(env.matches, ps, n) ==> n in ps
  }

  /** If the arriving patterns match nothing outside themselves, only they handle a copy. */
  lemma {:induction false} ClosedStaysWithin(env: Env, net: U.Net, t: Tree, selector: string, copy: Copy)
    requires Settled(env, net, t) && Closed(env, PatternSet(selector), Names(t))
    requires copy in Copies(env, net, t, selector) && Handles(env, copy)
    ensures copy.to in PatternSet(selector)
    decreases t
  {
    if copy != Copy(t.name, selector) {
      assert copy in Sent(env, net, t.name, t.kids, selector);
      var i := SentFrom(env, net, t.name, t.kids, selector, copy);
      var c := t.kids[i].name;
      var s := Selected(env, net, t.name, selector, c);
      SelectedIs(env, net, t, selector, i);
      SettledKid(env, net, t, i);
      forall n | n in Names(t.kids[i])
        ensures n in Names(t)
      {
        InKid(t, i, n);
      }
      assert s <= PatternSet(selector);
      assert Closed(env, s, Names(t.kids[i]));
      ClosedStaysWithin(env, net, t.kids[i], Rewritten(env, net, t.name, selector, c), copy);
    }
  }

  /** The condition for exact delivery: within each child's subtree, no selected name, read as a
      pattern, matches a name that is not selected. */
  ghost predicate NoStray(env: Env, t: Tree, selector: string) {
    forall i, p, n |
      && 0 <= i < |t.kids| && p in Names(t.kids[i]) && n in Names(t.kids[i])
      && p in Targets(env, t, selector) && env.matches(p, n) ::
      n in Targets(env, t, selector)
  }

  lemma TargetsInKid(env: Env, net: U.Net, t: Tree, selector: string, i: nat)
    requires Settled(env, net, t) && i < |t.kids|
    ensures forall n :: n in Selected(env, net, t.name, selector, t.kids[i].name) <==>
                        n in Names(t.kids[i]) && n in Targets(env, t, selector)
  {
    SelectedIs(env, net, t, selector, i);
    forall n | n in Names(t.kids[i])
      ensures n in Below(t)
    {
      InKid(t, i, n);
    }
  }

  /** Every cluster below the publisher that the selector matches handles the message. */
  lemma EveryTargetHandles(env: Env, net: U.Net, t: Tree, selector: string)
    requires Settled(env, net, t)
    ensures Targets(env, t, selector) <= Handlers(env, Sent(env, net, t.name, t.kids, selector))
  {
    forall n | n in Targets(env, t, selector)
      ensures n in Handlers(env, Sent(env, net, t.name, t.kids, selector))
    {
      var i := KidOf(t, n);
      var copy := SelectedIsHandled(env, net, t, selector, i, n);
      SentTo(env, net, t.name, t.kids, selector, i, copy);
    }
  }

  /** A name matched by a selected name of the same subtree handles the message. */
  lemma StrayIsHandled(env: Env, net: U.Net, t: Tree, selector: string, i: nat, p: Name, n: Name)
    requires Settled(env, net, t) && i < |t.kids| && p in Names(t.kids[i]) && n in Names(t.kids[i])
    requires p in Targets(env, t, selector) && env.matches(p, n)
    ensures n in Handlers(env, Sent(env, net, t.name, t.kids, selector))
  {
    TargetsInKid(env, net, t, selector, i);
    assert p in Selected(env, net, t.name, selector, t.kids[i].name);
    var copy := SelectedIsHandled(env, net, t, selector, i, n);
    SentTo(env, net, t.name, t.kids, selector, i, copy);
  }

  /** Delivery is exact if and only if there is no stray match; the names then handled are the
      ones the selector matches, each with its one copy. */
  lemma {:induction false} ExactDeliveryIff(env: Env, net: U.Net, t: Tree, selector: string)
    requires Settled(env, net, t)
    ensures Handlers(env, Sent(env, net, t.name, t.kids, selector)) == Targets(env, t, selector)
       <==> NoStray(env, t, selector)
  {
    EveryTargetHandles(env, net, t, selector);
    if NoStray(env, t, selector) {
      forall n | n in Handlers(env, Sent(env, net, t.name, t.kids, selector))
        ensures n in Targets(env, t, selector)
      {
        var copy :| copy in Sent(env, net, t.name, t.kids, selector) && Handles(env, copy) && copy.to == n;
        NoStrayHandler(env, net, t, selector, copy);
      }
    } else {
      var i, p, n :| 0 <= i < |t.kids| && p in Names(t.kids[i]) && p in Targets(env, t, selector)
                     && n in Names(t.kids[i]) && env.matches(p, n) && n !in Targets(env, t, selector);
      StrayIsHandled(env, net, t, selector, i, p, n);
    }
  }

  lemma NoStrayHandler(env: Env, net: U.Net, t: Tree, selector: string, copy: Copy)
    requires Settled(env, net, t) && NoStray(env, t, selector)
    requires copy in Sent(env, net, t.name, t.kids, selector) && Handles(env, copy)
    ensures copy.to in Targets(env, t, selector)
  {
    var i := SentFrom(env, net, t.name, t.kids, selector, copy);
    var c := t.kids[i].name;
    var s := Selected(env, net, t.name, selector, c);
    TargetsInKid(env, net, t, selector, i);
    SelectedIs(env, net, t, selector, i);
    SettledKid(env, net, t, i);
    assert Closed(env, s, Names(t.kids[i]));
    ClosedStaysWithin(env, net, t.kids[i], Rewritten(env, net, t.name, selector, c), copy);
  }

  /** A rewritten selector is one that selectChild can produce. */
  lemma RewrittenIsSelected(env: Env, net: U.Net, at: Name, selector: string, c: Name)
    requires Lists(env) && Selected(env, net, at, selector, c) != {}
    ensures H.Carries(Rewritten(env, net, at, selector, c), Selected(env, net, at, selector, c))
  {
    var names := env.list(at, Selected(env, net, at, selector, c));
    assert Elems(names) == Selected(env, net, at, selector, c);
    assert names != [];
  }

  /** From stale tables to delivery: after the rounds of reports that the tree needs, a message
      published at the root reaches every cluster its selector matches, no cluster gets two
      copies, and no other cluster handles it exactly if no selected name strays. */
  lemma DeliversAfterRounds(env: Env, w: U.World, t: Tree, rounds: seq<seq<U.Move>>, selector: string)
    requires Distinct(t) && C.Sound(w.net, t) && C.Drained(w, t)
    requires C.AreRounds(w, t, rounds) && |rounds| >= C.RoundsFor(t)
    requires GoodNames(env, Names(t)) && Lists(env)
    ensures var sent := Sent(env, C.RunRounds(w, t.name, rounds).net, t.name, t.kids, selector);
            && OneEach(sent, Below(t))
            && Targets(env, t, selector) <= Handlers(env, sent)
            && (Handlers(env, sent) == Targets(env, t, selector) <==> NoStray(env, t, selector))
  {
    C.TreeConverges(w, t, rounds);
    var net := C.RunRounds(w, t.name, rounds).net;
    SentOnce(env, net, t.name, t.kids, selector);
    EveryTargetHandles(env, net, t, selector);
    ExactDeliveryIff(env, net, t, selector);
  }

  // ----- A stray match -----

  predicate Contains(n: string, p: string) {
    p <= n || (n != "" && Contains(n[1..], p))
  }

  /** Patterns of plain letters: anchored at both ends, or matching anywhere. */
  predicate LiteralMatch(p: string, n: string) {
    if |p| >= 2 && p[0] == '^' && p[|p| - 1] == '$' then n == p[1..|p| - 1] else Contains(n, p)
  }

  /** A root above `a` above `ab`. */
  function Nested(): Tree {
    Tree("root", [Tree("a", [Tree("ab", [])])])
  }

  lemma OneName(t: Tree)
    ensures NamesOf([t]) == Names(t)
  {
    assert [t][1..] == [];
  }

  lemma NestedShape()
    ensures Distinct(Nested()) && Names(Nested()) == {"root", "a", "ab"} && Below(Nested()) == {"a", "ab"}
    ensures Names(Nested().kids[0]) == {"a", "ab"}
  {
    var ab := Tree("ab", []);
    var a := Tree("a", [ab]);
    OneName(ab);
    OneName(a);
    assert NamesOf([]) == {} && Names(ab) == {"ab"};
    assert Names(a) == {"a"} + Below(a) == {"a", "ab"};
    assert Distinct(ab) && Distinct(a);
  }

  lemma NestedTargets(env: Env)
    requires env.matches == LiteralMatch
    ensures Targets(env, Nested(), "^a$") == {"a"}
  {
    NestedShape();
    SplitOne("^a$");
    assert Patterns("^a$") == ["^a$"];
    assert PatternSet("^a$") == {"^a$"};
    assert "^a$"[1..2] == "a";
  }

  /** Publishing for `^a$`: the selector matches `a` only, but it is rewritten to `a`, which
      also matches `ab`, and `ab` handles the message. */
  lemma RewrittenSelectorStrays(env: Env, net: U.Net)
    requires env.matches == LiteralMatch && Lists(env) && C.AllExact(net, Nested())
    ensures Targets(env, Nested(), "^a$") == {"a"}
    ensures "ab" in Handlers(env, Sent(env, net, "root", Nested().kids, "^a$"))
  {
    NestedShape();
    NestedTargets(env);
    NestedNames(env);
    StrayIsHandled(env, net, Nested(), "^a$", 0, "a", "ab");
  }

  lemma NestedNames(env: Env)
    requires env.matches == LiteralMatch
    ensures GoodNames(env, {"root", "a", "ab"}) && env.matches("a", "ab")
  {
  }
}
