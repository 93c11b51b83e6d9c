/** Names of edge resources in the centre: the edge name with the cluster appended. */
module Naming {

  type Key = string

  const SEPARATOR := "-"

  /** cache.MetaNamespaceKeyFunc. */
  function MetaKey(namespace: string, name: string): Key {
    if namespace == "" then name else namespace + "/" + name
  }

  /** Resources of different namespaces or names have different keys, since neither has a slash. */
  lemma MetaKeyInjective(namespace: string, name: string, namespace': string, name': string)
    requires '/' !in namespace && '/' !in name && '/' !in namespace' && '/' !in name'
    requires MetaKey(namespace, name) == MetaKey(namespace', name')
    ensures namespace == namespace' && name == name'
  {
    var k := MetaKey(namespace, name);
    if namespace != "" || namespace' != "" {
      var n, n' := |namespace|, |namespace'|;
      assert namespace != "" ==> k[n] == '/' && k[..n] == namespace && k[n + 1..] == name;
      assert namespace' != "" ==> k[n'] == '/' && k[..n'] == namespace' && k[n' + 1..] == name';
      assert forall i :: 0 <= i < |k| && k[i] == '/' ==> namespace != "" && namespace' != "" && i == n == n' by {
        OneSlash(namespace, name);
        OneSlash(namespace', name');
      }
    }
  }

  lemma OneSlash(namespace: string, name: string)
    requires '/' !in namespace && '/' !in name
    ensures var k := MetaKey(namespace, name);
            forall i :: 0 <= i < |k| && k[i] == '/' ==> namespace != "" && i == |namespace|
  {
    var k := MetaKey(namespace, name);
    forall i | 0 <= i < |k| && i != |namespace|
      ensures k[i] != '/'
    {
      assert k[i] in namespace || k[i] in name;
    }
    if namespace == "" && name != "" {
      assert name[0] in name;
    }
  }

  /** UniqueFullResourceName. */
  function Unique(key: Key, cluster: string): Key {
    key + SEPARATOR + cluster
  }

  /** Metadata of a reported resource; UniqueResourceName renames it in place. */
  class Meta {
    var namespace: string
    var name: string
    var cluster: string

    constructor (namespace: string, name: string, cluster: string)
      ensures this.namespace == namespace && this.name == name && this.cluster == cluster
    {
      this.namespace, this.name, this.cluster := namespace, name, cluster;
    }

    /** Renaming and then keying is keying and then suffixing; without a cluster label the
        object is left alone. */
    method UniqueResourceName() returns (ok: bool)
      modifies this`name
      ensures ok <==> cluster != ""
      ensures MetaKey(namespace, name) ==
              if ok then Unique(old(MetaKey(namespace, name)), cluster) else old(MetaKey(namespace, name))
    {
      if cluster == "" {
        return false;
      }
      name := name + SEPARATOR + cluster;
      ok := true;
      assert namespace + "/" + (old(name) + SEPARATOR + cluster) == (namespace + "/" + old(name)) + SEPARATOR + cluster;
    }
  }

  /** One cluster's name ends in the other's, behind a separator. */
  predicate Overlaps(c: string, d: string) {
    |c| > |d| && c[|c| - |d| - 1..] == SEPARATOR + d
  }

  /** Two clusters can produce the same central key. */
  ghost predicate CanCollide(c: string, d: string) {
    exists k, l :: k != "" && l != "" && Unique(k, c) == Unique(l, d)
  }

  lemma SuffixAt(a: string, b: string, n: nat)
    requires a == b && n <= |a|
    ensures a[n..] == b[n..]
  {
  }

  lemma CollisionOverlaps(k: Key, c: string, l: Key, d: string)
    requires Unique(k, c) == Unique(l, d) && |c| > |d|
    ensures Overlaps(c, d)
  {
    var u := Unique(k, c);
    var n := |l|;
    SuffixAt(u, Unique(l, d), n);
    assert Unique(l, d)[n..] == SEPARATOR + d;
    assert u[n..] == c[|c| - |d| - 1..];
  }

  lemma OverlapHasSeparator(c: string, d: string)
    requires Overlaps(c, d)
    ensures SEPARATOR[0] in c
  {
    assert c[|c| - |d| - 1..][0] == c[|c| - |d| - 1];
  }

  lemma SameLength(k: Key, c: string, l: Key, d: string)
    requires Unique(k, c) == Unique(l, d) && |c| == |d|
    ensures k == l && c == d
  {
    SuffixAt(Unique(k, c), Unique(l, d), |k| + 1);
    assert Unique(k, c)[|k| + 1..] == c && Unique(l, d)[|k| + 1..] == d;
    assert Unique(k, c)[..|k|] == k && Unique(l, d)[..|k|] == l;
  }

  /** Every resource of the one cluster has a name under which the other cluster's resource gets
      the same central key. */
  lemma OverlapCollides(k: Key, c: string, d: string)
    requires Overlaps(c, d)
    ensures Unique(k, c) == Unique(k + SEPARATOR + c[..|c| - |d| - 1], d)
  {
    assert c == c[..|c| - |d| - 1] + (SEPARATOR + d);
  }

  /** Equal central keys mean equal clusters and keys, or overlapping cluster names. */
  lemma SameKey(k: Key, c: string, l: Key, d: string)
    requires Unique(k, c) == Unique(l, d)
    ensures (c == d && k == l) || Overlaps(c, d) || Overlaps(d, c)
  {
    if |c| > |d| {
      CollisionOverlaps(k, c, l, d);
    } else if |d| > |c| {
      CollisionOverlaps(l, d, k, c);
    } else {
      SameLength(k, c, l, d);
    }
  }

  /** Keys of two different clusters can be confused if and only if one cluster's name is a
      suffix of the other's behind a separator. */
  lemma CollideIff(c: string, d: string)
    requires c != d
    ensures CanCollide(c, d) <==> Overlaps(c, d) || Overlaps(d, c)
  {
    if CanCollide(c, d) {
      var k, l :| k != "" && l != "" && Unique(k, c) == Unique(l, d);
      SameKey(k, c, l, d);
    }
    if Overlaps(c, d) {
      OverlapCollides("x", c, d);
    }
    if Overlaps(d, c) {
      OverlapCollides("x", d, c);
      assert Unique("x" + SEPARATOR + d[..|d| - |c| - 1], c) == Unique("x", d);
    }
  }

  /** With separator-free cluster names the central key determines cluster and edge key. */
  lemma UniqueInjective(k: Key, c: string, l: Key, d: string)
    requires Unique(k, c) == Unique(l, d)
    requires SEPARATOR[0] !in c && SEPARATOR[0] !in d
    ensures k == l && c == d
  {
    SameKey(k, c, l, d);
    if Overlaps(c, d) {
      OverlapHasSeparator(c, d);
    } else if Overlaps(d, c) {
      OverlapHasSeparator(d, c);
    }
  }
}
