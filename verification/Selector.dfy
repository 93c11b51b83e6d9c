/** Cluster selectors: comma-separated patterns, each matched anywhere in a cluster name. The
    regular expression engine is a parameter `matches(pattern, name)`; an invalid pattern
    matches nothing. */
module Selector {

  import opened Clusters
  import opened Collections

  type Matcher = (string, string) -> bool

  const DELIMITER := ','

  /** strings.Split by the delimiter: the empty string is one empty part. */
  function Split(s: string): (parts: seq<string>)
    ensures parts != []
  {
    if s == "" then [""]
    else
      var rest := Split(s[1..]);
      if s[0] == DELIMITER then [""] + rest else [[s[0]] + rest[0]] + rest[1..]
  }

  /** strings.Join with the delimiter. */
  function Join(parts: seq<string>): string {
    if parts == [] then ""
    else if |parts| == 1 then parts[0]
    else parts[0] + [DELIMITER] + Join(parts[1..])
  }

  /** unicode.IsSpace. */
  predicate IsSpace(c: char) {
    || '\t' <= c <= '\r' || c == ' ' || c == '\U{85}' || c == '\U{A0}' || c == '\U{1680}'
    || '\U{2000}' <= c <= '\U{200a}' || c == '\U{2028}' || c == '\U{2029}' || c == '\U{202f}'
    || c == '\U{205f}' || c == '\U{3000}'
  }

  predicate Trimmed(s: string) {
    s == "" || (!IsSpace(s[0]) && !IsSpace(s[|s| - 1]))
  }

  /** strings.TrimSpace. */
  function TrimSpace(s: string): (r: string)
    ensures Trimmed(r)
    ensures Trimmed(s) ==> r == s
  {
    if s == "" then s
    else if IsSpace(s[0]) then TrimSpace(s[1..])
    else if IsSpace(s[|s| - 1]) then TrimSpace(s[..|s| - 1])
    else s
  }

  predicate AllSpaces(s: string) {
    forall i :: 0 <= i < |s| ==> IsSpace(s[i])
  }

  /** `r` is `s` from `i` to `j`, and there are only spaces before and behind. */
  ghost predicate Cut(s: string, r: string, i: nat, j: nat) {
    i <= j <= |s| && r == s[i..j] && AllSpaces(s[..i]) && AllSpaces(s[j..])
  }

  lemma CutFront(s: string, r: string, i: nat, j: nat)
    requires s != "" && IsSpace(s[0]) && Cut(s[1..], r, i, j)
    ensures Cut(s, r, i + 1, j + 1)
  {
    assert s[1..][i..j] == s[i + 1..j + 1] && s[1..][j..] == s[j + 1..];
    assert s[..i + 1] == [s[0]] + s[1..][..i];
  }

  lemma CutBack(s: string, r: string, i: nat, j: nat)
    requires s != "" && IsSpace(s[|s| - 1]) && Cut(s[..|s| - 1], r, i, j)
    ensures Cut(s, r, i, j)
  {
    var n := |s| - 1;
    assert s[..n][i..j] == s[i..j] && s[..n][..i] == s[..i];
    assert s[j..] == s[..n][j..] + [s[n]];
  }

  /** What goes is spaces at both ends, and nothing else. */
  lemma {:induction false} TrimSpaceCuts(s: string) returns (i: nat, j: nat)
    ensures Cut(s, TrimSpace(s), i, j)
    decreases |s|
  {
    if s == "" {
      i, j := 0, 0;
    } else if IsSpace(s[0]) {
      i, j := TrimSpaceCuts(s[1..]);
      CutFront(s, TrimSpace(s), i, j);
      i, j := i + 1, j + 1;
    } else if IsSpace(s[|s| - 1]) {
      i, j := TrimSpaceCuts(s[..|s| - 1]);
      CutBack(s, TrimSpace(s), i, j);
    } else {
      i, j := 0, |s|;
    }
  }

  /** Spaces around a trimmed string go, however many there are. */
  lemma {:induction false} TrimSpaceAround(before: string, s: string, after: string)
    requires s != "" && Trimmed(s) && AllSpaces(before) && AllSpaces(after)
    ensures TrimSpace(before + s + after) == s
    decreases |before| + |after|
  {
    var all := before + s + after;
    if before != "" {
      assert all[0] == before[0] && all[1..] == before[1..] + s + after;
      TrimSpaceAround(before[1..], s, after);
    } else if after != "" {
      var n := |after| - 1;
      assert all[0] == s[0] && all[|all| - 1] == after[n];
      assert all[..|all| - 1] == before + s + after[..n];
      TrimSpaceAround(before, s, after[..n]);
    } else {
      assert all == s;
    }
  }

  /** The patterns of a selector. */
  function Patterns(s: string): seq<string> {
    seq(|Split(s)|, i requires 0 <= i < |Split(s)| => TrimSpace(Split(s)[i]))
  }

  /** `r` is `s` without the spaces at both ends. */
  ghost predicate IsTrim(s: string, r: string) {
    Trimmed(r) && exists i, j :: Cut(s, r, i, j)
  }

  /** The patterns are the comma-separated parts, each without the spaces around it. */
  method NewSelector(s: string) returns (ps: seq<string>)
    ensures ps == Patterns(s)
    ensures |ps| == |Split(s)| && forall i :: 0 <= i < |ps| ==> IsTrim(Split(s)[i], ps[i])
  {
    ps := Split(s);
    for i := 0 to |ps|
      invariant |ps| == |Split(s)|
      invariant forall j :: 0 <= j < i ==> ps[j] == TrimSpace(Split(s)[j])
      invariant forall j :: i <= j < |ps| ==> ps[j] == Split(s)[j]
    {
      ps := ps[i := TrimSpace(ps[i])];
    }
    forall i | 0 <= i < |ps|
      ensures IsTrim(Split(s)[i], ps[i])
    {
      var a, b := TrimSpaceCuts(Split(s)[i]);
    }
  }

  ghost predicate Matched(matches: Matcher, ps: set<string>, name: Name) {
    exists p :: p in ps && matches(p, name)
  }

  method Has(matches: Matcher, ps: seq<string>, name: Name) returns (found: bool)
    ensures found <==> Matched(matches, Elems(ps), name)
  {
    for i := 0 to |ps|
      invariant forall j :: 0 <= j < i ==> !matches(ps[j], name)
    {
      if matches(ps[i], name) {
        assert ps[i] in Elems(ps);
        return true;
      }
    }
    found := false;
  }

  /** A name that a selector can carry: non-empty, trimmed and without the delimiter. */
  predicate ValidName(n: Name) {
    n != "" && Trimmed(n) && DELIMITER !in n
  }

  lemma {:induction false} SplitPart(p: string, rest: string)
    requires DELIMITER !in p
    ensures Split(p + [DELIMITER] + rest) == [p] + Split(rest)
  {
    var s := p + [DELIMITER] + rest;
    if p == "" {
      assert s[1..] == rest;
    } else {
      assert s[1..] == p[1..] + [DELIMITER] + rest;
      SplitPart(p[1..], rest);
      assert p[0] in p && [p[0]] + p[1..] == p;
    }
  }

  lemma {:induction false} SplitOne(p: string)
    requires DELIMITER !in p
    ensures Split(p) == [p]
  {
    if p != "" {
      SplitOne(p[1..]);
      assert p[0] in p && [p[0]] + p[1..] == p;
    }
  }

  /** Joining comma-free parts and splitting gives the parts back. */
  lemma {:induction false} SplitJoin(parts: seq<string>)
    requires parts != [] && forall p :: p in parts ==> DELIMITER !in p
    ensures Split(Join(parts)) == parts
  {
    if |parts| == 1 {
      SplitOne(parts[0]);
    } else {
      SplitJoin(parts[1..]);
      SplitPart(parts[0], Join(parts[1..]));
    }
  }

  /** Splitting and joining gives any selector back. */
  lemma {:induction false} JoinSplit(s: string)
    ensures Join(Split(s)) == s
  {
    if s != "" {
      JoinSplit(s[1..]);
      var rest := Split(s[1..]);
      if s[0] == DELIMITER {
        assert ([""] + rest)[1..] == rest;
      } else if |rest| > 1 {
        assert ([[s[0]] + rest[0]] + rest[1..])[1..] == rest[1..];
      }
    }
  }

  /** The part with spaces before and after a name. */
  function Spaced(before: seq<string>, names: seq<Name>, after: seq<string>): (parts: seq<string>)
    requires |before| == |names| == |after|
    ensures |parts| == |names| && forall i :: 0 <= i < |parts| ==> parts[i] == before[i] + names[i] + after[i]
  {
    seq(|names|, i requires 0 <= i < |names| && |before| == |names| == |after| => before[i] + names[i] + after[i])
  }

  /** A selector made of valid cluster names, with any spaces around the names and the commas, has
      exactly those names as its patterns. */
  lemma SpacesDoNotMatter(before: seq<string>, names: seq<Name>, after: seq<string>)
    requires names != [] && |before| == |names| == |after|
    requires forall i :: 0 <= i < |names| ==> ValidName(names[i]) && AllSpaces(before[i]) && AllSpaces(after[i])
    ensures Patterns(Join(Spaced(before, names, after))) == names
  {
    var parts := Spaced(before, names, after);
    forall i | 0 <= i < |parts|
      ensures DELIMITER !in parts[i] && TrimSpace(parts[i]) == names[i]
    {
      TrimSpaceAround(before[i], names[i], after[i]);
    }
    SplitJoin(parts);
  }

  /** A selector made of valid cluster names has exactly those names as its patterns. It is
      never the empty selector, and it has no empty pattern, which would match everything. */
  lemma SelectorCarriesNames(names: seq<Name>)
    requires names != [] && forall n :: n in names ==> ValidName(n)
    ensures Patterns(Join(names)) == names
    ensures Join(names) != "" && "" !in Patterns(Join(names))
  {
    var none := seq(|names|, i => "");
    SpacesDoNotMatter(none, names, none);
    assert forall i :: 0 <= i < |names| ==> "" + names[i] + "" == names[i];
    assert Spaced(none, names, none) == names;
    assert names[0] in names && Split("") == [""];
  }
}
