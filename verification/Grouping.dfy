/** What grouping means for the regions themselves (groupReviewRegions, cmd/composite_plan.go). */
module Grouping {
  import opened Prelude
  import opened RegionGroups

  /** By path, then by first line, then by last line. */
  ghost predicate Before(a: Region, b: Region) {
    || ProperPrefix(a.path, b.path) || (exists k :: DifferAt(a.path, b.path, k) && a.path[k] < b.path[k])
    || (a.path == b.path && (a.start < b.start || (a.start == b.start && a.end < b.end)))
  }

  /** Of two regions in order: one file and at most 80 lines between, or two files that are related. */
  ghost predicate Touch(rel: Relations, a: Region, b: Region) {
    if a.path == b.path then b.start <= a.end + 80 else a.path in rel.Keys && b.path in rel[a.path]
  }

  lemma PrecedesMeans(a: Region, b: Region)
    ensures Precedes(a, b) <==> Before(a, b)
  {
    hide Less;
    LessMeans(a.path, b.path);
  }

  lemma EdgeMeans(g: Graph, i: nat, j: nat)
    requires i < j < |g.rs|
    ensures g.Edge(i, j) <==> Touch(g.rel, g.rs[i], g.rs[j])
  {
  }

  /** Where the regions of the groups stand in the sorted input. */
  lemma {:induction false} BucketMembers(rs: seq<Region>, cls: seq<int>, name: int, n: nat)
    requires n <= |cls| == |rs|
    ensures forall r :: r in Bucket(rs, cls, name, n) <==> exists x :: 0 <= x < n && cls[x] == name && rs[x] == r
  {
    if n > 0 {
      BucketMembers(rs, cls, name, n - 1);
      var last := if cls[n - 1] == name then [rs[n - 1]] else [];
      assert Bucket(rs, cls, name, n) == Bucket(rs, cls, name, n - 1) + last;
      forall r ensures r in Bucket(rs, cls, name, n) <==> exists x :: 0 <= x < n && cls[x] == name && rs[x] == r {
        assert r in last ==> cls[n - 1] == name && rs[n - 1] == r;
      }
    }
  }

  lemma {:induction false} BucketSorted(rs: seq<Region>, cls: seq<int>, name: int, n: nat)
    requires n <= |cls| == |rs| && Sorted(rs)
    ensures Sorted(Bucket(rs, cls, name, n))
  {
    if n > 0 {
      BucketSorted(rs, cls, name, n - 1);
      BucketMembers(rs, cls, name, n - 1);
      var before := Bucket(rs, cls, name, n - 1);
      forall i | 0 <= i < |before| ensures !Precedes(rs[n - 1], before[i]) {
        assert before[i] in before;
      }
    }
  }

  lemma SortedMembers(input: seq<Region>)
    ensures forall r :: r in input <==> exists x :: 0 <= x < |Sort(input)| && Sort(input)[x] == r
  {
    forall r ensures r in input <==> exists x :: 0 <= x < |Sort(input)| && Sort(input)[x] == r {
      assert r in input <==> r in multiset(input);
      assert r in Sort(input) <==> r in multiset(Sort(input));
    }
  }

  /** Of two regions in order, the first stands first in the sorted input. */
  lemma PlacesInOrder(rs: seq<Region>, x: nat, y: nat)
    requires Sorted(rs) && x < |rs| && y < |rs| && Before(rs[x], rs[y])
    ensures x < y
  {
    PrecedesMeans(rs[x], rs[y]);
    PrecedesIsStrictOrder(rs[x], rs[y], rs[x]);
  }

  /** Regions that touch are in one group. */
  lemma TouchingShareAGroup(input: seq<Region>, rel: Relations, a: Region, b: Region) returns (k: nat)
    requires a in input && b in input && Before(a, b) && Touch(rel, a, b)
    ensures k < |Components(input, rel)| && a in Components(input, rel)[k] && b in Components(input, rel)[k]
  {
    hide Components, Sort, Before, Touch;
    var g := Graph(Sort(input), rel);
    var place := GroupsAreConnectedComponents(input, rel);
    SortSorted(input);
    SortedMembers(input);
    var x: nat :| x < |g.rs| && g.rs[x] == a;
    var y: nat :| y < |g.rs| && g.rs[y] == b;
    PlacesInOrder(g.rs, x, y);
    EdgeMeans(g, x, y);
    g.ConnectedEquivalence(x, y, y);
    k := place[x];
    BucketMembers(g.rs, place, k, |input|);
  }

  /** Regions of different groups do not touch. */
  lemma GroupsDoNotTouch(input: seq<Region>, rel: Relations, k: nat, m: nat, a: Region, b: Region)
    requires k < |Components(input, rel)| && m < |Components(input, rel)| && k != m
    requires a in Components(input, rel)[k] && b in Components(input, rel)[m] && Before(a, b)
    ensures !Touch(rel, a, b)
  {
    hide Components, Sort, Before, Touch;
    var g := Graph(Sort(input), rel);
    var place := GroupsAreConnectedComponents(input, rel);
    SortSorted(input);
    BucketMembers(g.rs, place, k, |input|);
    BucketMembers(g.rs, place, m, |input|);
    var x: nat :| x < |input| && place[x] == k && g.rs[x] == a;
    var y: nat :| y < |input| && place[y] == m && g.rs[y] == b;
    PlacesInOrder(g.rs, x, y);
    EdgeMeans(g, x, y);
    g.ConnectedEquivalence(x, y, y);
  }

  /** On a walk that leaves a set of nodes some step leaves it. */
  lemma {:induction false} StepOut(g: Graph, x: int, p: seq<int>, y: int, part: set<int>) returns (u: int, v: int)
    requires g.Walk(x, p, y) && x in part && y !in part
    ensures g.Adjacent(u, v) && u in part && v !in part
    ensures exists q :: g.Walk(x, q, u)
    decreases |p|
  {
    if p[0] in part {
      u, v := StepOut(g, p[0], p[1..], y, part);
      var q :| g.Walk(p[0], q, u);
      assert ([p[0]] + q)[1..] == q;
      assert g.Walk(x, [p[0]] + q, u);
    } else {
      u, v := x, p[0];
      assert g.Walk(x, [], x);
    }
  }

  /** However a group is divided in two, some region of one part touches one of the other. */
  lemma {:induction false} GroupHangsTogether(input: seq<Region>, rel: Relations, k: nat, part: set<Region>, a: Region,
                                              b: Region) returns (c: Region, d: Region)
    requires k < |Components(input, rel)|
    requires a in Components(input, rel)[k] && a in part && b in Components(input, rel)[k] && b !in part
    ensures c in Components(input, rel)[k] && d in Components(input, rel)[k] && (c in part <==> d !in part)
    ensures !Before(d, c) && Touch(rel, c, d)
  {
    hide Components, Sort, Touch, Before, Bucket;
    var g := Graph(Sort(input), rel);
    var place := GroupsAreConnectedComponents(input, rel);
    SortSorted(input);
    BucketMembers(g.rs, place, k, |input|);
    var x: nat :| x < |input| && place[x] == k && g.rs[x] == a;
    var y: nat :| y < |input| && place[y] == k && g.rs[y] == b;
    var nodes := set z | 0 <= z < |input| && g.rs[z] in part;
    assert g.Connected(x, y);
    var p :| g.Walk(x, p, y);
    var u, v := StepOut(g, x, p, y, nodes);
    assert g.Connected(x, u);
    g.ConnectedEquivalence(u, v, v);
    g.ConnectedEquivalence(x, u, v);
    assert place[u] == k && place[v] == k;
    var i, j := if u < v then u else v, if u < v then v else u;
    EdgeMeans(g, i, j);
    PrecedesMeans(g.rs[j], g.rs[i]);
    c, d := g.rs[i], g.rs[j];
  }

  /** Regions stand in order inside each group, and groups in the order of their first regions. */
  lemma GroupsAreInOrder(input: seq<Region>, rel: Relations)
    ensures forall k, i, j :: 0 <= k < |Components(input, rel)| && 0 <= i < j < |Components(input, rel)[k]| ==>
              !Before(Components(input, rel)[k][j], Components(input, rel)[k][i])
    ensures forall k :: 0 <= k < |Components(input, rel)| ==> Components(input, rel)[k] != []
    ensures forall k, m :: 0 <= k < m < |Components(input, rel)| ==>
              !Before(Components(input, rel)[m][0], Components(input, rel)[k][0])
  {
    hide Components, Sort, Before, Precedes, Bucket;
    var place := GroupsAreConnectedComponents(input, rel);
    GroupsPartitionInOrder(input, rel);
    SortSorted(input);
    forall a, b ensures Precedes(a, b) <==> Before(a, b) { PrecedesMeans(a, b); }
    forall k | 0 <= k < |Components(input, rel)| ensures Sorted(Components(input, rel)[k]) {
      BucketSorted(Sort(input), place, k, |input|);
    }
  }
}
