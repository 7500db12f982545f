/** Grouping of changed hunks into connected components (cmd/composite_plan.go). */
module RegionGroups {
  import opened Prelude

  datatype Region = Region(path: string, start: int, end: int)

  /** Directed lookup table between changed paths; `Connect` keeps it symmetric. */
  type Relations = map<string, set<string>>

  const GAP := 80

  // ---- the sort order ----

  predicate Precedes(a: Region, b: Region) {
    if a.path != b.path then Less(a.path, b.path)
    else if a.start != b.start then a.start < b.start
    else a.end < b.end
  }

  predicate Sorted(rs: seq<Region>) {
    forall i, j :: 0 <= i < j < |rs| ==> !Precedes(rs[j], rs[i])
  }

  lemma PrecedesIsStrictOrder(a: Region, b: Region, c: Region)
    ensures Precedes(a, b) ==> !Precedes(b, a)
    ensures !Precedes(a, b) && !Precedes(b, a) ==> a == b
    ensures Precedes(a, b) && Precedes(b, c) ==> Precedes(a, c)
  {
    if Less(a.path, b.path) { LessAsymmetric(a.path, b.path); }
    LessTotal(a.path, b.path);
    if Less(a.path, b.path) && Less(b.path, c.path) {
      LessTransitive(a.path, b.path, c.path);
      if a.path == c.path { LessAsymmetric(a.path, b.path); }
    }
  }

  function Insert(r: Region, rs: seq<Region>): (s: seq<Region>)
    ensures multiset(s) == multiset(rs) + multiset{r} && |s| == |rs| + 1
  {
    if rs == [] || !Precedes(rs[0], r) then [r] + rs
    else
      assert rs == [rs[0]] + rs[1..];
      [rs[0]] + Insert(r, rs[1..])
  }

  /** The result of sort.Slice: `SortedIsUnique` shows no other sorted permutation exists. */
  function Sort(rs: seq<Region>): (s: seq<Region>)
    ensures multiset(s) == multiset(rs) && |s| == |rs|
  {
    if rs == [] then []
    else
      assert rs == [rs[0]] + rs[1..];
      Insert(rs[0], Sort(rs[1..]))
  }

  lemma {:induction false} InsertSorted(r: Region, rs: seq<Region>)
    requires Sorted(rs)
    ensures Sorted(Insert(r, rs))
  {
    if rs == [] {
    } else if !Precedes(rs[0], r) {
      forall j | 0 < j <= |rs| ensures !Precedes(([r] + rs)[j], r) {
        PrecedesIsStrictOrder(rs[j - 1], r, rs[0]);
        PrecedesIsStrictOrder(rs[0], rs[j - 1], r);
        PrecedesIsStrictOrder(rs[j - 1], rs[0], r);
      }
    } else {
      InsertSorted(r, rs[1..]);
      var s := Insert(r, rs[1..]);
      forall j | 0 <= j < |s| ensures !Precedes(s[j], rs[0]) {
        assert s[j] in multiset(s);
        if s[j] == r { PrecedesIsStrictOrder(rs[0], r, r); } else { assert s[j] in rs[1..]; }
      }
    }
  }

  lemma {:induction false} SortSorted(rs: seq<Region>)
    ensures Sorted(Sort(rs))
  {
    if rs != [] {
      SortSorted(rs[1..]);
      InsertSorted(rs[0], Sort(rs[1..]));
    }
  }

  lemma HeadIsLeast(rs: seq<Region>, r: Region)
    requires Sorted(rs) && r in rs
    ensures !Precedes(r, rs[0])
  {
    PrecedesIsStrictOrder(r, r, r);
  }

  lemma {:induction false} SortedIsUnique(a: seq<Region>, b: seq<Region>)
    requires Sorted(a) && Sorted(b) && multiset(a) == multiset(b)
    ensures a == b
  {
    assert |multiset(a)| == |a| && |multiset(b)| == |b|;
    if a != [] {
      assert a[0] in multiset(b) && b[0] in multiset(a);
      HeadIsLeast(a, b[0]);
      HeadIsLeast(b, a[0]);
      PrecedesIsStrictOrder(a[0], b[0], a[0]);
      MultisetTail(a);
      MultisetTail(b);
      SortedIsUnique(a[1..], b[1..]);
      assert a == [a[0]] + a[1..] && b == [b[0]] + b[1..];
    }
  }

  // ---- the graph the code draws over the sorted regions ----

  datatype Graph = Graph(rs: seq<Region>, rel: Relations) {

    predicate Edge(i: int, j: int)
      requires 0 <= i < j < |rs|
    {
      if rs[i].path == rs[j].path then rs[j].start - rs[i].end <= GAP
      else rs[i].path in rel && rs[j].path in rel[rs[i].path]
    }

    predicate Adjacent(x: int, y: int) {
      && 0 <= x < |rs| && 0 <= y < |rs|
      && ((x < y && Edge(x, y)) || (y < x && Edge(y, x)))
    }

    /** `p` lists the nodes after `x` on a walk from `x` to `y`. */
    predicate Walk(x: int, p: seq<int>, y: int)
      decreases |p|
    {
      if p == [] then x == y else Adjacent(x, p[0]) && Walk(p[0], p[1..], y)
    }

    /** The reflexive-symmetric-transitive closure of the edges. */
    ghost predicate Connected(x: int, y: int) {
      exists p :: Walk(x, p, y)
    }

    lemma {:induction false} WalkConcat(x: int, p: seq<int>, y: int, q: seq<int>, z: int)
      requires Walk(x, p, y) && Walk(y, q, z)
      ensures Walk(x, p + q, z)
      decreases |p|
    {
      if p == [] {
        assert p + q == q;
      } else {
        WalkConcat(p[0], p[1..], y, q, z);
        assert (p + q)[1..] == p[1..] + q;
      }
    }

    lemma {:induction false} WalkBack(x: int, p: seq<int>, y: int) returns (q: seq<int>)
      requires Walk(x, p, y)
      ensures Walk(y, q, x)
      decreases |p|
    {
      if p == [] {
        q := [];
      } else {
        var r := WalkBack(p[0], p[1..], y);
        assert Walk(x, [], x);
        assert Walk(p[0], [x], x);
        WalkConcat(y, r, p[0], [x], x);
        q := r + [x];
      }
    }

    lemma ConnectedEquivalence(x: int, y: int, z: int)
      ensures Connected(x, x)
      ensures Connected(x, y) ==> Connected(y, x)
      ensures Connected(x, y) && Connected(y, z) ==> Connected(x, z)
      ensures Adjacent(x, y) ==> Connected(x, y)
    {
      assert Walk(x, [], x);
      if Connected(x, y) {
        var p :| Walk(x, p, y);
        var r := WalkBack(x, p, y);
        if Connected(y, z) {
          var q :| Walk(y, q, z);
          WalkConcat(x, p, y, q, z);
        }
      }
      if Adjacent(x, y) {
        assert Walk(y, [], y);
        assert Walk(x, [y], y);
      }
    }

    /** A labelling that is constant across every edge is constant along every walk. */
    lemma {:induction false} WalkKeepsLabel(cls: seq<int>, x: int, p: seq<int>, y: int)
      requires |cls| == |rs| && 0 <= x < |rs| && Walk(x, p, y)
      requires forall i, j :: 0 <= i < j < |rs| && Edge(i, j) ==> cls[i] == cls[j]
      ensures 0 <= y < |rs| && cls[x] == cls[y]
      decreases |p|
    {
      if p != [] {
        WalkKeepsLabel(cls, p[0], p[1..], y);
      }
    }

    ghost predicate Labels(cls: seq<int>) {
      && |cls| == |rs|
      && forall x, y :: 0 <= x < |rs| && 0 <= y < |rs| ==> (cls[x] == cls[y] <==> Connected(x, y))
    }

    lemma {:induction false} SoundAndClosedLabels(cls: seq<int>)
      requires |cls| == |rs|
      requires forall i, j :: 0 <= i < j < |rs| && Edge(i, j) ==> cls[i] == cls[j]
      requires forall x, y :: 0 <= x < |rs| && 0 <= y < |rs| && cls[x] == cls[y] ==> Connected(x, y)
      ensures Labels(cls)
    {
      forall x, y | 0 <= x < |rs| && 0 <= y < |rs| && Connected(x, y) ensures cls[x] == cls[y] {
        var p :| Walk(x, p, y);
        WalkKeepsLabel(cls, x, p, y);
      }
    }

    /** The least region connected to `x`: the canonical name of its component. */
    ghost function LeaderFrom(k: nat, x: nat): nat
      requires k <= x
      decreases x - k
    {
      if k == x || Connected(k, x) then k else LeaderFrom(k + 1, x)
    }

    lemma {:induction false} LeaderFromIsLeast(k: nat, x: nat)
      requires k <= x
      ensures k <= LeaderFrom(k, x) <= x && Connected(LeaderFrom(k, x), x)
      ensures forall m :: k <= m < LeaderFrom(k, x) ==> !Connected(m, x)
      decreases x - k
    {
      ConnectedEquivalence(x, x, x);
      if k != x && !Connected(k, x) {
        LeaderFromIsLeast(k + 1, x);
      }
    }

    ghost function Leaders(): seq<int> {
      seq(|rs|, x requires 0 <= x => LeaderFrom(0, x))
    }

    lemma LeadersLabel()
      ensures Labels(Leaders())
    {
      var cls := Leaders();
      forall x, y | 0 <= x < |rs| && 0 <= y < |rs|
        ensures cls[x] == cls[y] <==> Connected(x, y)
      {
        LeaderFromIsLeast(0, x);
        LeaderFromIsLeast(0, y);
        var (l, m) := (LeaderFrom(0, x), LeaderFrom(0, y));
        ConnectedEquivalence(l, x, y);
        ConnectedEquivalence(x, m, y);
        ConnectedEquivalence(m, y, x);
        ConnectedEquivalence(y, x, x);
        ConnectedEquivalence(x, y, y);
      }
    }
  }

  // ---- reading groups off a labelling, in order of first appearance ----

  /** The distinct labels of the first `n` positions, in order of first appearance. */
  function FirstSeen(cls: seq<int>, n: nat): seq<int>
    requires n <= |cls|
  {
    if n == 0 then []
    else
      var before := FirstSeen(cls, n - 1);
      if cls[n - 1] in before then before else before + [cls[n - 1]]
  }

  /** The regions among the first `n` that carry `name`, in order. */
  function Bucket(rs: seq<Region>, cls: seq<int>, name: int, n: nat): seq<Region>
    requires n <= |cls| == |rs|
  {
    if n == 0 then []
    else Bucket(rs, cls, name, n - 1) + if cls[n - 1] == name then [rs[n - 1]] else []
  }

  function Cells(rs: seq<Region>, cls: seq<int>, n: nat): (cells: seq<seq<Region>>)
    requires n <= |cls| == |rs|
  {
    var order := FirstSeen(cls, n);
    seq(|order|, k requires 0 <= k < |order| => Bucket(rs, cls, order[k], n))
  }

  /** What grouping promises: the connected components of the sorted regions. */
  ghost function Components(input: seq<Region>, rel: Relations): seq<seq<Region>> {
    var g := Graph(Sort(input), rel);
    Cells(g.rs, g.Leaders(), |g.rs|)
  }

  lemma {:induction false} FirstSeenDistinct(cls: seq<int>, n: nat)
    requires n <= |cls|
    ensures forall k, m :: 0 <= k < m < |FirstSeen(cls, n)| ==> FirstSeen(cls, n)[k] != FirstSeen(cls, n)[m]
    ensures forall x :: 0 <= x < n ==> cls[x] in FirstSeen(cls, n)
    ensures forall l :: l in FirstSeen(cls, n) ==> exists x :: 0 <= x < n && cls[x] == l
  {
    if n > 0 {
      FirstSeenDistinct(cls, n - 1);
      assert cls[n - 1] in FirstSeen(cls, n);
    }
  }

  lemma {:induction false} BucketSameKernel(rs: seq<Region>, a: seq<int>, b: seq<int>, la: int, lb: int, n: nat)
    requires n <= |a| == |b| == |rs|
    requires forall x :: 0 <= x < n ==> (a[x] == la <==> b[x] == lb)
    ensures Bucket(rs, a, la, n) == Bucket(rs, b, lb, n)
  {
    if n > 0 {
      BucketSameKernel(rs, a, b, la, lb, n - 1);
    }
  }

  ghost predicate SameKernel(a: seq<int>, b: seq<int>) {
    |a| == |b| && forall x, y :: 0 <= x < |a| && 0 <= y < |a| ==> (a[x] == a[y] <==> b[x] == b[y])
  }

  lemma {:induction false} FirstSeenSameKernel(a: seq<int>, b: seq<int>, n: nat)
    requires SameKernel(a, b) && n <= |a|
    ensures |FirstSeen(a, n)| == |FirstSeen(b, n)|
    ensures forall k :: 0 <= k < |FirstSeen(a, n)| ==>
              exists x :: 0 <= x < n && a[x] == FirstSeen(a, n)[k] && b[x] == FirstSeen(b, n)[k]
  {
    if n > 0 {
      FirstSeenSameKernel(a, b, n - 1);
      FirstSeenDistinct(a, n - 1);
      FirstSeenDistinct(b, n - 1);
      var fa, fb := FirstSeen(a, n - 1), FirstSeen(b, n - 1);
      assert a[n - 1] in fa <==> b[n - 1] in fb by {
        if a[n - 1] in fa {
          var x :| 0 <= x < n - 1 && a[x] == a[n - 1];
          assert b[x] == b[n - 1];
        }
        if b[n - 1] in fb {
          var x :| 0 <= x < n - 1 && b[x] == b[n - 1];
          assert a[x] == a[n - 1];
        }
      }
      forall k | 0 <= k < |FirstSeen(a, n)|
        ensures exists x :: 0 <= x < n && a[x] == FirstSeen(a, n)[k] && b[x] == FirstSeen(b, n)[k]
      {
        if k < |fa| {
          var x :| 0 <= x < n - 1 && a[x] == fa[k] && b[x] == fb[k];
        } else {
          assert a[n - 1] == FirstSeen(a, n)[k] && b[n - 1] == FirstSeen(b, n)[k];
        }
      }
    }
  }

  /** Groups depend only on which regions share a label, not on the labels. */
  lemma CellsSameKernel(rs: seq<Region>, a: seq<int>, b: seq<int>, n: nat)
    requires SameKernel(a, b) && n <= |a| == |rs|
    ensures Cells(rs, a, n) == Cells(rs, b, n)
  {
    FirstSeenSameKernel(a, b, n);
    forall k | 0 <= k < |FirstSeen(a, n)| ensures Cells(rs, a, n)[k] == Cells(rs, b, n)[k] {
      var x :| 0 <= x < n && a[x] == FirstSeen(a, n)[k] && b[x] == FirstSeen(b, n)[k];
      BucketSameKernel(rs, a, b, a[x], b[x], n);
    }
  }

  lemma LabelsGiveCells(g: Graph, cls: seq<int>)
    requires g.Labels(cls)
    ensures Cells(g.rs, cls, |g.rs|) == Cells(g.rs, g.Leaders(), |g.rs|)
  {
    g.LeadersLabel();
    var leaders := g.Leaders();
    assert |leaders| == |g.rs|;
    forall x, y | 0 <= x < |cls| && 0 <= y < |cls|
      ensures cls[x] == cls[y] <==> leaders[x] == leaders[y]
    {
      assert cls[x] == cls[y] <==> g.Connected(x, y);
    }
    CellsSameKernel(g.rs, cls, leaders, |g.rs|);
  }

  // ---- the union-find ----

  /** Node `v` hangs below `root[v]`, and `rank` rises on the way there. */
  ghost predicate NodeOk(parent: seq<int>, root: seq<int>, rank: seq<nat>, top: nat, v: int)
    requires |parent| == |root| == |rank| && 0 <= v < |parent|
  {
    && 0 <= parent[v] < |parent| && 0 <= root[v] < |parent|
    && rank[v] <= rank[root[v]] <= top
    && root[parent[v]] == root[v]
    && root[root[v]] == root[v] && parent[root[v]] == root[v]
    && (if parent[v] == v then root[v] == v else rank[v] < rank[parent[v]])
  }

  ghost predicate Forest(parent: seq<int>, root: seq<int>, rank: seq<nat>, top: nat) {
    && |parent| == |root| == |rank|
    && forall v :: 0 <= v < |parent| ==> NodeOk(parent, root, rank, top, v)
  }

  lemma CompressKeepsForest(parent: seq<int>, v: int, root: seq<int>, rank: seq<nat>, top: nat)
    requires Forest(parent, root, rank, top) && 0 <= v < |parent| && parent[v] != v
    ensures Forest(parent[v := root[v]], root, rank, top)
  {
    var compressed := parent[v := root[v]];
    assert NodeOk(parent, root, rank, top, v);
    assert NodeOk(parent, root, rank, top, parent[v]);
    forall u | 0 <= u < |parent| ensures NodeOk(compressed, root, rank, top, u) {
      assert NodeOk(parent, root, rank, top, u);
      assert NodeOk(parent, root, rank, top, root[u]);
    }
  }

  /** The labelling after the tree of `b` is hung below the root of `a`. */
  ghost function Joined(root: seq<int>, a: int, b: int): (joined: seq<int>)
    requires 0 <= a < |root| && 0 <= b < |root|
    ensures |joined| == |root|
  {
    seq(|root|, k requires 0 <= k < |root| => if root[k] == root[b] then root[a] else root[k])
  }

  lemma HangKeepsForest(parent: seq<int>, a: int, b: int, root: seq<int>, rank: seq<nat>, top: nat)
    requires Forest(parent, root, rank, top) && 0 <= a < |parent| && 0 <= b < |parent| && root[a] != root[b]
    ensures 0 <= root[a] < |parent| && 0 <= root[b] < |parent|
    ensures Forest(parent[root[b] := root[a]], Joined(root, a, b), rank[root[a] := top + 1], top + 1)
  {
    assert NodeOk(parent, root, rank, top, a) && NodeOk(parent, root, rank, top, b);
    var (parent', root', rank', top') :=
        (parent[root[b] := root[a]], Joined(root, a, b), rank[root[a] := top + 1], top + 1);
    forall u | 0 <= u < |parent| ensures NodeOk(parent', root', rank', top', u) {
      assert NodeOk(parent, root, rank, top, u);
      assert NodeOk(parent, root, rank, top, parent[u]);
      assert NodeOk(parent, root, rank, top, root[u]);
    }
  }

  method Find(parent: array<int>, value: int, ghost root: seq<int>, ghost rank: seq<nat>, ghost top: nat)
    returns (r: int)
    requires Forest(parent[..], root, rank, top) && 0 <= value < parent.Length
    modifies parent
    ensures Forest(parent[..], root, rank, top)
    ensures r == root[value] && 0 <= r < parent.Length && parent[r] == r
    decreases top - rank[value]
  {
    assert NodeOk(parent[..], root, rank, top, value);
    assert NodeOk(parent[..], root, rank, top, root[value]);
    if parent[value] != value {
      assert NodeOk(parent[..], root, rank, top, parent[value]);
      var up := Find(parent, parent[value], root, rank, top);
      assert NodeOk(parent[..], root, rank, top, value);
      assert NodeOk(parent[..], root, rank, top, root[value]);
      ghost var before := parent[..];
      parent[value] := up;
      if before[value] != value { CompressKeepsForest(before, value, root, rank, top); }
      assert parent[..] == before[value := up];
    }
    return parent[value];
  }

  method Union(parent: array<int>, a: int, b: int, ghost root: seq<int>, ghost rank: seq<nat>, ghost top: nat)
    returns (ghost rank': seq<nat>, ghost top': nat)
    requires Forest(parent[..], root, rank, top) && 0 <= a < parent.Length && 0 <= b < parent.Length
    modifies parent
    ensures Forest(parent[..], Joined(root, a, b), rank', top')
  {
    var ra := Find(parent, a, root, rank, top);
    var rb := Find(parent, b, root, rank, top);
    rank', top' := rank, top;
    if ra != rb {
      HangKeepsForest(parent[..], a, b, root, rank, top);
      ghost var before := parent[..];
      parent[rb] := ra;
      rank', top' := rank[ra := top + 1], top + 1;
      assert parent[..] == before[rb := ra];
    } else {
      assert Joined(root, a, b) == root;
    }
  }

  /** Joining the ends of an edge only merges connected regions and keeps finished edges joined. */
  lemma JoinAlongEdge(g: Graph, root: seq<int>, i: int, j: int)
    requires |root| == |g.rs| && 0 <= i < j < |g.rs| && g.Edge(i, j)
    requires forall x, y :: 0 <= x < |root| && 0 <= y < |root| && root[x] == root[y] ==> g.Connected(x, y)
    ensures forall x, y :: 0 <= x < |root| && 0 <= y < |root| && Joined(root, i, j)[x] == Joined(root, i, j)[y] ==>
              g.Connected(x, y)
  {
    var joined := Joined(root, i, j);
    forall x, y | 0 <= x < |root| && 0 <= y < |root| && joined[x] == joined[y] ensures g.Connected(x, y) {
      g.ConnectedEquivalence(i, j, y);
      g.ConnectedEquivalence(j, i, y);
      g.ConnectedEquivalence(x, i, y);
      g.ConnectedEquivalence(x, j, y);
      g.ConnectedEquivalence(x, j, i);
      g.ConnectedEquivalence(x, i, j);
    }
  }

  ghost predicate Sound(g: Graph, root: seq<int>) {
    |root| == |g.rs| && forall x, y :: 0 <= x < |root| && 0 <= y < |root| && root[x] == root[y] ==> g.Connected(x, y)
  }

  /** Every edge visited before the loop reaches the pair (`i`, `j`) joins equal labels. */
  ghost predicate ClosedBefore(g: Graph, root: seq<int>, i: int, j: int)
    requires |root| == |g.rs|
  {
    forall x, y :: 0 <= x < y < |root| && g.Edge(x, y) && (x < i || (x == i && y < j)) ==> root[x] == root[y]
  }

  lemma {:induction false} UnseenBucketEmpty(rs: seq<Region>, cls: seq<int>, name: int, n: nat)
    requires n <= |cls| == |rs| && name !in FirstSeen(cls, n)
    ensures Bucket(rs, cls, name, n) == []
  {
    if n > 0 {
      UnseenBucketEmpty(rs, cls, name, n - 1);
    }
  }

  /** The pairwise pass: afterwards two regions hang in one tree exactly when they are connected. */
  method JoinEdges(regions: seq<Region>, rel: Relations)
    returns (parent: array<int>, ghost root: seq<int>, ghost rank: seq<nat>, ghost top: nat)
    ensures fresh(parent) && Forest(parent[..], root, rank, top)
    ensures Graph(regions, rel).Labels(root)
  {
    var n := |regions|;
    ghost var g := Graph(regions, rel);
    parent := new int[n](i => i);
    root, rank, top := parent[..], seq(n, _ => 0), 0;
    forall x ensures g.Connected(x, x) { g.ConnectedEquivalence(x, x, x); }
    for i := 0 to n
      invariant Forest(parent[..], root, rank, top) && Sound(g, root) && ClosedBefore(g, root, i, 0)
    {
      for j := i + 1 to n
        invariant Forest(parent[..], root, rank, top) && Sound(g, root) && ClosedBefore(g, root, i, j)
      {
        if regions[i].path == regions[j].path {
          if regions[j].start - regions[i].end <= GAP {
            rank, top, root := JoinPair(g, parent, i, j, root, rank, top);
          }
          continue;
        }
        if regions[i].path in rel && regions[j].path in rel[regions[i].path] {
          rank, top, root := JoinPair(g, parent, i, j, root, rank, top);
        }
      }
    }
    g.SoundAndClosedLabels(root);
  }

  method JoinPair(ghost g: Graph, parent: array<int>, i: int, j: int, ghost root: seq<int>, ghost rank: seq<nat>,
                  ghost top: nat)
    returns (ghost rank': seq<nat>, ghost top': nat, ghost root': seq<int>)
    requires Forest(parent[..], root, rank, top) && Sound(g, root)
    requires 0 <= i < j < |g.rs| && g.Edge(i, j) && ClosedBefore(g, root, i, j)
    modifies parent
    ensures Forest(parent[..], root', rank', top') && Sound(g, root') && ClosedBefore(g, root', i, j + 1)
  {
    JoinAlongEdge(g, root, i, j);
    rank', top' := Union(parent, i, j, root, rank, top);
    root' := Joined(root, i, j);
  }

  /** The collecting pass: `byRoot` gathers each tree, `order` remembers when it was first met. */
  method Collect(regions: seq<Region>, parent: array<int>, ghost root: seq<int>, ghost rank: seq<nat>, ghost top: nat)
    returns (groups: seq<seq<Region>>)
    requires Forest(parent[..], root, rank, top) && |root| == |regions|
    modifies parent
    ensures groups == Cells(regions, root, |regions|)
  {
    var byRoot: map<int, seq<Region>> := map[];
    var order: seq<int> := [];
    for i := 0 to |regions|
      invariant Forest(parent[..], root, rank, top)
      invariant order == FirstSeen(root, i)
      invariant forall r :: r in byRoot <==> r in order
      invariant forall r :: r in byRoot ==> byRoot[r] == Bucket(regions, root, r, i)
    {
      var r := Find(parent, i, root, rank, top);
      if r !in byRoot {
        UnseenBucketEmpty(regions, root, r, i);
        order := order + [r];
        byRoot := byRoot[r := []];
      }
      byRoot := byRoot[r := byRoot[r] + [regions[i]]];
    }
    groups := [];
    for k := 0 to |order|
      invariant groups == Cells(regions, root, |regions|)[..k]
    {
      groups := groups + [byRoot[order[k]]];
    }
  }

  /** groupReviewRegions: sort a copy, join every close or related pair, collect the trees. */
  method GroupReviewRegions(input: seq<Region>, rel: Relations) returns (groups: seq<seq<Region>>)
    ensures groups == Components(input, rel)
  {
    var regions := Sort(input);
    var parent, root, rank, top := JoinEdges(regions, rel);
    groups := Collect(regions, parent, root, rank, top);
    LabelsGiveCells(Graph(regions, rel), root);
  }

  // ---- what the groups mean ----

  lemma {:induction false} CellsPartition(rs: seq<Region>, cls: seq<int>, n: nat)
    requires n <= |cls| == |rs|
    ensures multiset(Flatten(Cells(rs, cls, n))) == multiset(rs[..n])
  {
    if n > 0 {
      hide FirstSeen, Cells, Flatten;
      CellsPartition(rs, cls, n - 1);
      CellsGrow(rs, cls, n);
      assert rs[..n] == rs[..n - 1] + [rs[n - 1]];
      var before, order := Cells(rs, cls, n - 1), FirstSeen(cls, n - 1);
      if cls[n - 1] in order {
        var k :| 0 <= k < |order| && order[k] == cls[n - 1];
        FlattenAppendAt(before, k, rs[n - 1]);
      } else {
        FlattenSnoc(before, [rs[n - 1]]);
      }
    }
  }

  /** One more region either extends the one group carrying its label or opens a new last group. */
  lemma CellsGrow(rs: seq<Region>, cls: seq<int>, n: nat)
    requires 0 < n <= |cls| == |rs|
    ensures var before, order := Cells(rs, cls, n - 1), FirstSeen(cls, n - 1);
            if cls[n - 1] !in order then Cells(rs, cls, n) == before + [[rs[n - 1]]]
            else forall k :: 0 <= k < |order| && order[k] == cls[n - 1] ==>
                   Cells(rs, cls, n) == before[k := before[k] + [rs[n - 1]]]
  {
    var before, order := Cells(rs, cls, n - 1), FirstSeen(cls, n - 1);
    FirstSeenDistinct(cls, n - 1);
    if cls[n - 1] !in order {
      UnseenBucketEmpty(rs, cls, cls[n - 1], n - 1);
      assert Bucket(rs, cls, cls[n - 1], n) == [] + [rs[n - 1]];
      assert FirstSeen(cls, n) == order + [cls[n - 1]];
      var after, grown := Cells(rs, cls, n), before + [[rs[n - 1]]];
      assert |after| == |grown| && after[|order|] == grown[|order|];
      assert forall k :: 0 <= k < |order| ==> after[k] == grown[k];
      assert after == grown;
    } else {
      forall k | 0 <= k < |order| && order[k] == cls[n - 1]
        ensures Cells(rs, cls, n) == before[k := before[k] + [rs[n - 1]]]
      {
        assert forall m :: 0 <= m < |order| ==> Cells(rs, cls, n)[m] == before[k := before[k] + [rs[n - 1]]][m];
      }
    }
  }

  /** Groups are non-empty, and their first members stand at rising positions of `rs`. */
  lemma {:induction false} HeadsRise(rs: seq<Region>, cls: seq<int>, n: nat) returns (heads: seq<nat>)
    requires n <= |cls| == |rs|
    ensures |heads| == |Cells(rs, cls, n)|
    ensures forall k :: 0 <= k < |heads| ==>
              heads[k] < n && Cells(rs, cls, n)[k] != [] && Cells(rs, cls, n)[k][0] == rs[heads[k]]
    ensures forall k, m :: 0 <= k < m < |heads| ==> heads[k] < heads[m]
  {
    if n == 0 {
      heads := [];
    } else {
      heads := HeadsRise(rs, cls, n - 1);
      CellsGrow(rs, cls, n);
      if cls[n - 1] !in FirstSeen(cls, n - 1) {
        heads := heads + [n - 1];
      } else {
        var k :| 0 <= k < |heads| && FirstSeen(cls, n - 1)[k] == cls[n - 1];
      }
    }
  }

  /** Every input region lands in exactly one group; groups are non-empty and ordered by smallest member. */
  lemma GroupsPartitionInOrder(input: seq<Region>, rel: Relations)
    ensures multiset(Flatten(Components(input, rel))) == multiset(input)
    ensures forall k :: 0 <= k < |Components(input, rel)| ==> Components(input, rel)[k] != []
    ensures forall k, m :: 0 <= k < m < |Components(input, rel)| ==>
              !Precedes(Components(input, rel)[m][0], Components(input, rel)[k][0])
  {
    var g := Graph(Sort(input), rel);
    SortSorted(input);
    CellsPartition(g.rs, g.Leaders(), |g.rs|);
    assert g.rs[..|g.rs|] == g.rs;
    var heads := HeadsRise(g.rs, g.Leaders(), |g.rs|);
  }

  /** `place` says which group each sorted region is in; sharing a group is exactly being connected. */
  lemma GroupsAreConnectedComponents(input: seq<Region>, rel: Relations) returns (place: seq<int>)
    ensures |place| == |input|
    ensures forall x :: 0 <= x < |input| ==> 0 <= place[x] < |Components(input, rel)|
    ensures forall k :: 0 <= k < |Components(input, rel)| ==>
              Components(input, rel)[k] == Bucket(Sort(input), place, k, |input|)
    ensures forall x, y :: 0 <= x < |input| && 0 <= y < |input| ==>
              (place[x] == place[y] <==> Graph(Sort(input), rel).Connected(x, y))
  {
    var g := Graph(Sort(input), rel);
    var leaders, n := g.Leaders(), |input|;
    var order := FirstSeen(leaders, n);
    g.LeadersLabel();
    FirstSeenDistinct(leaders, n);
    place := [];
    while |place| < n
      invariant |place| <= n
      invariant forall x :: 0 <= x < |place| ==> 0 <= place[x] < |order| && order[place[x]] == leaders[x]
    {
      assert leaders[|place|] in order;
      var k :| 0 <= k < |order| && order[k] == leaders[|place|];
      place := place + [k];
    }
    forall k | 0 <= k < |order| ensures Components(input, rel)[k] == Bucket(g.rs, place, k, n) {
      BucketSameKernel(g.rs, leaders, place, order[k], k, n);
    }
    forall x, y | 0 <= x < n && 0 <= y < n ensures place[x] == place[y] <==> g.Connected(x, y) {
      assert leaders[x] == leaders[y] <==> g.Connected(x, y);
    }
  }

  /** The order in which Git reports the hunks does not matter. */
  lemma GroupsIgnoreInputOrder(a: seq<Region>, b: seq<Region>, rel: Relations)
    requires multiset(a) == multiset(b)
    ensures Components(a, rel) == Components(b, rel)
  {
    SortSorted(a);
    SortSorted(b);
    SortedIsUnique(Sort(a), Sort(b));
  }

  // ---- one file: a single sweep computes the same groups ----

  function MaxEnd(rs: seq<Region>, n: nat): int
    requires 0 < n <= |rs|
  {
    if n == 1 then rs[0].end
    else if rs[n - 1].end > MaxEnd(rs, n - 1) then rs[n - 1].end else MaxEnd(rs, n - 1)
  }

  lemma {:induction false} MaxEndIsMax(rs: seq<Region>, n: nat)
    requires 0 < n <= |rs|
    ensures forall i :: 0 <= i < n ==> rs[i].end <= MaxEnd(rs, n)
    ensures exists i :: 0 <= i < n && rs[i].end == MaxEnd(rs, n)
  {
    if n > 1 {
      MaxEndIsMax(rs, n - 1);
    }
    assert n == 1 ==> rs[0].end == MaxEnd(rs, n);
    assert n > 1 && rs[n - 1].end > MaxEnd(rs, n - 1) ==> rs[n - 1].end == MaxEnd(rs, n);
  }

  /** Start a new group exactly when the region begins more than GAP lines after all earlier ends. */
  function SweepName(rs: seq<Region>, x: nat): nat
    requires x < |rs|
  {
    if x == 0 || rs[x].start > MaxEnd(rs, x) + GAP then x else SweepName(rs, x - 1)
  }

  ghost predicate OneFile(rs: seq<Region>) {
    Sorted(rs) && forall i, j :: 0 <= i < j < |rs| ==> rs[i].path == rs[j].path
  }

  lemma {:induction false} SweepKeepsEdges(rs: seq<Region>, i: nat, j: nat, k: nat)
    requires OneFile(rs) && i <= k <= j < |rs| && i < j && rs[j].start - rs[i].end <= GAP
    ensures SweepName(rs, i) == SweepName(rs, k)
  {
    if i < k {
      MaxEndIsMax(rs, k);
      assert k < j ==> !Precedes(rs[j], rs[k]);
      SweepKeepsEdges(rs, i, j, k - 1);
    }
  }

  lemma {:induction false} SweepNameConnected(g: Graph, x: nat)
    requires OneFile(g.rs) && x < |g.rs|
    ensures g.Connected(SweepName(g.rs, x), x)
    decreases x
  {
    g.ConnectedEquivalence(x, x, x);
    if SweepName(g.rs, x) != x {
      MaxEndIsMax(g.rs, x);
      var i: nat :| i < x && g.rs[i].end == MaxEnd(g.rs, x);
      SweepNameConnected(g, i);
      SweepKeepsEdges(g.rs, i, x, x);
      g.ConnectedEquivalence(i, x, x);
      g.ConnectedEquivalence(SweepName(g.rs, x), i, x);
    }
  }

  lemma SweepLabels(g: Graph, sweep: seq<int>)
    requires OneFile(g.rs) && |sweep| == |g.rs|
    requires forall x :: 0 <= x < |g.rs| ==> sweep[x] == SweepName(g.rs, x)
    ensures g.Labels(sweep)
  {
    forall i, j | 0 <= i < j < |g.rs| && g.Edge(i, j) ensures sweep[i] == sweep[j] {
      SweepKeepsEdges(g.rs, i, j, j);
    }
    forall x, y | 0 <= x < |g.rs| && 0 <= y < |g.rs| && sweep[x] == sweep[y] ensures g.Connected(x, y) {
      SweepNameConnected(g, x);
      SweepNameConnected(g, y);
      g.ConnectedEquivalence(sweep[x], x, x);
      g.ConnectedEquivalence(x, sweep[x], y);
    }
    g.SoundAndClosedLabels(sweep);
  }

  function SweepNames(rs: seq<Region>): (sweep: seq<int>)
    ensures |sweep| == |rs| && forall x :: 0 <= x < |rs| ==> sweep[x] == SweepName(rs, x)
  {
    seq(|rs|, x requires 0 <= x < |rs| => SweepName(rs, x))
  }

  /** For the hunks of one file, one pass over the sorted hunks gives the same groups as all pairs. */
  lemma {:induction false} SweepGivesComponents(input: seq<Region>, rel: Relations)
    requires OneFile(Sort(input))
    ensures Components(input, rel) == Cells(Sort(input), SweepNames(Sort(input)), |input|)
  {
    hide Sort, SweepName, OneFile, Cells;
    var g := Graph(Sort(input), rel);
    var sweep := SweepNames(g.rs);
    SweepLabels(g, sweep);
    LabelsGiveCells(g, sweep);
  }

  /** Comparing a hunk only with the one before it would split this component. */
  lemma NeighbourComparisonIsNotEnough()
    ensures var rs := [Region("f", 1, 300), Region("f", 10, 20), Region("f", 350, 360)];
            && Sorted(rs)
            && rs[2].start - rs[1].end > GAP
            && Graph(rs, map[]).Connected(1, 2)
  {
    var g := Graph([Region("f", 1, 300), Region("f", 10, 20), Region("f", 350, 360)], map[]);
    assert g.Adjacent(1, 0) && g.Adjacent(0, 2);
    g.ConnectedEquivalence(1, 0, 2);
    g.ConnectedEquivalence(0, 2, 2);
  }

  // ---- relations between changed files ----

  ghost predicate Related(rel: Relations, a: string, b: string) {
    a in rel && b in rel[a]
  }

  function Connect(rel: Relations, changed: set<string>, a: string, b: string): Relations {
    if a == "" || b == "" || a == b || a !in changed || b !in changed then rel
    else
      var first := rel[a := (if a in rel then rel[a] else {}) + {b}];
      first[b := (if b in first then first[b] else {}) + {a}]
  }

  /**
   * changedFileRelations over the import, importer and test links the graph reports. The result is
   * fixed by the set of links, so the iteration order over the changed paths cannot matter, and
   * it is symmetric, so the direction in which grouping looks a pair up cannot matter either.
   */
  method ChangedFileRelations(changed: set<string>, links: seq<(string, string)>) returns (rel: Relations)
    ensures forall a, b :: Related(rel, a, b) <==>
              a != "" && b != "" && a != b && a in changed && b in changed && ((a, b) in links || (b, a) in links)
  {
    rel := map[];
    for k := 0 to |links|
      invariant forall a, b :: Related(rel, a, b) <==>
                  a != "" && b != "" && a != b && a in changed && b in changed
                      && ((a, b) in links[..k] || (b, a) in links[..k])
    {
      var before := rel;
      rel := Connect(rel, changed, links[k].0, links[k].1);
      assert links[..k + 1] == links[..k] + [links[k]];
      ConnectAddsPair(before, changed, links[k].0, links[k].1);
    }
    assert links[..|links|] == links;
  }

  lemma ConnectAddsPair(rel: Relations, changed: set<string>, p: string, q: string)
    ensures forall a, b :: Related(Connect(rel, changed, p, q), a, b) <==>
              Related(rel, a, b) || (p != "" && q != "" && p != q && p in changed && q in changed
                  && ((a, b) == (p, q) || (a, b) == (q, p)))
  {
  }
}
