/** The data a composed review passes between planning, routing and running. */
module Review {
  import opened RegionGroups

  datatype ChangedFile = ChangedFile(path: string, previousPath: string, status: string)

  /** The change under review; `identity` stands for the immutable repository fields. */
  datatype Context = Context(identity: string, files: seq<ChangedFile>, repositoryFiles: seq<string>)

  datatype Detection = Detection(files: seq<string>, repositoryFiles: seq<string>, changeTypes: seq<string>,
                                 entrypoint: string)

  datatype Manifest = Manifest(detection: Detection, filesChanged: seq<string>)

  /** A planned group is numbered; a merged batch remembers how many groups it holds. */
  datatype GroupId = Planned(n: nat) | Merged(groups: nat)

  datatype Group = Group(id: GroupId, context: Context, regions: seq<Region>)

  /** No two changed files share a path. */
  ghost predicate DistinctPaths(files: seq<ChangedFile>) {
    forall f, g :: f in files && g in files && f.path == g.path ==> f == g
  }

  function Paths(files: seq<ChangedFile>): set<string> {
    if files == [] then {} else Paths(files[..|files| - 1]) + {files[|files| - 1].path}
  }

  lemma {:induction false} PathsMean(files: seq<ChangedFile>)
    ensures forall f :: f in files ==> f.path in Paths(files)
    ensures forall p :: p in Paths(files) ==> exists f :: f in files && f.path == p
  {
    if files != [] {
      var last := |files| - 1;
      PathsMean(files[..last]);
      assert files == files[..last] + [files[last]];
    }
  }

  lemma PathsSnoc(files: seq<ChangedFile>, f: ChangedFile)
    ensures Paths(files + [f]) == Paths(files) + {f.path}
  {
    assert (files + [f])[..|files|] == files;
  }

  function PathList(files: seq<ChangedFile>): (paths: seq<string>)
    ensures |paths| == |files| && forall i :: 0 <= i < |files| ==> paths[i] == files[i].path
  {
    seq(|files|, i requires 0 <= i < |files| => files[i].path)
  }

  function AllRegions(groups: seq<Group>): seq<Region> {
    if groups == [] then [] else groups[0].regions + AllRegions(groups[1..])
  }

  lemma {:induction false} AllRegionsConcat(a: seq<Group>, b: seq<Group>)
    ensures AllRegions(a + b) == AllRegions(a) + AllRegions(b)
  {
    if a == [] {
      assert a + b == b;
    } else {
      AllRegionsConcat(a[1..], b);
      assert (a + b)[1..] == a[1..] + b;
      assert AllRegions(a + b) == a[0].regions + (AllRegions(a[1..]) + AllRegions(b));
    }
  }

  /** reviewRegionLineCount: a region counts at least one line. */
  function LineCount(regions: seq<Region>): nat {
    if regions == [] then 0
    else
      var lines := regions[0].end - regions[0].start + 1;
      (if lines < 1 then 1 else lines) + LineCount(regions[1..])
  }

  lemma {:induction false} LineCountConcat(a: seq<Region>, b: seq<Region>)
    ensures LineCount(a + b) == LineCount(a) + LineCount(b)
  {
    if a == [] {
      assert a + b == b;
    } else {
      LineCountConcat(a[1..], b);
      assert (a + b)[1..] == a[1..] + b;
    }
  }
}
