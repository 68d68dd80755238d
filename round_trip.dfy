/**
 * Writing with the chunked writer, then reading the file back.  The file
 * Lima builds from the calls is described by ApiMaillage: every element
 * and every member with its id shifted by 1.  The records carry exactly
 * that content, and reading it into an empty mesh gives back as many
 * nodes, edges, faces, regions and groups as were written.
 */
module RoundTrip {

  import opened Wrappers
  import opened GmdsMesh
  import opened LimaData
  import opened MaliPP
  import opened Chunking
  import opened IdScan
  import opened Shapes
  import opened ChunkedStreams
  import opened ApiStream
  import opened StreamProps
  import opened Reader
  import LegacyWriter

  // ----- the Maillage the chunked writer describes -----

  function ApiBras(es: seq<MeshEdge>): (r: seq<Bras>)
    ensures |r| == |es| && forall k :: 0 <= k < |es| ==> r[k] == Bras(es[k].id + 1, es[k].n1 + 1, es[k].n2 + 1)
  {
    seq(|es|, k requires 0 <= k < |es| => Bras(es[k].id + 1, es[k].n1 + 1, es[k].n2 + 1))
  }

  function ApiPolygones(cs: seq<Cell>): (r: seq<Polygone>)
    ensures |r| == |cs| && forall k :: 0 <= k < |cs| ==> r[k] == Polygone(cs[k].id + 1, Shift(cs[k].nodes))
  {
    seq(|cs|, k requires 0 <= k < |cs| => Polygone(cs[k].id + 1, Shift(cs[k].nodes)))
  }

  function ApiPolyedres(cs: seq<Cell>): (r: seq<Polyedre>)
    ensures |r| == |cs| && forall k :: 0 <= k < |cs| ==> r[k] == Polyedre(cs[k].id + 1, Shift(cs[k].nodes))
  {
    seq(|cs|, k requires 0 <= k < |cs| => Polyedre(cs[k].id + 1, Shift(cs[k].nodes)))
  }

  /** The content of the file a complete write() produces. */
  function ApiMaillage(m: Mesh, unit: real): Maillage
  {
    Maillage(unit, Some(LimaDimension(m.dim)), LegacyWriter.Noeuds(m.nodes), ApiBras(m.edges),
             ApiPolygones(m.faces), ApiPolyedres(m.regions),
             LegacyWriter.ShiftedSets(m.clouds), LegacyWriter.ShiftedSets(m.lines),
             LegacyWriter.ShiftedSets(m.surfaces), LegacyWriter.ShiftedSets(m.volumes))
  }

  /** The two end nodes of every edge, edge after edge. */
  function BrasEnds(bs: seq<Bras>): (r: seq<int>)
    ensures |r| == 2 * |bs|
  {
    seq(2 * |bs|, j requires 0 <= j < 2 * |bs| => if j % 2 == 0 then bs[j / 2].n1 else bs[j / 2].n2)
  }

  /** The vertices of every polygon, polygon after polygon. */
  function PolygoneConn(ps: seq<Polygone>): seq<int>
  {
    if |ps| == 0 then [] else PolygoneConn(ps[..|ps| - 1]) + ps[|ps| - 1].nodes
  }

  /** The vertices of every polyhedron, polyhedron after polyhedron. */
  function PolyedreConn(ps: seq<Polyedre>): seq<int>
  {
    if |ps| == 0 then [] else PolyedreConn(ps[..|ps| - 1]) + ps[|ps| - 1].nodes
  }

  /** The members of every set, set after set. */
  function SetMembers(sets: seq<NamedSet>): seq<int>
  {
    if |sets| == 0 then [] else SetMembers(sets[..|sets| - 1]) + sets[|sets| - 1].members
  }

  // ----- the records carry that content -----

  lemma EdgeEnds(edges: seq<MeshEdge>)
    ensures EdgeNodePairs(edges) == BrasEnds(ApiBras(edges))
  {
    EdgeNodePairsLayout(edges);
    var l, r := EdgeNodePairs(edges), BrasEnds(ApiBras(edges));
    forall j | 0 <= j < |l| ensures l[j] == r[j] {
      var k := j / 2;
      if j % 2 == 0 {
        assert j == 2 * k;
      } else {
        assert j == 2 * k + 1;
      }
    }
  }

  lemma {:induction false} FaceConn(faces: seq<Cell>)
    ensures FlatConn(faces) == PolygoneConn(ApiPolygones(faces))
    decreases |faces|
  {
    if |faces| > 0 {
      var init := faces[..|faces| - 1];
      FaceConn(init);
      assert ApiPolygones(faces)[..|faces| - 1] == ApiPolygones(init);
    }
  }

  lemma {:induction false} RegionConn(regions: seq<Cell>)
    ensures FlatConn(regions) == PolyedreConn(ApiPolyedres(regions))
    decreases |regions|
  {
    if |regions| > 0 {
      var init := regions[..|regions| - 1];
      RegionConn(init);
      assert ApiPolyedres(regions)[..|regions| - 1] == ApiPolyedres(init);
    }
  }

  lemma {:induction false} SetsMembers(gs: seq<Group>)
    ensures SetMembers(LegacyWriter.ShiftedSets(gs)) == AllMembers(gs)
    decreases |gs|
  {
    if |gs| > 0 {
      var init := gs[..|gs| - 1];
      SetsMembers(init);
      assert LegacyWriter.ShiftedSets(gs)[..|gs| - 1] == LegacyWriter.ShiftedSets(init);
    }
  }

  lemma NodesCarried(m: Mesh, unit: real)
    ensures Flatten(MapSeq(DataIds, NodeStream(m.nodes)[1..])) == NoeudIds(ApiMaillage(m, unit).noeuds)
  {
    NodeStreamIds(m.nodes);
    assert NoeudIds(ApiMaillage(m, unit).noeuds) == Shift(NodeIds(m.nodes));
  }

  lemma EdgesCarried(m: Mesh, unit: real)
    ensures Flatten(MapSeq(DataIds, EdgeStream(m.edges)[1..])) == BrasIds(ApiMaillage(m, unit).bras)
    ensures Flatten(MapSeq(DataConn, EdgeStream(m.edges)[1..])) == BrasEnds(ApiMaillage(m, unit).bras)
  {
    EdgeStreamIds(m.edges);
    assert BrasIds(ApiMaillage(m, unit).bras) == Shift(EdgeIds(m.edges));
    EdgeStreamConnectivity(m.edges);
    EdgeEnds(m.edges);
  }

  lemma FacesCarried(m: Mesh, unit: real)
    requires FaceError(m.faces).None?
    ensures Flatten(MapSeq(DataIds, FaceStreamUpTo(m.faces, FacesFlushed(m.faces))[1..])) == PolygoneIds(ApiMaillage(m, unit).polygones)
    ensures Flatten(MapSeq(DataConn, FaceStreamUpTo(m.faces, FacesFlushed(m.faces))[1..])) == PolygoneConn(ApiMaillage(m, unit).polygones)
  {
    assert m.faces[..FacesFlushed(m.faces)] == m.faces;
    FaceStreamIds(m.faces);
    assert PolygoneIds(ApiMaillage(m, unit).polygones) == Shift(CellIds(m.faces));
    FaceStreamConnectivity(m.faces);
    FaceConn(m.faces);
  }

  lemma RegionsCarried(m: Mesh, unit: real)
    requires RegionError(m.regions).None?
    ensures Flatten(MapSeq(DataIds, RegionStreamUpTo(m.regions, RegionsFlushed(m.regions))[1..])) == PolyedreIds(ApiMaillage(m, unit).polyedres)
    ensures Flatten(MapSeq(DataConn, RegionStreamUpTo(m.regions, RegionsFlushed(m.regions))[1..])) == PolyedreConn(ApiMaillage(m, unit).polyedres)
  {
    assert m.regions[..RegionsFlushed(m.regions)] == m.regions;
    RegionStreamIds(m.regions);
    assert PolyedreIds(ApiMaillage(m, unit).polyedres) == Shift(CellIds(m.regions));
    RegionStreamConnectivity(m.regions);
    RegionConn(m.regions);
  }

  lemma VolumesCarried(m: Mesh, unit: real)
    requires VolumeError(m.regions, m.volumes).None?
    ensures Flatten(MapSeq(DataIds, VolumeStream(m.regions, m.volumes)[1..])) == SetMembers(ApiMaillage(m, unit).volumes)
  {
    VolumeStreamIds(m.regions, m.volumes);
    SetsMembers(m.volumes);
  }

  lemma GroupsCarried(m: Mesh, unit: real)
    ensures Flatten(MapSeq(DataIds, CloudStream(m.clouds)[1..])) == SetMembers(ApiMaillage(m, unit).nuages)
    ensures Flatten(MapSeq(DataIds, LineStream(m.lines)[1..])) == SetMembers(ApiMaillage(m, unit).lignes)
    ensures Flatten(MapSeq(DataIds, SurfaceStream(m.faces, m.surfaces)[1..])) == SetMembers(ApiMaillage(m, unit).surfaces)
  {
    CloudStreamIds(m.clouds);
    SetsMembers(m.clouds);
    LineStreamIds(m.lines);
    SetsMembers(m.lines);
    SurfaceStreamIds(m.faces, m.surfaces);
    SetsMembers(m.surfaces);
  }

  /**
   * A write() that raises nothing hands Lima the content of ApiMaillage:
   * the unit first, then the ids of the nodes, edges, faces and regions,
   * the end nodes of the edges, the vertices of the faces and regions, and
   * the members of the clouds, lines, surfaces and volumes, each kind read
   * back chunk after chunk.
   */
  lemma ApiRecordsCarry(m: Mesh, unit: real)
    requires ApiError(m).None?
    ensures var lm := ApiMaillage(m, unit);
      && ApiRecords(m, unit)[0] == LengthUnit(lm.unit)
      && Flatten(MapSeq(DataIds, NodeStream(m.nodes)[1..])) == NoeudIds(lm.noeuds)
      && Flatten(MapSeq(DataIds, EdgeStream(m.edges)[1..])) == BrasIds(lm.bras)
      && Flatten(MapSeq(DataConn, EdgeStream(m.edges)[1..])) == BrasEnds(lm.bras)
      && Flatten(MapSeq(DataIds, FaceStreamUpTo(m.faces, FacesFlushed(m.faces))[1..])) == PolygoneIds(lm.polygones)
      && Flatten(MapSeq(DataConn, FaceStreamUpTo(m.faces, FacesFlushed(m.faces))[1..])) == PolygoneConn(lm.polygones)
      && Flatten(MapSeq(DataIds, RegionStreamUpTo(m.regions, RegionsFlushed(m.regions))[1..])) == PolyedreIds(lm.polyedres)
      && Flatten(MapSeq(DataConn, RegionStreamUpTo(m.regions, RegionsFlushed(m.regions))[1..])) == PolyedreConn(lm.polyedres)
      && Flatten(MapSeq(DataIds, CloudStream(m.clouds)[1..])) == SetMembers(lm.nuages)
      && Flatten(MapSeq(DataIds, LineStream(m.lines)[1..])) == SetMembers(lm.lignes)
      && Flatten(MapSeq(DataIds, SurfaceStream(m.faces, m.surfaces)[1..])) == SetMembers(lm.surfaces)
      && Flatten(MapSeq(DataIds, VolumeStream(m.regions, m.volumes)[1..])) == SetMembers(lm.volumes)
  {
    NodesCarried(m, unit);
    EdgesCarried(m, unit);
    FacesCarried(m, unit);
    RegionsCarried(m, unit);
    GroupsCarried(m, unit);
    VolumesCarried(m, unit);
  }

  // ----- the file is one the reader accepts -----

  lemma ShiftedIn(x: int, ids: seq<nat>)
    requires x in ids
    ensures x + 1 in Shift(ids)
  {
    var j :| 0 <= j < |ids| && ids[j] == x;
    assert Shift(ids)[j] == x + 1;
  }

  lemma MembersShifted(gs: seq<Group>, ids: seq<nat>)
    requires forall g <- gs :: GroupOver(g, ids)
    ensures MembersIn(LegacyWriter.ShiftedSets(gs), Shift(ids))
  {
    forall k, i | 0 <= k < |gs| && 0 <= i < |gs[k].cells|
      ensures LegacyWriter.ShiftedSets(gs)[k].members[i] in Shift(ids)
    {
      assert gs[k] in gs;
      assert gs[k].cells[i] in gs[k].cells;
      ShiftedIn(gs[k].cells[i], ids);
    }
  }

  lemma CellsShifted(cs: seq<Cell>, ids: seq<nat>)
    requires forall c <- cs :: CellOver(c, ids)
    ensures forall k :: 0 <= k < |cs| ==> AllIn(Shift(cs[k].nodes), Shift(ids))
  {
    forall k, i | 0 <= k < |cs| && 0 <= i < |cs[k].nodes|
      ensures Shift(cs[k].nodes)[i] in Shift(ids)
    {
      assert cs[k] in cs;
      assert cs[k].nodes[i] in cs[k].nodes;
      ShiftedIn(cs[k].nodes[i], ids);
    }
  }

  /** The file written from a valid mesh has positive ids and resolves every reference it holds. */
  lemma ApiMaillageWellFormed(m: Mesh, unit: real)
    requires ValidMesh(m)
    ensures WellFormed(ApiMaillage(m, unit))
  {
    var lm := ApiMaillage(m, unit);
    var nodeIds := NodeIds(m.nodes);
    assert NoeudIds(lm.noeuds) == Shift(nodeIds);
    assert BrasIds(lm.bras) == Shift(EdgeIds(m.edges));
    assert PolygoneIds(lm.polygones) == Shift(CellIds(m.faces));
    assert PolyedreIds(lm.polyedres) == Shift(CellIds(m.regions));
    forall k | 0 <= k < |m.edges|
      ensures lm.bras[k].n1 in Shift(nodeIds) && lm.bras[k].n2 in Shift(nodeIds)
    {
      assert m.edges[k] in m.edges;
      ShiftedIn(m.edges[k].n1, nodeIds);
      ShiftedIn(m.edges[k].n2, nodeIds);
    }
    CellsShifted(m.faces, nodeIds);
    CellsShifted(m.regions, nodeIds);
    MembersShifted(m.clouds, nodeIds);
    MembersShifted(m.lines, EdgeIds(m.edges));
    MembersShifted(m.surfaces, CellIds(m.faces));
    MembersShifted(m.volumes, CellIds(m.regions));
  }

  // ----- reading it back -----

  lemma {:induction false} AllFacesBuilt(ps: seq<Polygone>, n: nat)
    requires n <= |ps| && forall k :: 0 <= k < n ==> 3 <= |ps[k].nodes| <= 6
    ensures FacesBuilt(ps, n) == n
  {
    if n > 0 {
      AllFacesBuilt(ps, n - 1);
    }
  }

  lemma {:induction false} AllRegionsBuilt(ps: seq<Polyedre>, n: nat)
    requires n <= |ps| && forall k :: 0 <= k < n ==> |ps[k].nodes| in {4, 5, 6, 8}
    ensures RegionsBuilt(ps, n) == n
  {
    if n > 0 {
      AllRegionsBuilt(ps, n - 1);
      ReadRegionTypeCases(|ps[n - 1].nodes|);
    }
  }

  /**
   * Writing a valid mesh with the chunked writer and reading the file into
   * an empty mesh gives back as many nodes and clouds, and as many edges
   * and lines as the two models let through.
   */
  lemma WriteThenReadCounts(m: Mesh, unit: real, into: Mesh, model: MeshModel)
    requires ValidMesh(m) && ApiError(m).None?
    requires into == EmptyMesh(into.model, into.dim)
    ensures WellFormed(ApiMaillage(m, unit))
    ensures var r := ReadSpec(into, [], model, ApiMaillage(m, unit));
      && |r.mesh.nodes| == |m.nodes| && |r.mesh.clouds| == |m.clouds|
      && |r.mesh.edges| == (if Gate(into.model, model, E) then |m.edges| else 0)
      && |r.mesh.lines| == (if Gate(into.model, model, E) then |m.lines| else 0)
  {
    ApiMaillageWellFormed(m, unit);
    ReadCounts(into, [], model, ApiMaillage(m, unit));
  }

  /**
   * ... as many faces and surfaces as the two models let through, faces
   * having 3 to 6 vertices ...
   */
  lemma WriteThenReadFaces(m: Mesh, unit: real, into: Mesh, model: MeshModel)
    requires ValidMesh(m) && ApiError(m).None?
    requires forall k :: 0 <= k < |m.faces| ==> 3 <= |m.faces[k].nodes| <= 6
    requires into == EmptyMesh(into.model, into.dim)
    ensures WellFormed(ApiMaillage(m, unit))
    ensures var r := ReadSpec(into, [], model, ApiMaillage(m, unit));
      && |r.mesh.faces| == (if Gate(into.model, model, F) then |m.faces| else 0)
      && |r.mesh.surfaces| == (if Gate(into.model, model, F) then |m.surfaces| else 0)
  {
    var lm := ApiMaillage(m, unit);
    ApiMaillageWellFormed(m, unit);
    ApiFacesBuild(m, unit);
    assert |lm.surfaces| == |m.surfaces|;
    ReadFaceCounts(into, model, lm);
  }

  /** The face and surface counts of ReadCounts, for a read into a mesh with no faces or surfaces. */
  lemma ReadFaceCounts(into: Mesh, model: MeshModel, lm: Maillage)
    requires WellFormed(lm) && into.faces == [] && into.surfaces == []
    ensures var r := ReadSpec(into, [], model, lm);
      && |r.mesh.faces| == (if Gate(into.model, model, F) then FacesBuilt(lm.polygones, |lm.polygones|) else 0)
      && |r.mesh.surfaces| == (if Gate(into.model, model, F) then |lm.surfaces| else 0)
  {
    ReadCounts(into, [], model, lm);
  }

  /** Every face with 3 to 6 vertices is written as a polygon the reader builds a face from. */
  lemma ApiFacesBuild(m: Mesh, unit: real)
    requires forall k :: 0 <= k < |m.faces| ==> 3 <= |m.faces[k].nodes| <= 6
    ensures var ps := ApiMaillage(m, unit).polygones;
      FacesBuilt(ps, |ps|) == |m.faces|
  {
    var ps := ApiMaillage(m, unit).polygones;
    assert forall k :: 0 <= k < |ps| ==> |ps[k].nodes| == |m.faces[k].nodes|;
    AllFacesBuilt(ps, |ps|);
  }

  /**
   * ... and reading raises nothing and gives back as many regions and
   * volumes as the two models let through.
   */
  lemma WriteThenReadRegions(m: Mesh, unit: real, into: Mesh, model: MeshModel)
    requires ValidMesh(m) && ApiError(m).None?
    requires into == EmptyMesh(into.model, into.dim)
    ensures WellFormed(ApiMaillage(m, unit))
    ensures var r := ReadSpec(into, [], model, ApiMaillage(m, unit));
      && r.err.None?
      && |r.mesh.regions| == (if Gate(into.model, model, R) then |m.regions| else 0)
      && |r.mesh.volumes| == (if Gate(into.model, model, R) then |m.volumes| else 0)
  {
    ApiMaillageWellFormed(m, unit);
    ReadCounts(into, [], model, ApiMaillage(m, unit));
    ApiRegionsBuild(m, unit);
  }

  /** Every region Lima takes from the chunked writer has 4, 5, 6 or 8 vertices, so the reader builds it. */
  lemma ApiRegionsBuild(m: Mesh, unit: real)
    requires ValidMesh(m) && ApiError(m).None?
    ensures var ps := ApiMaillage(m, unit).polyedres;
      RegionsBuilt(ps, |ps|) == |ps| && forall k :: 0 <= k < |ps| ==> !Unimplemented(ps[k])
  {
    var ps := ApiMaillage(m, unit).polyedres;
    ApiWritable(m);
    forall k | 0 <= k < |ps| ensures |ps[k].nodes| in {4, 5, 6, 8} {
      assert m.regions[k] in m.regions;
    }
    AllRegionsBuilt(ps, |ps|);
    forall k | 0 <= k < |ps| ensures !Unimplemented(ps[k]) {
      ReadRegionTypeCases(|ps[k].nodes|);
    }
  }
}
