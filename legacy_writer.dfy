/**
 * The legacy writer (LimaWriter<IGMesh>): it builds a whole Lima::Maillage
 * in memory and saves it in one go.  Nodes are stored in a dense table
 * indexed by mesh id, through which edges, faces, regions and clouds
 * reach their Lima nodes; lines, surfaces and volumes look their members
 * up in the Maillage by Lima id.  Shapes Lima cannot take are skipped.
 */
module LegacyWriter {

  import opened Wrappers
  import opened GmdsMesh
  import opened LimaData
  import opened IdScan
  import opened Shapes
  import opened ChunkedStreams

  /** A default-constructed Lima::Noeud, which vector::resize puts in the new slots. */
  const NULL_NOEUD: Noeud := Noeud(0, 0.0, 0.0, 0.0)

  /** The Lima node written for a mesh node: Lima id = mesh id + 1, same coordinates. */
  function LegacyNoeud(n: MeshNode): Noeud
  {
    Noeud(n.id + 1, n.x, n.y, n.z)
  }

  function Noeuds(ns: seq<MeshNode>): (r: seq<Noeud>)
    ensures |r| == |ns| && forall k :: 0 <= k < |ns| ==> r[k] == LegacyNoeud(ns[k])
  {
    seq(|ns|, k requires 0 <= k < |ns| => LegacyNoeud(ns[k]))
  }

  predicate IdsBelow(ns: seq<MeshNode>, size: nat)
  {
    forall k :: 0 <= k < |ns| ==> ns[k].id < size
  }

  /** nodes_connection_ after each node, in turn, is stored at its mesh id. */
  function Connect(table: seq<Noeud>, ns: seq<MeshNode>): (r: seq<Noeud>)
    requires IdsBelow(ns, |table|)
    ensures |r| == |table|
    decreases |ns|
  {
    if |ns| == 0 then table
    else
      var n := ns[|ns| - 1];
      Connect(table, ns[..|ns| - 1])[n.id := LegacyNoeud(n)]
  }

  /** The node table write() builds: max id + 1 default slots, then every node at its id. */
  function NodeTable(nodes: seq<MeshNode>): (t: seq<Noeud>)
    ensures |t| == MaxOf(NodeIds(nodes)) + 1
    ensures IdsBelow(nodes, |t|)
  {
    var size := MaxOf(NodeIds(nodes)) + 1;
    assert IdsBelow(nodes, size) by {
      forall k | 0 <= k < |nodes| ensures nodes[k].id < size {
        assert NodeIds(nodes)[k] == nodes[k].id;
      }
    }
    Connect(seq(size, _ => NULL_NOEUD), nodes)
  }

  /** With distinct ids, each node's slot holds that node's Lima node. */
  lemma {:induction false} ConnectAt(table: seq<Noeud>, ns: seq<MeshNode>)
    requires IdsBelow(ns, |table|) && DistinctIds(NodeIds(ns))
    ensures forall k :: 0 <= k < |ns| ==> Connect(table, ns)[ns[k].id] == LegacyNoeud(ns[k])
    decreases |ns|
  {
    if |ns| > 0 {
      var init := ns[..|ns| - 1];
      assert DistinctIds(NodeIds(init)) by {
        forall i, j | 0 <= i < j < |init| ensures NodeIds(init)[i] != NodeIds(init)[j] {
          assert NodeIds(ns)[i] != NodeIds(ns)[j];
        }
      }
      ConnectAt(table, init);
      forall k | 0 <= k < |ns| - 1 ensures ns[k].id != ns[|ns| - 1].id {
        assert NodeIds(ns)[k] != NodeIds(ns)[|ns| - 1];
      }
    }
  }

  /**
   * The node table has max id + 1 slots, so every node id indexes inside
   * it, and (ids being distinct) slot id holds the node of that id.
   */
  lemma NodeTableLayout(nodes: seq<MeshNode>)
    requires DistinctIds(NodeIds(nodes))
    ensures |NodeTable(nodes)| == MaxOf(NodeIds(nodes)) + 1
    ensures forall k :: 0 <= k < |nodes| ==> nodes[k].id < |NodeTable(nodes)|
    ensures forall k :: 0 <= k < |nodes| ==> NodeTable(nodes)[nodes[k].id] == LegacyNoeud(nodes[k])
  {
    var size := MaxOf(NodeIds(nodes)) + 1;
    ConnectAt(seq(size, _ => NULL_NOEUD), nodes);
  }

  // ----- node references through the table -----

  predicate Indexes(ns: seq<nat>, size: nat)
  {
    forall k :: 0 <= k < |ns| ==> ns[k] < size
  }

  /** The Lima ids of the table slots of the given mesh node ids. */
  function Translate(ns: seq<nat>, table: seq<Noeud>): (r: seq<nat>)
    requires Indexes(ns, |table|)
    ensures |r| == |ns| && forall k :: 0 <= k < |ns| ==> r[k] == table[ns[k]].id
  {
    seq(|ns|, k requires 0 <= k < |ns| => table[ns[k]].id)
  }

  /** Through the node table, a list of node ids of the mesh becomes that list shifted by 1. */
  lemma TranslateShifted(nodes: seq<MeshNode>, ns: seq<nat>)
    requires DistinctIds(NodeIds(nodes))
    requires forall k :: 0 <= k < |ns| ==> ns[k] in NodeIds(nodes)
    ensures Indexes(ns, |NodeTable(nodes)|)
    ensures Translate(ns, NodeTable(nodes)) == Shift(ns)
  {
    NodeTableLayout(nodes);
    var t := NodeTable(nodes);
    forall k | 0 <= k < |ns| ensures ns[k] < |t| && t[ns[k]].id == ns[k] + 1 {
      var j :| 0 <= j < |nodes| && NodeIds(nodes)[j] == ns[k];
    }
  }

  // ----- edges -----

  predicate EdgesIndex(edges: seq<MeshEdge>, size: nat)
  {
    forall k :: 0 <= k < |edges| ==> edges[k].n1 < size && edges[k].n2 < size
  }

  function LegacyBras(e: MeshEdge, table: seq<Noeud>): Bras
    requires e.n1 < |table| && e.n2 < |table|
  {
    Bras(e.id + 1, table[e.n1].id, table[e.n2].id)
  }

  function BrasOf(edges: seq<MeshEdge>, table: seq<Noeud>): (r: seq<Bras>)
    requires EdgesIndex(edges, |table|)
    ensures |r| == |edges| && forall k :: 0 <= k < |edges| ==> r[k] == LegacyBras(edges[k], table)
  {
    seq(|edges|, k requires 0 <= k < |edges| => LegacyBras(edges[k], table))
  }

  /** Reference definition: every edge with its own id and both ends shifted by 1. */
  function ShiftedBras(edges: seq<MeshEdge>): (r: seq<Bras>)
    ensures |r| == |edges| && forall k :: 0 <= k < |edges| ==> r[k] == Bras(edges[k].id + 1, edges[k].n1 + 1, edges[k].n2 + 1)
  {
    seq(|edges|, k requires 0 <= k < |edges| => Bras(edges[k].id + 1, edges[k].n1 + 1, edges[k].n2 + 1))
  }

  /** Over edges whose ends are nodes of the mesh, the bras written are the edges shifted by 1. */
  lemma BrasShifted(nodes: seq<MeshNode>, edges: seq<MeshEdge>)
    requires DistinctIds(NodeIds(nodes))
    requires forall k :: 0 <= k < |edges| ==> edges[k].n1 in NodeIds(nodes) && edges[k].n2 in NodeIds(nodes)
    ensures EdgesIndex(edges, |NodeTable(nodes)|)
    ensures BrasOf(edges, NodeTable(nodes)) == ShiftedBras(edges)
  {
    forall k | 0 <= k < |edges|
      ensures edges[k].n1 < |NodeTable(nodes)| && edges[k].n2 < |NodeTable(nodes)|
      ensures LegacyBras(edges[k], NodeTable(nodes)) == ShiftedBras(edges)[k]
    {
      var ends := [edges[k].n1, edges[k].n2];
      TranslateShifted(nodes, ends);
      assert Translate(ends, NodeTable(nodes))[0] == Shift(ends)[0] && Translate(ends, NodeTable(nodes))[1] == Shift(ends)[1];
    }
  }

  // ----- faces and regions -----

  /** A cell of arity a (None: skipped) whose first a nodes index the table. */
  predicate Fits(c: Cell, a: Option<nat>, size: nat)
  {
    a.None? || (a.value <= |c.nodes| && Indexes(c.nodes[..a.value], size))
  }

  predicate FacesFit(faces: seq<Cell>, size: nat)
  {
    forall k :: 0 <= k < |faces| ==> Fits(faces[k], LegacyFaceArity(faces[k].kind, |faces[k].nodes|), size)
  }

  predicate RegionsFit(regions: seq<Cell>, size: nat)
  {
    forall k :: 0 <= k < |regions| ==> Fits(regions[k], LegacyRegionArity(regions[k].kind, |regions[k].nodes|), size)
  }

  /** The polygons writeFaces adds: one per face whose type and size Lima takes, in order. */
  function Polygones(faces: seq<Cell>, table: seq<Noeud>): (r: seq<Polygone>)
    requires FacesFit(faces, |table|)
    decreases |faces|
  {
    if |faces| == 0 then []
    else
      var f := faces[|faces| - 1];
      var rest := Polygones(faces[..|faces| - 1], table);
      match LegacyFaceArity(f.kind, |f.nodes|)
      case None => rest
      case Some(a) => rest + [Polygone(f.id + 1, Translate(f.nodes[..a], table))]
  }

  /** The polyhedra writeRegions adds: one per region whose type and size Lima takes, in order. */
  function Polyedres(regions: seq<Cell>, table: seq<Noeud>): (r: seq<Polyedre>)
    requires RegionsFit(regions, |table|)
    decreases |regions|
  {
    if |regions| == 0 then []
    else
      var c := regions[|regions| - 1];
      var rest := Polyedres(regions[..|regions| - 1], table);
      match LegacyRegionArity(c.kind, |c.nodes|)
      case None => rest
      case Some(a) => rest + [Polyedre(c.id + 1, Translate(c.nodes[..a], table))]
  }

  /** Reference definition: the faces Lima takes, with their own ids and node lists shifted by 1. */
  function ShiftedPolygones(faces: seq<Cell>): seq<Polygone>
    decreases |faces|
  {
    if |faces| == 0 then []
    else
      var f := faces[|faces| - 1];
      var rest := ShiftedPolygones(faces[..|faces| - 1]);
      if LegacyFaceArity(f.kind, |f.nodes|).None? then rest else rest + [Polygone(f.id + 1, Shift(f.nodes))]
  }

  /** Over a valid mesh with distinct node ids, the polygons written are the writable faces shifted by 1. */
  lemma {:induction false} PolygonesShifted(nodes: seq<MeshNode>, faces: seq<Cell>)
    requires DistinctIds(NodeIds(nodes))
    requires forall k :: 0 <= k < |faces| ==> CellOver(faces[k], NodeIds(nodes))
    ensures FacesFit(faces, |NodeTable(nodes)|)
    ensures Polygones(faces, NodeTable(nodes)) == ShiftedPolygones(faces)
    decreases |faces|
  {
    FacesFitOver(nodes, faces);
    if |faces| > 0 {
      var f := faces[|faces| - 1];
      PolygonesShifted(nodes, faces[..|faces| - 1]);
      if LegacyFaceArity(f.kind, |f.nodes|).Some? {
        assert f.nodes[..|f.nodes|] == f.nodes;
        TranslateShifted(nodes, f.nodes);
      }
    }
  }

  lemma FacesFitOver(nodes: seq<MeshNode>, faces: seq<Cell>)
    requires DistinctIds(NodeIds(nodes))
    requires forall k :: 0 <= k < |faces| ==> CellOver(faces[k], NodeIds(nodes))
    ensures FacesFit(faces, |NodeTable(nodes)|)
  {
    forall k | 0 <= k < |faces|
      ensures Fits(faces[k], LegacyFaceArity(faces[k].kind, |faces[k].nodes|), |NodeTable(nodes)|)
    {
      var f := faces[k];
      if LegacyFaceArity(f.kind, |f.nodes|).Some? {
        assert f.nodes[..|f.nodes|] == f.nodes;
        TranslateShifted(nodes, f.nodes);
      }
    }
  }

  /** Reference definition: the regions Lima takes, with their own ids and node lists shifted by 1. */
  function ShiftedPolyedres(regions: seq<Cell>): seq<Polyedre>
    decreases |regions|
  {
    if |regions| == 0 then []
    else
      var c := regions[|regions| - 1];
      var rest := ShiftedPolyedres(regions[..|regions| - 1]);
      if LegacyRegionArity(c.kind, |c.nodes|).None? then rest else rest + [Polyedre(c.id + 1, Shift(c.nodes))]
  }

  lemma RegionsFitOver(nodes: seq<MeshNode>, regions: seq<Cell>)
    requires DistinctIds(NodeIds(nodes))
    requires forall k :: 0 <= k < |regions| ==> CellOver(regions[k], NodeIds(nodes))
    ensures RegionsFit(regions, |NodeTable(nodes)|)
  {
    forall k | 0 <= k < |regions|
      ensures Fits(regions[k], LegacyRegionArity(regions[k].kind, |regions[k].nodes|), |NodeTable(nodes)|)
    {
      var c := regions[k];
      if LegacyRegionArity(c.kind, |c.nodes|).Some? {
        assert c.nodes[..|c.nodes|] == c.nodes;
        TranslateShifted(nodes, c.nodes);
      }
    }
  }

  /** Over a valid mesh with distinct node ids, the polyhedra written are the writable regions shifted by 1. */
  lemma {:induction false} PolyedresShifted(nodes: seq<MeshNode>, regions: seq<Cell>)
    requires DistinctIds(NodeIds(nodes))
    requires forall k :: 0 <= k < |regions| ==> CellOver(regions[k], NodeIds(nodes))
    ensures RegionsFit(regions, |NodeTable(nodes)|)
    ensures Polyedres(regions, NodeTable(nodes)) == ShiftedPolyedres(regions)
    decreases |regions|
  {
    RegionsFitOver(nodes, regions);
    if |regions| > 0 {
      var c := regions[|regions| - 1];
      PolyedresShifted(nodes, regions[..|regions| - 1]);
      if LegacyRegionArity(c.kind, |c.nodes|).Some? {
        assert c.nodes[..|c.nodes|] == c.nodes;
        TranslateShifted(nodes, c.nodes);
      }
    }
  }

  // ----- groups -----

  predicate MembersIndex(cells: seq<int>, size: nat)
  {
    forall k :: 0 <= k < |cells| ==> 0 <= cells[k] < size
  }

  /** A cloud as written: its name, and the Lima ids of its members' table slots. */
  function CloudSet(g: Group, table: seq<Noeud>): NamedSet
    requires MembersIndex(g.cells, |table|)
  {
    NamedSet(g.name, seq(|g.cells|, k requires 0 <= k < |g.cells| => table[g.cells[k]].id))
  }

  function CloudSets(gs: seq<Group>, table: seq<Noeud>): (r: seq<NamedSet>)
    requires forall k :: 0 <= k < |gs| ==> MembersIndex(gs[k].cells, |table|)
    ensures |r| == |gs| && forall k :: 0 <= k < |gs| ==> r[k] == CloudSet(gs[k], table)
  {
    seq(|gs|, k requires 0 <= k < |gs| => CloudSet(gs[k], table))
  }

  /** A line, surface or volume as written: its name and its members' ids plus 1. */
  function ShiftedSet(g: Group): NamedSet
  {
    NamedSet(g.name, ShiftMembers(g.cells))
  }

  function ShiftedSets(gs: seq<Group>): (r: seq<NamedSet>)
    ensures |r| == |gs| && forall k :: 0 <= k < |gs| ==> r[k] == ShiftedSet(gs[k])
  {
    seq(|gs|, k requires 0 <= k < |gs| => ShiftedSet(gs[k]))
  }

  /** Over a valid mesh with distinct node ids, every cloud is written as its members shifted by 1. */
  lemma CloudSetsShifted(nodes: seq<MeshNode>, clouds: seq<Group>)
    requires DistinctIds(NodeIds(nodes))
    requires forall k :: 0 <= k < |clouds| ==> GroupOver(clouds[k], NodeIds(nodes))
    ensures forall k :: 0 <= k < |clouds| ==> MembersIndex(clouds[k].cells, |NodeTable(nodes)|)
    ensures CloudSets(clouds, NodeTable(nodes)) == ShiftedSets(clouds)
  {
    NodeTableLayout(nodes);
    var t := NodeTable(nodes);
    forall k, i | 0 <= k < |clouds| && 0 <= i < |clouds[k].cells|
      ensures 0 <= clouds[k].cells[i] < |t| && t[clouds[k].cells[i]].id == clouds[k].cells[i] + 1
    {
      assert clouds[k].cells[i] in clouds[k].cells;
      var j :| 0 <= j < |nodes| && NodeIds(nodes)[j] == clouds[k].cells[i];
    }
    forall k | 0 <= k < |clouds| ensures CloudSet(clouds[k], t) == ShiftedSet(clouds[k]) {
    }
  }

  /** Every member, shifted by 1, is the id of an element already in the Maillage. */
  predicate Resolved(g: Group, ids: seq<nat>)
  {
    forall k :: 0 <= k < |g.cells| ==> g.cells[k] + 1 in ids
  }

  function UnresolvedIn(ids: seq<nat>): Group -> bool
  {
    g => !Resolved(g, ids)
  }

  /** The group whose member lookup (bras_id, polygone_id, polyedre_id) fails first, if any. */
  function LookupError(gs: seq<Group>, ids: seq<nat>): Option<string>
  {
    var b := FirstWhere(gs, UnresolvedIn(ids));
    if b == |gs| then None else Some(gs[b].name)
  }

  /**
   * The group loops of writeEdges, writeFaces and writeRegions: each group
   * is created with its name and its members are looked up one by one in
   * the elements already written; the first member not found ends them.
   */
  method ResolveSets(gs: seq<Group>, ids: seq<nat>) returns (sets: seq<NamedSet>, err: Option<string>)
    ensures err == LookupError(gs, ids)
    ensures err.None? ==> sets == ShiftedSets(gs)
  {
    sets := [];
    var i := 0;
    while i < |gs|
      invariant i <= |gs|
      invariant forall k :: 0 <= k < i ==> Resolved(gs[k], ids)
      invariant sets == ShiftedSets(gs[..i])
    {
      var g := gs[i];
      var members: seq<int> := [];
      var j := 0;
      while j < |g.cells|
        invariant j <= |g.cells|
        invariant forall k :: 0 <= k < j ==> g.cells[k] + 1 in ids
        invariant members == ShiftMembers(g.cells[..j])
      {
        if g.cells[j] + 1 !in ids {
          FirstWhereAt(gs, UnresolvedIn(ids), i);
          err := Some(g.name);
          return;
        }
        members := members + [g.cells[j] + 1];
        j := j + 1;
      }
      assert g.cells[..j] == g.cells;
      sets := sets + [NamedSet(g.name, members)];
      assert ShiftedSets(gs[..i + 1]) == ShiftedSets(gs[..i]) + [ShiftedSet(g)];
      i := i + 1;
    }
    FirstWhereAt(gs, UnresolvedIn(ids), |gs|);
    assert gs[..i] == gs;
    err := None;
  }

  // ----- the Maillage write() builds -----

  /** The result of a writeX step: the grown Maillage, or the group whose lookup failed. */
  datatype Built = Built(lima: Maillage) | Missing(setName: string)

  function WithNodes(lm: Maillage, m: Mesh, table: seq<Noeud>): Maillage
    requires forall k :: 0 <= k < |m.clouds| ==> MembersIndex(m.clouds[k].cells, |table|)
  {
    lm.(noeuds := lm.noeuds + Noeuds(m.nodes), nuages := lm.nuages + CloudSets(m.clouds, table))
  }

  function WithEdges(lm: Maillage, m: Mesh, table: seq<Noeud>): Built
    requires EdgesIndex(m.edges, |table|)
  {
    var grown := lm.(bras := lm.bras + BrasOf(m.edges, table));
    match LookupError(m.lines, BrasIds(grown.bras))
    case Some(name) => Missing(name)
    case None => Built(grown.(lignes := grown.lignes + ShiftedSets(m.lines)))
  }

  function WithFaces(lm: Maillage, m: Mesh, table: seq<Noeud>): Built
    requires FacesFit(m.faces, |table|)
  {
    var grown := lm.(polygones := lm.polygones + Polygones(m.faces, table));
    match LookupError(m.surfaces, PolygoneIds(grown.polygones))
    case Some(name) => Missing(name)
    case None => Built(grown.(surfaces := grown.surfaces + ShiftedSets(m.surfaces)))
  }

  function WithRegions(lm: Maillage, m: Mesh, table: seq<Noeud>): Built
    requires RegionsFit(m.regions, |table|)
  {
    var grown := lm.(polyedres := lm.polyedres + Polyedres(m.regions, table));
    match LookupError(m.volumes, PolyedreIds(grown.polyedres))
    case Some(name) => Missing(name)
    case None => Built(grown.(volumes := grown.volumes + ShiftedSets(m.volumes)))
  }

  /** A kind is written only when both the requested model and the mesh's model have it. */
  predicate Gate(model: MeshModel, m: Mesh, kind: ModelFlag)
  {
    kind in model && kind in m.model
  }

  /** Every table access write() makes on this mesh, with a table of the given size, is in range. */
  predicate TableFits(m: Mesh, size: nat)
  {
    && IdsBelow(m.nodes, size)
    && EdgesIndex(m.edges, size)
    && FacesFit(m.faces, size)
    && RegionsFit(m.regions, size)
    && (forall k :: 0 <= k < |m.clouds| ==> MembersIndex(m.clouds[k].cells, size))
  }

  /** A valid mesh only reaches inside the node table write() builds for it. */
  lemma ValidMeshFits(m: Mesh)
    requires ValidMesh(m)
    ensures TableFits(m, |NodeTable(m.nodes)|)
  {
    var size := |NodeTable(m.nodes)|;
    var ids := NodeIds(m.nodes);
    assert forall x :: x in ids ==> x < size by {
      forall x | x in ids ensures x < size {
        var j :| 0 <= j < |ids| && ids[j] == x;
      }
    }
    forall k | 0 <= k < |m.edges| ensures m.edges[k].n1 < size && m.edges[k].n2 < size {
      assert m.edges[k] in m.edges;
    }
    forall k | 0 <= k < |m.faces|
      ensures Fits(m.faces[k], LegacyFaceArity(m.faces[k].kind, |m.faces[k].nodes|), size)
    {
      var f := m.faces[k];
      assert f in m.faces;
      forall i | 0 <= i < |f.nodes| ensures f.nodes[i] < size {
        assert f.nodes[i] in f.nodes;
      }
    }
    forall k | 0 <= k < |m.regions|
      ensures Fits(m.regions[k], LegacyRegionArity(m.regions[k].kind, |m.regions[k].nodes|), size)
    {
      var c := m.regions[k];
      assert c in m.regions;
      forall i | 0 <= i < |c.nodes| ensures c.nodes[i] < size {
        assert c.nodes[i] in c.nodes;
      }
    }
    forall k, i | 0 <= k < |m.clouds| && 0 <= i < |m.clouds[k].cells|
      ensures 0 <= m.clouds[k].cells[i] < size
    {
      assert m.clouds[k] in m.clouds;
      assert m.clouds[k].cells[i] in m.clouds[k].cells;
    }
  }

  /** DIM2 meshes are saved as D2; otherwise Lima's default dimension is kept. */
  function Dimensioned(lm: Maillage, m: Mesh): Maillage
  {
    if DIM2 in m.model then lm.(dim := Some(D2)) else lm
  }

  /** What Maillage::ecrire is asked to save: the name, the format, the mesh number, compaction and the content. */
  datatype LimaFile = LimaFile(name: string, format: Format, num: nat, compact: bool, content: Maillage)

  /** write() either saves a file or ends with the exception of a failed member lookup. */
  datatype WriteOutcome = Saved(file: LimaFile) | LookupFailed(setName: string)

  /** The Maillage after writeNodes and, when gated in, writeEdges. */
  function AfterEdges(m: Mesh, model: MeshModel, unit: real): Built
    requires ValidMesh(m)
  {
    ValidMeshFits(m);
    var table := NodeTable(m.nodes);
    var nodes := WithNodes(EmptyMaillage(unit), m, table);
    if Gate(model, m, E) then WithEdges(nodes, m, table) else Built(nodes)
  }

  /** ... then, unless a lookup already failed, writeFaces when gated in. */
  function AfterFaces(m: Mesh, model: MeshModel, unit: real): Built
    requires ValidMesh(m)
  {
    ValidMeshFits(m);
    var edges := AfterEdges(m, model, unit);
    if edges.Built? && Gate(model, m, F) then WithFaces(edges.lima, m, NodeTable(m.nodes)) else edges
  }

  /** ... then, unless a lookup already failed, writeRegions when gated in. */
  function AfterRegions(m: Mesh, model: MeshModel, unit: real): Built
    requires ValidMesh(m)
  {
    ValidMeshFits(m);
    var faces := AfterFaces(m, model, unit);
    if faces.Built? && Gate(model, m, R) then WithRegions(faces.lima, m, NodeTable(m.nodes)) else faces
  }

  function LegacyOutcome(m: Mesh, model: MeshModel, unit: real, fileName: string, compact: int): WriteOutcome
    requires ValidMesh(m)
  {
    match AfterRegions(m, model, unit)
    case Missing(name) => LookupFailed(name)
    case Built(lm) => Saved(LimaFile(fileName, SUFFIXE, 1, compact != 0, Dimensioned(lm, m)))
  }

  lemma AfterEdgesShape(m: Mesh, model: MeshModel, unit: real)
    requires ValidMesh(m) && TableFits(m, |NodeTable(m.nodes)|)
    ensures AfterEdges(m, model, unit).Built? ==>
      var lm := AfterEdges(m, model, unit).lima;
      && lm.unit == unit && lm.dim == None
      && lm.noeuds == Noeuds(m.nodes)
      && lm.nuages == CloudSets(m.clouds, NodeTable(m.nodes))
      && lm.bras == (if Gate(model, m, E) then BrasOf(m.edges, NodeTable(m.nodes)) else [])
      && lm.lignes == (if Gate(model, m, E) then ShiftedSets(m.lines) else [])
      && lm.polygones == [] && lm.surfaces == [] && lm.polyedres == [] && lm.volumes == []
  {
    ValidMeshFits(m);
  }

  lemma AfterFacesShape(m: Mesh, model: MeshModel, unit: real)
    requires ValidMesh(m) && TableFits(m, |NodeTable(m.nodes)|)
    ensures AfterFaces(m, model, unit).Built? ==>
      var lm := AfterFaces(m, model, unit).lima;
      && lm.unit == unit && lm.dim == None
      && lm.noeuds == Noeuds(m.nodes)
      && lm.nuages == CloudSets(m.clouds, NodeTable(m.nodes))
      && lm.bras == (if Gate(model, m, E) then BrasOf(m.edges, NodeTable(m.nodes)) else [])
      && lm.lignes == (if Gate(model, m, E) then ShiftedSets(m.lines) else [])
      && lm.polygones == (if Gate(model, m, F) then Polygones(m.faces, NodeTable(m.nodes)) else [])
      && lm.surfaces == (if Gate(model, m, F) then ShiftedSets(m.surfaces) else [])
      && lm.polyedres == [] && lm.volumes == []
  {
    ValidMeshFits(m);
    AfterEdgesShape(m, model, unit);
  }

  lemma AfterRegionsShape(m: Mesh, model: MeshModel, unit: real)
    requires ValidMesh(m) && TableFits(m, |NodeTable(m.nodes)|)
    ensures AfterRegions(m, model, unit).Built? ==>
      var lm := AfterRegions(m, model, unit).lima;
      && lm.unit == unit && lm.dim == None
      && lm.noeuds == Noeuds(m.nodes)
      && lm.nuages == CloudSets(m.clouds, NodeTable(m.nodes))
      && lm.bras == (if Gate(model, m, E) then BrasOf(m.edges, NodeTable(m.nodes)) else [])
      && lm.lignes == (if Gate(model, m, E) then ShiftedSets(m.lines) else [])
      && lm.polygones == (if Gate(model, m, F) then Polygones(m.faces, NodeTable(m.nodes)) else [])
      && lm.surfaces == (if Gate(model, m, F) then ShiftedSets(m.surfaces) else [])
      && lm.polyedres == (if Gate(model, m, R) then Polyedres(m.regions, NodeTable(m.nodes)) else [])
      && lm.volumes == (if Gate(model, m, R) then ShiftedSets(m.volumes) else [])
  {
    ValidMeshFits(m);
    AfterFacesShape(m, model, unit);
  }

  /**
   * A saved file carries the name, SUFFIXE, mesh number 1, the compaction
   * flag, the unit, D2 exactly for DIM2 meshes, every node and cloud, and
   * the edges, faces and regions with their groups only when gated in.
   */
  lemma LegacySaved(m: Mesh, model: MeshModel, unit: real, fileName: string, compact: int)
    requires ValidMesh(m) && TableFits(m, |NodeTable(m.nodes)|)
    requires LegacyOutcome(m, model, unit, fileName, compact).Saved?
    ensures var f := LegacyOutcome(m, model, unit, fileName, compact).file;
      && f.name == fileName && f.format == SUFFIXE && f.num == 1 && (f.compact <==> compact != 0)
      && f.content.unit == unit
      && f.content.dim == (if DIM2 in m.model then Some(D2) else None)
      && f.content.noeuds == Noeuds(m.nodes)
      && f.content.nuages == CloudSets(m.clouds, NodeTable(m.nodes))
      && f.content.bras == (if Gate(model, m, E) then BrasOf(m.edges, NodeTable(m.nodes)) else [])
      && f.content.lignes == (if Gate(model, m, E) then ShiftedSets(m.lines) else [])
      && f.content.polygones == (if Gate(model, m, F) then Polygones(m.faces, NodeTable(m.nodes)) else [])
      && f.content.surfaces == (if Gate(model, m, F) then ShiftedSets(m.surfaces) else [])
      && f.content.polyedres == (if Gate(model, m, R) then Polyedres(m.regions, NodeTable(m.nodes)) else [])
      && f.content.volumes == (if Gate(model, m, R) then ShiftedSets(m.volumes) else [])
  {
    ValidMeshFits(m);
    AfterRegionsShape(m, model, unit);
  }

  /** When every member of every group, shifted by 1, is among the ids, no lookup fails. */
  lemma AllResolve(gs: seq<Group>, ids: seq<nat>)
    requires forall k, i :: 0 <= k < |gs| && 0 <= i < |gs[k].cells| ==> gs[k].cells[i] + 1 in ids
    ensures LookupError(gs, ids) == None
  {
    FirstWhereNone(gs, UnresolvedIn(ids));
  }

  /** Group members that are ids of the given elements are found among those ids shifted by 1. */
  lemma MembersAmongShifted(gs: seq<Group>, ids: seq<nat>, limaIds: seq<nat>)
    requires forall k :: 0 <= k < |gs| ==> GroupOver(gs[k], ids)
    requires limaIds == Shift(ids)
    ensures LookupError(gs, limaIds) == None
  {
    forall k, i | 0 <= k < |gs| && 0 <= i < |gs[k].cells| ensures gs[k].cells[i] + 1 in limaIds {
      assert gs[k].cells[i] in gs[k].cells;
      var j :| 0 <= j < |ids| && ids[j] == gs[k].cells[i];
      assert limaIds[j] == gs[k].cells[i] + 1;
    }
    AllResolve(gs, limaIds);
  }

  /** When Lima takes every face, the polygons written carry the face ids plus 1, in order. */
  lemma {:induction false} PolygoneIdsShifted(faces: seq<Cell>, table: seq<Noeud>)
    requires FacesFit(faces, |table|)
    requires forall k :: 0 <= k < |faces| ==> LegacyFaceArity(faces[k].kind, |faces[k].nodes|).Some?
    ensures PolygoneIds(Polygones(faces, table)) == Shift(CellIds(faces))
    decreases |faces|
  {
    if |faces| > 0 {
      var init := faces[..|faces| - 1];
      PolygoneIdsShifted(init, table);
      assert CellIds(faces) == CellIds(init) + [faces[|faces| - 1].id];
      assert Shift(CellIds(faces)) == Shift(CellIds(init)) + [faces[|faces| - 1].id + 1];
      var a := LegacyFaceArity(faces[|faces| - 1].kind, |faces[|faces| - 1].nodes|).value;
      var p := Polygone(faces[|faces| - 1].id + 1, Translate(faces[|faces| - 1].nodes[..a], table));
      assert Polygones(faces, table) == Polygones(init, table) + [p];
      assert PolygoneIds(Polygones(faces, table)) == PolygoneIds(Polygones(init, table)) + [p.id];
    }
  }

  /** When Lima takes every region, the polyhedra written carry the region ids plus 1, in order. */
  lemma {:induction false} PolyedreIdsShifted(regions: seq<Cell>, table: seq<Noeud>)
    requires RegionsFit(regions, |table|)
    requires forall k :: 0 <= k < |regions| ==> LegacyRegionArity(regions[k].kind, |regions[k].nodes|).Some?
    ensures PolyedreIds(Polyedres(regions, table)) == Shift(CellIds(regions))
    decreases |regions|
  {
    if |regions| > 0 {
      var init := regions[..|regions| - 1];
      PolyedreIdsShifted(init, table);
      assert CellIds(regions) == CellIds(init) + [regions[|regions| - 1].id];
      assert Shift(CellIds(regions)) == Shift(CellIds(init)) + [regions[|regions| - 1].id + 1];
      var a := LegacyRegionArity(regions[|regions| - 1].kind, |regions[|regions| - 1].nodes|).value;
      var p := Polyedre(regions[|regions| - 1].id + 1, Translate(regions[|regions| - 1].nodes[..a], table));
      assert Polyedres(regions, table) == Polyedres(init, table) + [p];
      assert PolyedreIds(Polyedres(regions, table)) == PolyedreIds(Polyedres(init, table)) + [p.id];
    }
  }

  /**
   * Over a valid mesh whose faces and regions Lima all takes, no member
   * lookup fails and write() saves the file.  (A surface or volume holding
   * a skipped face or region is what makes the lookup fail.)
   */
  lemma LegacyWritable(m: Mesh, model: MeshModel, unit: real, fileName: string, compact: int)
    requires ValidMesh(m)
    requires forall k :: 0 <= k < |m.faces| ==> LegacyFaceArity(m.faces[k].kind, |m.faces[k].nodes|).Some?
    requires forall k :: 0 <= k < |m.regions| ==> LegacyRegionArity(m.regions[k].kind, |m.regions[k].nodes|).Some?
    ensures LegacyOutcome(m, model, unit, fileName, compact).Saved?
  {
    ValidMeshFits(m);
    var t := NodeTable(m.nodes);
    var lm := WithNodes(EmptyMaillage(unit), m, t);
    if Gate(model, m, E) {
      EdgesFound(lm, m, t);
    }
    AfterEdgesShape(m, model, unit);
    if Gate(model, m, F) {
      FacesFound(AfterEdges(m, model, unit).lima, m, t);
    }
    AfterFacesShape(m, model, unit);
    if Gate(model, m, R) {
      RegionsFound(AfterFaces(m, model, unit).lima, m, t);
    }
  }

  /** With no bras yet, writeEdges finds every line member among the bras it creates. */
  lemma EdgesFound(lm: Maillage, m: Mesh, table: seq<Noeud>)
    requires ValidMesh(m) && EdgesIndex(m.edges, |table|) && lm.bras == []
    ensures WithEdges(lm, m, table).Built?
  {
    assert BrasIds(lm.bras + BrasOf(m.edges, table)) == Shift(EdgeIds(m.edges));
    MembersAmongShifted(m.lines, EdgeIds(m.edges), Shift(EdgeIds(m.edges)));
  }

  /** With no polygon yet, writeFaces finds every surface member among the polygons it creates, when Lima takes every face. */
  lemma FacesFound(lm: Maillage, m: Mesh, table: seq<Noeud>)
    requires ValidMesh(m) && FacesFit(m.faces, |table|) && lm.polygones == []
    requires forall k :: 0 <= k < |m.faces| ==> LegacyFaceArity(m.faces[k].kind, |m.faces[k].nodes|).Some?
    ensures WithFaces(lm, m, table).Built?
  {
    PolygoneIdsShifted(m.faces, table);
    assert lm.polygones + Polygones(m.faces, table) == Polygones(m.faces, table);
    MembersAmongShifted(m.surfaces, CellIds(m.faces), Shift(CellIds(m.faces)));
  }

  /** With no polyhedron yet, writeRegions finds every volume member among the polyhedra it creates, when Lima takes every region. */
  lemma RegionsFound(lm: Maillage, m: Mesh, table: seq<Noeud>)
    requires ValidMesh(m) && RegionsFit(m.regions, |table|) && lm.polyedres == []
    requires forall k :: 0 <= k < |m.regions| ==> LegacyRegionArity(m.regions[k].kind, |m.regions[k].nodes|).Some?
    ensures WithRegions(lm, m, table).Built?
  {
    PolyedreIdsShifted(m.regions, table);
    assert lm.polyedres + Polyedres(m.regions, table) == Polyedres(m.regions, table);
    MembersAmongShifted(m.volumes, CellIds(m.regions), Shift(CellIds(m.regions)));
  }

  class LimaWriter {
    const mesh: Mesh
    /** nodes_connection_: slot i holds the Lima node of the mesh node of id i. */
    var nodesConnection: seq<Noeud>
    var lengthUnit: real

    constructor (mesh: Mesh)
      ensures this.mesh == mesh && nodesConnection == [] && lengthUnit == 1.0
    {
      this.mesh := mesh;
      nodesConnection := [];
      lengthUnit := 1.0;
    }

    method SetLengthUnit(unit: real)
      modifies this
      ensures lengthUnit == unit && nodesConnection == old(nodesConnection)
    {
      lengthUnit := unit;
    }

    /** write(): nodes always; edges, faces and regions when gated in; then the dimension and the save. */
    method Write(fileName: string, model: MeshModel, compact: int) returns (out: WriteOutcome)
      requires ValidMesh(mesh)
      modifies this
      ensures lengthUnit == old(lengthUnit)
      ensures nodesConnection == NodeTable(mesh.nodes)
      ensures out == LegacyOutcome(mesh, model, lengthUnit, fileName, compact)
    {
      ValidMeshFits(mesh);
      nodesConnection := [];
      var maxId := MaxId(NodeIds(mesh.nodes));
      nodesConnection := Resize(nodesConnection, maxId + 1, NULL_NOEUD);
      assert nodesConnection == seq(maxId + 1, _ => NULL_NOEUD);
      var lm := WriteNodes(EmptyMaillage(lengthUnit));
      ghost var t := NodeTable(mesh.nodes);
      assert nodesConnection == t;
      // b carries either the Maillage built so far or the exception that ends write()
      var b := Built(lm);
      if E in model && E in mesh.model {
        b := WriteEdges(lm);
      }
      ghost var edges := AfterEdges(mesh, model, lengthUnit);
      assert b == edges;
      if b.Built? && F in model && F in mesh.model {
        b := WriteFaces(b.lima);
      }
      ghost var faces := AfterFaces(mesh, model, lengthUnit);
      assert faces == if edges.Built? && Gate(model, mesh, F) then WithFaces(edges.lima, mesh, t) else edges;
      assert b == faces;
      if b.Built? && R in model && R in mesh.model {
        b := WriteRegions(b.lima);
      }
      assert AfterRegions(mesh, model, lengthUnit) == if faces.Built? && Gate(model, mesh, R) then WithRegions(faces.lima, mesh, t) else faces;
      assert b == AfterRegions(mesh, model, lengthUnit);
      if b.Missing? {
        return LookupFailed(b.setName);
      }
      lm := b.lima;
      if DIM2 in mesh.model {
        lm := lm.(dim := Some(D2));
      }
      out := Saved(LimaFile(fileName, SUFFIXE, 1, compact != 0, lm));
    }

    /** writeNodes: every node added and stored at its id, then every cloud through the table. */
    method WriteNodes(lm: Maillage) returns (out: Maillage)
      requires IdsBelow(mesh.nodes, |nodesConnection|)
      requires forall k :: 0 <= k < |mesh.clouds| ==> MembersIndex(mesh.clouds[k].cells, |nodesConnection|)
      modifies this
      ensures lengthUnit == old(lengthUnit)
      ensures nodesConnection == Connect(old(nodesConnection), mesh.nodes)
      ensures out == WithNodes(lm, mesh, nodesConnection)
    {
      out := lm;
      var i := 0;
      while i < |mesh.nodes|
        invariant i <= |mesh.nodes|
        invariant lengthUnit == old(lengthUnit)
        invariant nodesConnection == Connect(old(nodesConnection), mesh.nodes[..i])
        invariant out == lm.(noeuds := lm.noeuds + Noeuds(mesh.nodes[..i]))
      {
        var n := mesh.nodes[i];
        out := out.(noeuds := out.noeuds + [LegacyNoeud(n)]);
        assert mesh.nodes[..i + 1][..i] == mesh.nodes[..i];
        nodesConnection := nodesConnection[n.id := LegacyNoeud(n)];
        i := i + 1;
      }
      assert mesh.nodes[..i] == mesh.nodes;
      var j := 0;
      while j < |mesh.clouds|
        invariant j <= |mesh.clouds|
        invariant out == lm.(noeuds := lm.noeuds + Noeuds(mesh.nodes), nuages := lm.nuages + CloudSets(mesh.clouds[..j], nodesConnection))
      {
        var g := mesh.clouds[j];
        var members: seq<int> := [];
        var k := 0;
        while k < |g.cells|
          invariant k <= |g.cells|
          invariant members == CloudSet(g, nodesConnection).members[..k]
        {
          members := members + [nodesConnection[g.cells[k]].id];
          k := k + 1;
        }
        assert members == CloudSet(g, nodesConnection).members;
        out := out.(nuages := out.nuages + [NamedSet(g.name, members)]);
        assert CloudSets(mesh.clouds[..j + 1], nodesConnection) == CloudSets(mesh.clouds[..j], nodesConnection) + [CloudSet(g, nodesConnection)];
        j := j + 1;
      }
      assert mesh.clouds[..j] == mesh.clouds;
    }

    /** writeEdges: every edge between its end nodes' table slots, then every line looked up by Lima id. */
    method WriteEdges(lm: Maillage) returns (b: Built)
      requires EdgesIndex(mesh.edges, |nodesConnection|)
      ensures b == WithEdges(lm, mesh, nodesConnection)
    {
      var grown := lm;
      var i := 0;
      while i < |mesh.edges|
        invariant i <= |mesh.edges|
        invariant grown == lm.(bras := lm.bras + BrasOf(mesh.edges, nodesConnection)[..i])
      {
        var e := mesh.edges[i];
        grown := grown.(bras := grown.bras + [Bras(e.id + 1, nodesConnection[e.n1].id, nodesConnection[e.n2].id)]);
        assert BrasOf(mesh.edges, nodesConnection)[..i + 1] == BrasOf(mesh.edges, nodesConnection)[..i] + [LegacyBras(e, nodesConnection)];
        i := i + 1;
      }
      assert BrasOf(mesh.edges, nodesConnection)[..i] == BrasOf(mesh.edges, nodesConnection);
      var sets, err := ResolveSets(mesh.lines, BrasIds(grown.bras));
      if err.Some? {
        return Missing(err.value);
      }
      b := Built(grown.(lignes := grown.lignes + sets));
    }

    /** writeFaces: every face Lima takes, by its arity, then every surface looked up by Lima id. */
    method WriteFaces(lm: Maillage) returns (b: Built)
      requires FacesFit(mesh.faces, |nodesConnection|)
      ensures b == WithFaces(lm, mesh, nodesConnection)
    {
      var grown := lm;
      var i := 0;
      while i < |mesh.faces|
        invariant i <= |mesh.faces|
        invariant grown == lm.(polygones := lm.polygones + Polygones(mesh.faces[..i], nodesConnection))
      {
        var f := mesh.faces[i];
        assert mesh.faces[..i + 1][..i] == mesh.faces[..i];
        var arity := LegacyFaceArity(f.kind, |f.nodes|);
        if arity.Some? {
          grown := grown.(polygones := grown.polygones + [Polygone(f.id + 1, Translate(f.nodes[..arity.value], nodesConnection))]);
        }
        i := i + 1;
      }
      assert mesh.faces[..i] == mesh.faces;
      var sets, err := ResolveSets(mesh.surfaces, PolygoneIds(grown.polygones));
      if err.Some? {
        return Missing(err.value);
      }
      b := Built(grown.(surfaces := grown.surfaces + sets));
    }

    /** writeRegions: every region Lima takes, by its arity, then every volume looked up by Lima id. */
    method WriteRegions(lm: Maillage) returns (b: Built)
      requires RegionsFit(mesh.regions, |nodesConnection|)
      ensures b == WithRegions(lm, mesh, nodesConnection)
    {
      var grown := lm;
      var i := 0;
      while i < |mesh.regions|
        invariant i <= |mesh.regions|
        invariant grown == lm.(polyedres := lm.polyedres + Polyedres(mesh.regions[..i], nodesConnection))
      {
        var c := mesh.regions[i];
        assert mesh.regions[..i + 1][..i] == mesh.regions[..i];
        var arity := LegacyRegionArity(c.kind, |c.nodes|);
        if arity.Some? {
          grown := grown.(polyedres := grown.polyedres + [Polyedre(c.id + 1, Translate(c.nodes[..arity.value], nodesConnection))]);
        }
        i := i + 1;
      }
      assert mesh.regions[..i] == mesh.regions;
      var sets, err := ResolveSets(mesh.volumes, PolyedreIds(grown.polyedres));
      if err.Some? {
        return Missing(err.value);
      }
      b := Built(grown.(volumes := grown.volumes + sets));
    }
  }
}
