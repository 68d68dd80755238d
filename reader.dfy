/**
 * LimaReader: loads a Lima::Maillage into a GMDS mesh.  Each kind of
 * Lima element gets a translation table sized to the largest Lima id of
 * that kind; Lima id k sits at slot k - 1 and holds the id of the GMDS
 * cell built from it, or NullID when the reader stored a null cell.
 * Groups are rebuilt by looking their members up in those tables.
 */
module Reader {

  import opened Wrappers
  import opened GmdsMesh
  import opened LimaData
  import opened IdScan
  import opened Shapes
  import opened ChunkedStreams

  const MSG_CANNOT_READ: string := "Lima cannot read the file "

  // ----- what a loaded Lima file guarantees the reader -----

  predicate Positive(ids: seq<nat>)
  {
    forall k :: 0 <= k < |ids| ==> ids[k] >= 1
  }

  predicate AllIn(vs: seq<int>, ids: seq<nat>)
  {
    forall k :: 0 <= k < |vs| ==> vs[k] in ids
  }

  predicate MembersIn(sets: seq<NamedSet>, ids: seq<nat>)
  {
    forall k :: 0 <= k < |sets| ==> AllIn(sets[k].members, ids)
  }

  /**
   * A Lima file as Lima hands it over: ids start at 1, connectivity
   * names nodes of the file and set members name elements of the file.
   * The reader indexes its tables with these ids without any check.
   */
  predicate WellFormed(lm: Maillage)
  {
    var nodeIds := NoeudIds(lm.noeuds);
    && Positive(nodeIds) && Positive(BrasIds(lm.bras))
    && Positive(PolygoneIds(lm.polygones)) && Positive(PolyedreIds(lm.polyedres))
    && (forall k :: 0 <= k < |lm.bras| ==> lm.bras[k].n1 in nodeIds && lm.bras[k].n2 in nodeIds)
    && (forall k :: 0 <= k < |lm.polygones| ==> AllIn(lm.polygones[k].nodes, nodeIds))
    && (forall k :: 0 <= k < |lm.polyedres| ==> AllIn(lm.polyedres[k].nodes, nodeIds))
    && MembersIn(lm.nuages, nodeIds)
    && MembersIn(lm.lignes, BrasIds(lm.bras))
    && MembersIn(lm.surfaces, PolygoneIds(lm.polygones))
    && MembersIn(lm.volumes, PolyedreIds(lm.polyedres))
  }

  // ----- translation tables -----

  /** Every id names a slot of a table of the given size. */
  predicate SlotsFor(ids: seq<int>, size: nat)
  {
    forall k :: 0 <= k < |ids| ==> 1 <= ids[k] <= size
  }

  /** A table sized to the largest of some positive ids has a slot for each id that occurs among them. */
  lemma SlotsWithin(vs: seq<int>, ids: seq<nat>)
    requires Positive(ids) && AllIn(vs, ids)
    ensures SlotsFor(vs, MaxOf(ids))
  {
    forall k | 0 <= k < |vs|
      ensures 1 <= vs[k] <= MaxOf(ids)
    {
      var i :| 0 <= i < |ids| && ids[i] == vs[k];
    }
  }

  lemma MembersWithin(sets: seq<NamedSet>, ids: seq<nat>)
    requires Positive(ids) && MembersIn(sets, ids)
    ensures forall k :: 0 <= k < |sets| ==> SlotsFor(sets[k].members, MaxOf(ids))
  {
    forall k | 0 <= k < |sets|
      ensures SlotsFor(sets[k].members, MaxOf(ids))
    {
      SlotsWithin(sets[k].members, ids);
    }
  }

  lemma SlotsForMax(ids: seq<nat>)
    requires Positive(ids)
    ensures SlotsFor(ids, MaxOf(ids))
  {
    SlotsWithin(ids, ids);
  }

  /** The table after each of the first n elements, in turn, has stored vals[k] at slot ids[k] - 1. */
  function Store(table: seq<int>, ids: seq<nat>, vals: seq<int>, n: nat): (r: seq<int>)
    requires n <= |ids| && n <= |vals| && SlotsFor(ids, |table|)
    ensures |r| == |table|
  {
    if n == 0 then table
    else Store(table, ids, vals, n - 1)[ids[n - 1] - 1 := vals[n - 1]]
  }

  /** Only the first n values matter. */
  lemma {:induction false} StoreSame(table: seq<int>, ids: seq<nat>, vals: seq<int>, vals': seq<int>, n: nat)
    requires n <= |ids| && n <= |vals| && n <= |vals'| && SlotsFor(ids, |table|)
    requires forall k :: 0 <= k < n ==> vals[k] == vals'[k]
    ensures Store(table, ids, vals, n) == Store(table, ids, vals', n)
  {
    if n > 0 {
      StoreSame(table, ids, vals, vals', n - 1);
    }
  }

  /** When the values written are all ids (not NullID), every slot the first n ids name holds an id. */
  lemma {:induction false} StoreHits(table: seq<int>, ids: seq<nat>, vals: seq<int>, n: nat)
    requires n <= |ids| && n <= |vals| && SlotsFor(ids, |table|)
    requires forall j :: 0 <= j < n ==> vals[j] >= 0
    ensures forall k :: 0 <= k < n ==> Store(table, ids, vals, n)[ids[k] - 1] >= 0
  {
    if n > 0 {
      StoreHits(table, ids, vals, n - 1);
      forall k | 0 <= k < n ensures Store(table, ids, vals, n)[ids[k] - 1] >= 0 {
        if ids[k] != ids[n - 1] {
          assert Store(table, ids, vals, n)[ids[k] - 1] == Store(table, ids, vals, n - 1)[ids[k] - 1];
        }
      }
    }
  }

  /** A slot none of the first n ids names keeps its value. */
  lemma {:induction false} StoreKeeps(table: seq<int>, ids: seq<nat>, vals: seq<int>, n: nat)
    requires n <= |ids| && n <= |vals| && SlotsFor(ids, |table|)
    ensures forall s :: 0 <= s < |table| && (forall k :: 0 <= k < n ==> ids[k] != s + 1) ==>
              Store(table, ids, vals, n)[s] == table[s]
  {
    if n > 0 {
      StoreKeeps(table, ids, vals, n - 1);
    }
  }

  /** With distinct ids, slot ids[k] - 1 holds exactly vals[k]. */
  lemma {:induction false} StoreAt(table: seq<int>, ids: seq<nat>, vals: seq<int>, n: nat)
    requires n <= |ids| && n <= |vals| && SlotsFor(ids, |table|) && DistinctIds(ids)
    ensures forall k :: 0 <= k < n ==> Store(table, ids, vals, n)[ids[k] - 1] == vals[k]
  {
    if n > 0 {
      StoreAt(table, ids, vals, n - 1);
      forall k | 0 <= k < n - 1
        ensures ids[k] != ids[n - 1]
      {
      }
    }
  }

  /** The ids given to the elements created one after another from base on. */
  function Count(base: nat, n: nat): (r: seq<int>)
    ensures |r| == n && forall k :: 0 <= k < n ==> r[k] == base + k
  {
    seq(n, k requires 0 <= k < n => base + k)
  }

  // ----- looking ids up -----

  /** Lima node v has been read: its slot exists and holds a real GMDS node. */
  predicate Resolved(table: seq<int>, v: nat)
  {
    1 <= v <= |table| && table[v - 1] >= 0
  }

  predicate AllResolved(table: seq<int>, vs: seq<nat>)
  {
    forall k :: 0 <= k < |vs| ==> Resolved(table, vs[k])
  }

  /** Every node a Lima element refers to has been read. */
  predicate NodeRefsResolve(table: seq<int>, lm: Maillage)
  {
    && (forall k :: 0 <= k < |lm.bras| ==> Resolved(table, lm.bras[k].n1) && Resolved(table, lm.bras[k].n2))
    && (forall k :: 0 <= k < |lm.polygones| ==> AllResolved(table, lm.polygones[k].nodes))
    && (forall k :: 0 <= k < |lm.polyedres| ==> AllResolved(table, lm.polyedres[k].nodes))
  }

  // What each pass of read() needs of the file and of nodes_connection_.

  predicate NodesReadable(lm: Maillage)
  {
    Positive(NoeudIds(lm.noeuds)) && MembersIn(lm.nuages, NoeudIds(lm.noeuds))
  }

  predicate EdgesReadable(table: seq<int>, lm: Maillage)
  {
    && Positive(BrasIds(lm.bras)) && MembersIn(lm.lignes, BrasIds(lm.bras))
    && forall k :: 0 <= k < |lm.bras| ==> Resolved(table, lm.bras[k].n1) && Resolved(table, lm.bras[k].n2)
  }

  predicate FacesReadable(table: seq<int>, lm: Maillage)
  {
    && Positive(PolygoneIds(lm.polygones)) && MembersIn(lm.surfaces, PolygoneIds(lm.polygones))
    && forall k :: 0 <= k < |lm.polygones| ==> AllResolved(table, lm.polygones[k].nodes)
  }

  predicate RegionsReadable(table: seq<int>, lm: Maillage)
  {
    && Positive(PolyedreIds(lm.polyedres)) && MembersIn(lm.volumes, PolyedreIds(lm.polyedres))
    && forall k :: 0 <= k < |lm.polyedres| ==> AllResolved(table, lm.polyedres[k].nodes)
  }

  /** The GMDS nodes of a list of Lima node ids. */
  function Resolve(vs: seq<nat>, table: seq<int>): (r: seq<nat>)
    requires AllResolved(table, vs)
    ensures |r| == |vs| && forall j :: 0 <= j < |vs| ==> r[j] == table[vs[j] - 1]
  {
    seq(|vs|, j requires 0 <= j < |vs| => table[vs[j] - 1] as nat)
  }

  /** newCloud/newLine/newSurface/newVolume followed by one add per member. */
  function GroupRead(s: NamedSet, table: seq<int>): (g: Group)
    requires SlotsFor(s.members, |table|)
  {
    Group(s.name, seq(|s.members|, j requires 0 <= j < |s.members| => table[s.members[j] - 1]))
  }

  function GroupsRead(sets: seq<NamedSet>, table: seq<int>): (gs: seq<Group>)
    requires forall k :: 0 <= k < |sets| ==> SlotsFor(sets[k].members, |table|)
    ensures |gs| == |sets| && forall k :: 0 <= k < |sets| ==> gs[k] == GroupRead(sets[k], table)
  {
    seq(|sets|, k requires 0 <= k < |sets| => GroupRead(sets[k], table))
  }

  // ----- the stages of read() -----

  datatype Loaded = Loaded(mesh: Mesh, table: seq<int>)

  /** newNode for each of the first n Lima nodes, the GMDS ids counting up from base. */
  function NewNodes(ns: seq<Noeud>, n: nat, base: nat): (r: seq<MeshNode>)
    requires n <= |ns|
    ensures |r| == n
  {
    if n == 0 then []
    else NewNodes(ns, n - 1, base) + [MeshNode(base + n - 1, ns[n - 1].x, ns[n - 1].y, ns[n - 1].z)]
  }

  /** nodes_connection_ after readNodes: resized to the largest Lima node id, then one slot per node. */
  function NodeTableAfter(table: seq<int>, lm: Maillage, base: nat): (r: seq<int>)
    requires Positive(NoeudIds(lm.noeuds))
    ensures |r| == MaxOf(NoeudIds(lm.noeuds))
  {
    var ids := NoeudIds(lm.noeuds);
    SlotsForMax(ids);
    Store(Resize(table, MaxOf(ids), NullID), ids, Count(base, |lm.noeuds|), |ids|)
  }

  /** readNodes: one new node per Lima node, then one cloud per Lima nuage. */
  function NodesStage(m: Mesh, table: seq<int>, lm: Maillage): (r: Loaded)
    requires NodesReadable(lm)
    ensures r.mesh.model == m.model
  {
    var t := NodeTableAfter(table, lm, |m.nodes|);
    MembersWithin(lm.nuages, NoeudIds(lm.noeuds));
    Loaded(m.(nodes := m.nodes + NewNodes(lm.noeuds, |lm.noeuds|, |m.nodes|), clouds := m.clouds + GroupsRead(lm.nuages, t)), t)
  }

  /** newEdge for each of the first n Lima bras, the GMDS ids counting up from base. */
  function EdgesRead(bs: seq<Bras>, n: nat, table: seq<int>, base: nat): (r: seq<MeshEdge>)
    requires n <= |bs| && forall k :: 0 <= k < |bs| ==> Resolved(table, bs[k].n1) && Resolved(table, bs[k].n2)
    ensures |r| == n
  {
    if n == 0 then []
    else EdgesRead(bs, n - 1, table, base) + [EdgeRead(bs[n - 1], table, base + n - 1)]
  }

  /** newEdge on the GMDS nodes of the bras' two Lima nodes. */
  function EdgeRead(b: Bras, table: seq<int>, id: nat): MeshEdge
    requires Resolved(table, b.n1) && Resolved(table, b.n2)
  {
    MeshEdge(id, table[b.n1 - 1] as nat, table[b.n2 - 1] as nat)
  }

  /** edges_connection after readEdges. */
  function EdgeTable(lm: Maillage, base: nat): (r: seq<int>)
    requires Positive(BrasIds(lm.bras))
    ensures |r| == MaxOf(BrasIds(lm.bras))
  {
    var ids := BrasIds(lm.bras);
    SlotsForMax(ids);
    Store(Resize([], MaxOf(ids), NullID), ids, Count(base, |lm.bras|), |ids|)
  }

  /** readEdges: one new edge per Lima bras, then one line per Lima ligne. */
  function EdgesStage(m: Mesh, table: seq<int>, lm: Maillage): (r: Mesh)
    requires EdgesReadable(table, lm)
    ensures r.model == m.model
  {
    MembersWithin(lm.lignes, BrasIds(lm.bras));
    m.(edges := m.edges + EdgesRead(lm.bras, |lm.bras|, table, |m.edges|),
       lines := m.lines + GroupsRead(lm.lignes, EdgeTable(lm, |m.edges|)))
  }

  /** The cells a pass creates and, per Lima element, the id stored in its slot. */
  datatype Created = Created(cells: seq<Cell>, slots: seq<int>)

  /** readFaces' switch over the polygons: 3 to 6 vertices build a face, any other count a null face. */
  function PolygonsRead(ps: seq<Polygone>, n: nat, table: seq<int>, base: nat): (c: Created)
    requires n <= |ps| && forall k :: 0 <= k < n ==> AllResolved(table, ps[k].nodes)
    ensures |c.slots| == n
  {
    if n == 0 then Created([], [])
    else
      var prev := PolygonsRead(ps, n - 1, table, base);
      var p := ps[n - 1];
      match ReadFaceType(|p.nodes|)
      case None => Created(prev.cells, prev.slots + [NullID])
      case Some(t) =>
        var id := base + |prev.cells|;
        Created(prev.cells + [Cell(id, Resolve(p.nodes, table), t)], prev.slots + [id])
  }

  /** faces_connection after readFaces. */
  function FaceTable(lm: Maillage, slots: seq<int>): (r: seq<int>)
    requires Positive(PolygoneIds(lm.polygones)) && |slots| == |lm.polygones|
    ensures |r| == MaxOf(PolygoneIds(lm.polygones))
  {
    var ids := PolygoneIds(lm.polygones);
    SlotsForMax(ids);
    Store(Resize([], MaxOf(ids), NullID), ids, slots, |ids|)
  }

  /** readFaces: the faces of the switch, then one surface per Lima surface. */
  function FacesStage(m: Mesh, table: seq<int>, lm: Maillage): (r: Mesh)
    requires FacesReadable(table, lm)
    ensures r.model == m.model
  {
    var c := PolygonsRead(lm.polygones, |lm.polygones|, table, |m.faces|);
    MembersWithin(lm.surfaces, PolygoneIds(lm.polygones));
    m.(faces := m.faces + c.cells, surfaces := m.surfaces + GroupsRead(lm.surfaces, FaceTable(lm, c.slots)))
  }

  /** A polyhedron readRegions refuses with an exception. */
  predicate Unimplemented(p: Polyedre)
  {
    ReadRegionType(|p.nodes|).NotImplemented?
  }

  /** readRegions' switch over the polyhedra: 4, 5, 6 and 8 vertices build a region, other counts a null one. */
  function PolyhedraRead(ps: seq<Polyedre>, n: nat, table: seq<int>, base: nat): (c: Created)
    requires n <= |ps| && forall k :: 0 <= k < n ==> AllResolved(table, ps[k].nodes)
    ensures |c.slots| == n
  {
    if n == 0 then Created([], [])
    else
      var prev := PolyhedraRead(ps, n - 1, table, base);
      var p := ps[n - 1];
      match ReadRegionType(|p.nodes|)
      case Build(t) =>
        var id := base + |prev.cells|;
        Created(prev.cells + [Cell(id, Resolve(p.nodes, table), t)], prev.slots + [id])
      case _ => Created(prev.cells, prev.slots + [NullID])
  }

  /** regions_connection after readRegions. */
  function RegionTable(lm: Maillage, slots: seq<int>): (r: seq<int>)
    requires Positive(PolyedreIds(lm.polyedres)) && |slots| == |lm.polyedres|
    ensures |r| == MaxOf(PolyedreIds(lm.polyedres))
  {
    var ids := PolyedreIds(lm.polyedres);
    SlotsForMax(ids);
    Store(Resize([], MaxOf(ids), NullID), ids, slots, |ids|)
  }

  /** One more polygon through readFaces' switch: the face it builds, if any, and the id its slot receives. */
  lemma PolygonsStep(ps: seq<Polygone>, i: nat, table: seq<int>, base: nat, t: seq<int>, ids: seq<nat>)
    requires i < |ps| && forall k :: 0 <= k < |ps| ==> AllResolved(table, ps[k].nodes)
    requires ids == PolygoneIds(ps) && SlotsFor(ids, |t|)
    ensures var prev := PolygonsRead(ps, i, table, base);
      var next := PolygonsRead(ps, i + 1, table, base);
      var ft := ReadFaceType(|ps[i].nodes|);
      var id := if ft.Some? then base + |prev.cells| else NullID;
      && next.cells == prev.cells + (if ft.Some? then [Cell(id, Resolve(ps[i].nodes, table), ft.value)] else [])
      && Store(t, ids, next.slots, i + 1) == Store(t, ids, prev.slots, i)[ps[i].id - 1 := id]
  {
    var prev := PolygonsRead(ps, i, table, base);
    var next := PolygonsRead(ps, i + 1, table, base);
    StoreSame(t, ids, next.slots, prev.slots, i);
  }

  /** One more polyhedron through readRegions' switch, when the switch does not throw. */
  lemma PolyhedraStep(ps: seq<Polyedre>, i: nat, table: seq<int>, base: nat, t: seq<int>, ids: seq<nat>)
    requires i < |ps| && forall k :: 0 <= k < |ps| ==> AllResolved(table, ps[k].nodes)
    requires ids == PolyedreIds(ps) && SlotsFor(ids, |t|)
    requires !Unimplemented(ps[i])
    ensures var prev := PolyhedraRead(ps, i, table, base);
      var next := PolyhedraRead(ps, i + 1, table, base);
      var rt := ReadRegionType(|ps[i].nodes|);
      var id := if rt.Build? then base + |prev.cells| else NullID;
      && next.cells == prev.cells + (if rt.Build? then [Cell(id, Resolve(ps[i].nodes, table), rt.kind)] else [])
      && Store(t, ids, next.slots, i + 1) == Store(t, ids, prev.slots, i)[ps[i].id - 1 := id]
  {
    var prev := PolyhedraRead(ps, i, table, base);
    var next := PolyhedraRead(ps, i + 1, table, base);
    StoreSame(t, ids, next.slots, prev.slots, i);
  }

  datatype Step = Step(mesh: Mesh, err: Option<string>)

  /**
   * readRegions: the regions built before the first polyhedron with 10
   * or 12 vertices; that one raises its exception and no volume is read.
   */
  function RegionsStage(m: Mesh, table: seq<int>, lm: Maillage): (r: Step)
    requires RegionsReadable(table, lm)
    ensures r.mesh.model == m.model
  {
    var ps := lm.polyedres;
    var b := FirstWhere(ps, Unimplemented);
    var c := PolyhedraRead(ps, b, table, |m.regions|);
    var grown := m.(regions := m.regions + c.cells);
    if b < |ps| then Step(grown, Some(ReadRegionType(|ps[b].nodes|).msg))
    else
      MembersWithin(lm.volumes, PolyedreIds(ps));
      Step(grown.(volumes := grown.volumes + GroupsRead(lm.volumes, RegionTable(lm, c.slots))), None)
  }

  /** nodes_connection_ after readNodes lets every Lima element find its nodes. */
  lemma NodeTableResolves(table: seq<int>, lm: Maillage, base: nat)
    requires WellFormed(lm)
    ensures NodeRefsResolve(NodeTableAfter(table, lm, base), lm)
  {
    var ids := NoeudIds(lm.noeuds);
    var t := NodeTableAfter(table, lm, base);
    SlotsForMax(ids);
    StoreHits(Resize(table, MaxOf(ids), NullID), ids, Count(base, |lm.noeuds|), |ids|);
    assert forall k :: 0 <= k < |ids| ==> Resolved(t, ids[k]);
  }

  /** Whether read() reads a kind: the mesh's model and the requested model both have it. */
  predicate Gate(meshModel: MeshModel, model: MeshModel, kind: ModelFlag)
  {
    kind in meshModel && kind in model
  }

  datatype ReadResult = ReadResult(mesh: Mesh, table: seq<int>, err: Option<string>)

  /** The mesh, nodes_connection_ and exception after read() of a loaded Lima file. */
  function ReadSpec(m: Mesh, table: seq<int>, model: MeshModel, lm: Maillage): (r: ReadResult)
    requires WellFormed(lm)
  {
    var n := NodesStage(m, table, lm);
    NodeTableResolves(table, lm, |m.nodes|);
    var e := if Gate(m.model, model, E) then EdgesStage(n.mesh, n.table, lm) else n.mesh;
    var f := if Gate(m.model, model, F) then FacesStage(e, n.table, lm) else e;
    if Gate(m.model, model, R) then
      var s := RegionsStage(f, n.table, lm);
      ReadResult(s.mesh, n.table, s.err)
    else ReadResult(f, n.table, None)
  }

  // ----- what read() does, stated against the file -----

  /** Each Lima node becomes a GMDS node with its coordinates, the ids counting up from base. */
  lemma {:induction false} NewNodesAt(ns: seq<Noeud>, n: nat, base: nat)
    requires n <= |ns|
    ensures forall k :: 0 <= k < n ==> NewNodes(ns, n, base)[k] == MeshNode(base + k, ns[k].x, ns[k].y, ns[k].z)
  {
    if n > 0 {
      NewNodesAt(ns, n - 1, base);
    }
  }

  /**
   * nodes_connection_ after readNodes has one slot per id up to the
   * largest Lima node id, and the slot of Lima node k's id holds the id of
   * the k-th node created.
   */
  lemma NodeTableLayout(table: seq<int>, lm: Maillage, base: nat)
    requires Positive(NoeudIds(lm.noeuds)) && DistinctIds(NoeudIds(lm.noeuds))
    ensures |NodeTableAfter(table, lm, base)| == MaxOf(NoeudIds(lm.noeuds))
    ensures forall k :: 0 <= k < |lm.noeuds| ==> NodeTableAfter(table, lm, base)[lm.noeuds[k].id - 1] == base + k
  {
    var ids := NoeudIds(lm.noeuds);
    SlotsForMax(ids);
    StoreAt(Resize(table, MaxOf(ids), NullID), ids, Count(base, |ids|), |ids|);
  }

  /** ... and the slots no Lima node names keep their old value or, past the old size, NullID. */
  lemma NodeTableKeeps(table: seq<int>, lm: Maillage, base: nat)
    requires Positive(NoeudIds(lm.noeuds))
    ensures forall s :: 0 <= s < |NodeTableAfter(table, lm, base)| && s + 1 !in NoeudIds(lm.noeuds) ==>
              NodeTableAfter(table, lm, base)[s] == if s < |table| then table[s] else NullID
  {
    var ids := NoeudIds(lm.noeuds);
    SlotsForMax(ids);
    StoreKeeps(Resize(table, MaxOf(ids), NullID), ids, Count(base, |ids|), |ids|);
  }

  /**
   * readNodes appends one GMDS node per Lima node, with its coordinates
   * and the next id, and one cloud per nuage, with the nuage's name and
   * the table entry of each member's id.
   */
  lemma NodesStageLayout(m: Mesh, table: seq<int>, lm: Maillage)
    requires NodesReadable(lm)
    ensures var r := NodesStage(m, table, lm);
      && r.table == NodeTableAfter(table, lm, |m.nodes|)
      && |r.mesh.nodes| == |m.nodes| + |lm.noeuds| && r.mesh.nodes[..|m.nodes|] == m.nodes
      && (forall k :: 0 <= k < |lm.noeuds| ==>
            r.mesh.nodes[|m.nodes| + k] == MeshNode(|m.nodes| + k, lm.noeuds[k].x, lm.noeuds[k].y, lm.noeuds[k].z))
      && |r.mesh.clouds| == |m.clouds| + |lm.nuages| && r.mesh.clouds[..|m.clouds|] == m.clouds
      && (forall c :: 0 <= c < |lm.nuages| ==> r.mesh.clouds[|m.clouds| + c] == GroupRead(lm.nuages[c], r.table))
  {
    var t := NodeTableAfter(table, lm, |m.nodes|);
    var created := NewNodes(lm.noeuds, |lm.noeuds|, |m.nodes|);
    MembersWithin(lm.nuages, NoeudIds(lm.noeuds));
    var clouds := GroupsRead(lm.nuages, t);
    assert NodesStage(m, table, lm) == Loaded(m.(nodes := m.nodes + created, clouds := m.clouds + clouds), t);
    NewNodesAt(lm.noeuds, |lm.noeuds|, |m.nodes|);
  }

  /** How many of the first n polygons readFaces turns into faces: those with 3 to 6 vertices. */
  function FacesBuilt(ps: seq<Polygone>, n: nat): nat
    requires n <= |ps|
  {
    if n == 0 then 0 else FacesBuilt(ps, n - 1) + if ReadFaceType(|ps[n - 1].nodes|).Some? then 1 else 0
  }

  /** How many of the first n polyhedra readRegions turns into regions: those with 4, 5, 6 or 8 vertices. */
  function RegionsBuilt(ps: seq<Polyedre>, n: nat): nat
    requires n <= |ps|
  {
    if n == 0 then 0 else RegionsBuilt(ps, n - 1) + if ReadRegionType(|ps[n - 1].nodes|).Build? then 1 else 0
  }

  /** readFaces' switch builds one face per polygon with 3 to 6 vertices, with consecutive ids from base. */
  lemma {:induction false} PolygonsReadCount(ps: seq<Polygone>, n: nat, table: seq<int>, base: nat)
    requires n <= |ps| && forall k :: 0 <= k < |ps| ==> AllResolved(table, ps[k].nodes)
    ensures var c := PolygonsRead(ps, n, table, base);
      && |c.cells| == FacesBuilt(ps, n)
      && (forall j :: 0 <= j < |c.cells| ==> c.cells[j].id == base + j)
  {
    if n > 0 {
      PolygonsReadCount(ps, n - 1, table, base);
    }
  }

  /** readRegions' switch builds one region per polyhedron with 4, 5, 6 or 8 vertices, with consecutive ids from base. */
  lemma {:induction false} PolyhedraReadCount(ps: seq<Polyedre>, n: nat, table: seq<int>, base: nat)
    requires n <= |ps| && forall k :: 0 <= k < |ps| ==> AllResolved(table, ps[k].nodes)
    ensures var c := PolyhedraRead(ps, n, table, base);
      && |c.cells| == RegionsBuilt(ps, n)
      && (forall j :: 0 <= j < |c.cells| ==> c.cells[j].id == base + j)
  {
    if n > 0 {
      PolyhedraReadCount(ps, n - 1, table, base);
    }
  }

  /**
   * Slot k after readFaces' switch: NullID exactly when polygon p has fewer
   * than 3 or more than 6 vertices, and otherwise the id of the face built
   * from p, whose type follows the vertex count and whose nodes are p's
   * nodes looked up in nodes_connection_.
   */
  predicate FaceSlot(c: Created, p: Polygone, k: nat, table: seq<int>, base: nat)
  {
    var ft := ReadFaceType(|p.nodes|);
    && k < |c.slots| && AllResolved(table, p.nodes)
    && (c.slots[k] == NullID <==> ft.None?)
    && (ft.Some? ==>
          base <= c.slots[k] < base + |c.cells|
          && c.cells[c.slots[k] - base] == Cell(c.slots[k], Resolve(p.nodes, table), ft.value))
  }

  /** Slot k after readRegions' switch, as FaceSlot for faces, for a polyhedron it does not throw for. */
  predicate RegionSlot(c: Created, p: Polyedre, k: nat, table: seq<int>, base: nat)
  {
    var rt := ReadRegionType(|p.nodes|);
    && k < |c.slots| && AllResolved(table, p.nodes)
    && (c.slots[k] == NullID <==> !rt.Build?)
    && (rt.Build? ==>
          base <= c.slots[k] < base + |c.cells|
          && c.cells[c.slots[k] - base] == Cell(c.slots[k], Resolve(p.nodes, table), rt.kind))
  }

  /** Slots already filled stay right when the switch goes on: it only appends. */
  lemma SlotsKept(prev: Created, c: Created, k: nat, base: nat)
    requires k < |prev.slots| <= |c.slots| && |prev.cells| <= |c.cells|
    requires c.slots[..|prev.slots|] == prev.slots && c.cells[..|prev.cells|] == prev.cells
    ensures forall p: Polygone, table :: FaceSlot(prev, p, k, table, base) ==> FaceSlot(c, p, k, table, base)
    ensures forall p: Polyedre, table :: RegionSlot(prev, p, k, table, base) ==> RegionSlot(c, p, k, table, base)
  {
    assert c.slots[k] == prev.slots[k];
    forall i | 0 <= i < |prev.cells| ensures c.cells[i] == prev.cells[i] {
      assert c.cells[..|prev.cells|][i] == c.cells[i];
    }
  }

  lemma {:induction false} PolygonsReadSlots(ps: seq<Polygone>, n: nat, table: seq<int>, base: nat)
    requires n <= |ps| && forall k :: 0 <= k < |ps| ==> AllResolved(table, ps[k].nodes)
    ensures forall k :: 0 <= k < n ==> FaceSlot(PolygonsRead(ps, n, table, base), ps[k], k, table, base)
  {
    if n > 0 {
      PolygonsReadSlots(ps, n - 1, table, base);
      var prev := PolygonsRead(ps, n - 1, table, base);
      var c := PolygonsRead(ps, n, table, base);
      assert c.slots[..n - 1] == prev.slots;
      assert c.cells[..|prev.cells|] == prev.cells;
      forall k | 0 <= k < n - 1 ensures FaceSlot(c, ps[k], k, table, base) {
        SlotsKept(prev, c, k, base);
      }
    }
  }

  lemma {:induction false} PolyhedraReadSlots(ps: seq<Polyedre>, n: nat, table: seq<int>, base: nat)
    requires n <= |ps| && forall k :: 0 <= k < |ps| ==> AllResolved(table, ps[k].nodes)
    ensures forall k :: 0 <= k < n ==> RegionSlot(PolyhedraRead(ps, n, table, base), ps[k], k, table, base)
  {
    if n > 0 {
      PolyhedraReadSlots(ps, n - 1, table, base);
      var prev := PolyhedraRead(ps, n - 1, table, base);
      var c := PolyhedraRead(ps, n, table, base);
      assert c.slots[..n - 1] == prev.slots;
      assert c.cells[..|prev.cells|] == prev.cells;
      forall k | 0 <= k < n - 1 ensures RegionSlot(c, ps[k], k, table, base) {
        SlotsKept(prev, c, k, base);
      }
    }
  }

  /** readEdges adds a GMDS edge per bras and a line per ligne, and changes nothing else. */
  lemma EdgesStageCounts(m: Mesh, table: seq<int>, lm: Maillage)
    requires EdgesReadable(table, lm)
    ensures var r := EdgesStage(m, table, lm);
      && r.(edges := m.edges, lines := m.lines) == m
      && |r.edges| == |m.edges| + |lm.bras| && |r.lines| == |m.lines| + |lm.lignes|
  {
  }

  /** readFaces adds a GMDS face per polygon with 3 to 6 vertices and a surface per surface, and changes nothing else. */
  lemma FacesStageCounts(m: Mesh, table: seq<int>, lm: Maillage)
    requires FacesReadable(table, lm)
    ensures var r := FacesStage(m, table, lm);
      && r.(faces := m.faces, surfaces := m.surfaces) == m
      && |r.faces| == |m.faces| + FacesBuilt(lm.polygones, |lm.polygones|)
      && |r.surfaces| == |m.surfaces| + |lm.surfaces|
  {
    PolygonsReadCount(lm.polygones, |lm.polygones|, table, |m.faces|);
  }

  /**
   * readRegions throws exactly when some polyhedron has 10 or 12 vertices,
   * and then reads no volume; otherwise it adds a GMDS region per
   * polyhedron with 4, 5, 6 or 8 vertices and a volume per volume.  It
   * changes nothing else.
   */
  lemma RegionsStageCounts(m: Mesh, table: seq<int>, lm: Maillage)
    requires RegionsReadable(table, lm)
    ensures var r := RegionsStage(m, table, lm);
      var ps := lm.polyedres;
      && r.mesh.(regions := m.regions, volumes := m.volumes) == m
      && (r.err.Some? <==> exists k :: 0 <= k < |ps| && Unimplemented(ps[k]))
      && (r.err.Some? ==> r.err.value in {MSG_PRISM5, MSG_PRISM6} && r.mesh.volumes == m.volumes)
      && (r.err.None? ==>
            && |r.mesh.regions| == |m.regions| + RegionsBuilt(ps, |ps|)
            && |r.mesh.volumes| == |m.volumes| + |lm.volumes|)
  {
    var ps := lm.polyedres;
    var b := FirstWhere(ps, Unimplemented);
    FirstWhereNone(ps, Unimplemented);
    PolyhedraReadCount(ps, b, table, |m.regions|);
    if b < |ps| {
      ReadRegionTypeCases(|ps[b].nodes|);
    }
  }

  /**
   * The counts read() leaves: every Lima node and nuage is read; bras
   * and lignes when edges are read; polygons with 3 to 6 vertices and
   * surfaces when faces are read; polyhedra with 4, 5, 6 or 8 vertices
   * and volumes when regions are read and none has 10 or 12 vertices,
   * which is exactly when read() throws.
   */
  lemma ReadCounts(m: Mesh, table: seq<int>, model: MeshModel, lm: Maillage)
    requires WellFormed(lm)
    ensures var r := ReadSpec(m, table, model, lm);
      var ps := lm.polyedres;
      && r.mesh.model == m.model && r.mesh.dim == m.dim
      && |r.mesh.nodes| == |m.nodes| + |lm.noeuds|
      && |r.mesh.clouds| == |m.clouds| + |lm.nuages|
      && |r.mesh.edges| == |m.edges| + (if Gate(m.model, model, E) then |lm.bras| else 0)
      && |r.mesh.lines| == |m.lines| + (if Gate(m.model, model, E) then |lm.lignes| else 0)
      && |r.mesh.faces| == |m.faces| + (if Gate(m.model, model, F) then FacesBuilt(lm.polygones, |lm.polygones|) else 0)
      && |r.mesh.surfaces| == |m.surfaces| + (if Gate(m.model, model, F) then |lm.surfaces| else 0)
      && (r.err.Some? <==> Gate(m.model, model, R) && exists k :: 0 <= k < |ps| && Unimplemented(ps[k]))
      && (r.err.Some? ==> r.err.value in {MSG_PRISM5, MSG_PRISM6} && r.mesh.volumes == m.volumes)
      && (r.err.None? ==>
            && |r.mesh.regions| == |m.regions| + (if Gate(m.model, model, R) then RegionsBuilt(ps, |ps|) else 0)
            && |r.mesh.volumes| == |m.volumes| + (if Gate(m.model, model, R) then |lm.volumes| else 0))
  {
    var n := NodesStage(m, table, lm);
    NodesStageLayout(m, table, lm);
    NodeTableResolves(table, lm, |m.nodes|);
    var e := if Gate(m.model, model, E) then EdgesStage(n.mesh, n.table, lm) else n.mesh;
    if Gate(m.model, model, E) {
      EdgesStageCounts(n.mesh, n.table, lm);
    }
    var f := if Gate(m.model, model, F) then FacesStage(e, n.table, lm) else e;
    if Gate(m.model, model, F) {
      FacesStageCounts(e, n.table, lm);
    }
    if Gate(m.model, model, R) {
      RegionsStageCounts(f, n.table, lm);
    }
  }

  // ----- the reader -----

  class LimaReader {
    var mesh: Mesh
    var nodesConnection: seq<int>
    var lengthUnit: real

    constructor(m: Mesh)
      ensures mesh == m && nodesConnection == [] && lengthUnit == 1.0
    {
      mesh := m;
      nodesConnection := [];
      lengthUnit := 1.0;
    }

    method GetLengthUnit() returns (u: real)
      ensures u == lengthUnit
    {
      u := lengthUnit;
    }

    /**
     * read(): `loaded` is what Lima::Maillage::lire makes of the file,
     * None when it throws.
     */
    method Read(fileName: string, model: MeshModel, loaded: Option<Maillage>) returns (err: Option<string>)
      requires loaded.Some? ==> WellFormed(loaded.value)
      modifies this
      ensures loaded.None? ==> err == Some(MSG_CANNOT_READ + fileName)
      ensures loaded.None? ==> mesh == old(mesh) && nodesConnection == old(nodesConnection) && lengthUnit == old(lengthUnit)
      ensures loaded.Some? ==> lengthUnit == loaded.value.unit
      ensures loaded.Some? ==> ReadResult(mesh, nodesConnection, err) == ReadSpec(old(mesh), old(nodesConnection), model, loaded.value)
    {
      if loaded.None? {
        return Some(MSG_CANNOT_READ + fileName);
      }
      var lm := loaded.value;
      ghost var m0 := mesh;
      lengthUnit := lm.unit;
      ReadNodes(lm);
      NodeTableResolves(old(nodesConnection), lm, |m0.nodes|);
      err := None;
      if E in mesh.model && E in model {
        ReadEdges(lm);
      }
      if F in mesh.model && F in model {
        ReadFaces(lm);
      }
      if R in mesh.model && R in model {
        err := ReadRegions(lm);
      }
    }

    /** readNodes: also leaves nodes_connection_ for the passes that follow. */
    method ReadNodes(lm: Maillage)
      requires NodesReadable(lm)
      modifies this
      ensures Loaded(mesh, nodesConnection) == NodesStage(old(mesh), old(nodesConnection), lm)
      ensures lengthUnit == old(lengthUnit)
    {
      var r := NodesPass(mesh, nodesConnection, lm);
      mesh := r.mesh;
      nodesConnection := r.table;
    }

    method ReadEdges(lm: Maillage)
      requires EdgesReadable(nodesConnection, lm)
      modifies this
      ensures nodesConnection == old(nodesConnection) && lengthUnit == old(lengthUnit)
      ensures mesh == EdgesStage(old(mesh), nodesConnection, lm)
    {
      mesh := EdgesPass(mesh, nodesConnection, lm);
    }

    method ReadFaces(lm: Maillage)
      requires FacesReadable(nodesConnection, lm)
      modifies this
      ensures nodesConnection == old(nodesConnection) && lengthUnit == old(lengthUnit)
      ensures mesh == FacesStage(old(mesh), nodesConnection, lm)
    {
      mesh := FacesPass(mesh, nodesConnection, lm);
    }

    /** readRegions: the regions built before an exception stay in the mesh. */
    method ReadRegions(lm: Maillage) returns (err: Option<string>)
      requires RegionsReadable(nodesConnection, lm)
      modifies this
      ensures nodesConnection == old(nodesConnection) && lengthUnit == old(lengthUnit)
      ensures Step(mesh, err) == RegionsStage(old(mesh), nodesConnection, lm)
    {
      var r := RegionsPass(mesh, nodesConnection, lm);
      mesh := r.mesh;
      err := r.err;
    }

    /** The loops of readNodes: the running max, the resize, one newNode per Lima node, the clouds. */
    static method NodesPass(mesh: Mesh, nodesConnection: seq<int>, lm: Maillage) returns (r: Loaded)
      requires NodesReadable(lm)
      ensures r == NodesStage(mesh, nodesConnection, lm)
    {
      var created, table := BuildNodes(lm.noeuds, nodesConnection, |mesh.nodes|);
      MembersWithin(lm.nuages, NoeudIds(lm.noeuds));
      var clouds := ReadGroups(lm.nuages, table);
      r := Loaded(mesh.(nodes := mesh.nodes + created, clouds := mesh.clouds + clouds), table);
    }

    /** The node loop of readNodes: the nodes it creates from id base on, and nodes_connection_. */
    static method BuildNodes(ns: seq<Noeud>, nodesConnection: seq<int>, base: nat) returns (nodes: seq<MeshNode>, table: seq<int>)
      requires Positive(NoeudIds(ns))
      ensures nodes == NewNodes(ns, |ns|, base)
      ensures SlotsFor(NoeudIds(ns), MaxOf(NoeudIds(ns)))
      ensures table == Store(Resize(nodesConnection, MaxOf(NoeudIds(ns)), NullID), NoeudIds(ns), Count(base, |ns|), |ns|)
    {
      var ids := NoeudIds(ns);
      var maxId := MaxId(ids);
      SlotsForMax(ids);
      ghost var sized := Resize(nodesConnection, maxId, NullID);
      ghost var vals := Count(base, |ns|);
      table := Resize(nodesConnection, maxId, NullID);
      nodes := [];
      var i := 0;
      while i < |ns|
        invariant i <= |ns| && |nodes| == i
        invariant table == Store(sized, ids, vals, i)
        invariant nodes == NewNodes(ns, i, base)
      {
        var ni := ns[i];
        var n := MeshNode(base + i, ni.x, ni.y, ni.z);
        assert NewNodes(ns, i + 1, base) == nodes + [n];
        assert Store(sized, ids, vals, i + 1) == table[ni.id - 1 := base + i];
        nodes := nodes + [n];
        table := table[ni.id - 1 := base + i];
        i := i + 1;
      }
    }

    /** The loops of readEdges: one newEdge per Lima bras into a fresh table, then the lines. */
    static method EdgesPass(mesh: Mesh, table: seq<int>, lm: Maillage) returns (r: Mesh)
      requires EdgesReadable(table, lm)
      ensures r == EdgesStage(mesh, table, lm)
    {
      var ids := BrasIds(lm.bras);
      var created, edgesConnection := BuildEdges(lm.bras, table, |mesh.edges|);
      MembersWithin(lm.lignes, ids);
      var lines := ReadGroups(lm.lignes, edgesConnection);
      r := mesh.(edges := mesh.edges + created, lines := mesh.lines + lines);
    }

    /** The bras loop of readEdges: the edges it creates from id base on, and edges_connection. */
    static method BuildEdges(bs: seq<Bras>, table: seq<int>, base: nat) returns (edges: seq<MeshEdge>, edgesConnection: seq<int>)
      requires Positive(BrasIds(bs))
      requires forall k :: 0 <= k < |bs| ==> Resolved(table, bs[k].n1) && Resolved(table, bs[k].n2)
      ensures edges == EdgesRead(bs, |bs|, table, base)
      ensures SlotsFor(BrasIds(bs), MaxOf(BrasIds(bs)))
      ensures edgesConnection == Store(Resize([], MaxOf(BrasIds(bs)), NullID), BrasIds(bs), Count(base, |bs|), |bs|)
    {
      var ids := BrasIds(bs);
      var maxId := MaxId(ids);
      SlotsForMax(ids);
      ghost var empty := Resize([], maxId, NullID);
      ghost var vals := Count(base, |bs|);
      edgesConnection := Resize([], maxId, NullID);
      edges := [];
      var i := 0;
      while i < |bs|
        invariant i <= |bs| && |edges| == i
        invariant edgesConnection == Store(empty, ids, vals, i)
        invariant edges == EdgesRead(bs, i, table, base)
      {
        var b := bs[i];
        var e := EdgeRead(b, table, base + i);
        assert EdgesRead(bs, i + 1, table, base) == edges + [e];
        assert Store(empty, ids, vals, i + 1) == edgesConnection[b.id - 1 := base + i];
        edges := edges + [e];
        edgesConnection := edgesConnection[b.id - 1 := base + i];
        i := i + 1;
      }
    }

    /** The loops of readFaces: the vertex-count switch per Lima polygon, then the surfaces. */
    static method FacesPass(mesh: Mesh, table: seq<int>, lm: Maillage) returns (r: Mesh)
      requires FacesReadable(table, lm)
      ensures r == FacesStage(mesh, table, lm)
    {
      var cells, facesConnection := BuildFaces(lm.polygones, table, |mesh.faces|);
      MembersWithin(lm.surfaces, PolygoneIds(lm.polygones));
      var surfaces := ReadGroups(lm.surfaces, facesConnection);
      r := mesh.(faces := mesh.faces + cells, surfaces := mesh.surfaces + surfaces);
    }

    /** The polygon loop of readFaces: the faces it creates from id base on, and faces_connection. */
    static method BuildFaces(ps: seq<Polygone>, table: seq<int>, base: nat) returns (cells: seq<Cell>, facesConnection: seq<int>)
      requires Positive(PolygoneIds(ps))
      requires forall k :: 0 <= k < |ps| ==> AllResolved(table, ps[k].nodes)
      ensures SlotsFor(PolygoneIds(ps), MaxOf(PolygoneIds(ps)))
      ensures cells == PolygonsRead(ps, |ps|, table, base).cells
      ensures facesConnection ==
        Store(Resize([], MaxOf(PolygoneIds(ps)), NullID), PolygoneIds(ps), PolygonsRead(ps, |ps|, table, base).slots, |ps|)
    {
      var ids := PolygoneIds(ps);
      var maxId := MaxId(ids);
      SlotsForMax(ids);
      ghost var empty := Resize([], maxId, NullID);
      facesConnection := Resize([], maxId, NullID);
      cells := [];
      var i := 0;
      while i < |ps|
        invariant i <= |ps|
        invariant cells == PolygonsRead(ps, i, table, base).cells
        invariant facesConnection == Store(empty, ids, PolygonsRead(ps, i, table, base).slots, i)
      {
        cells, facesConnection := FaceStep(ps, i, table, base, cells, empty, ids, facesConnection);
        i := i + 1;
      }
    }

    /** One turn of readFaces' switch. */
    static method FaceStep(ps: seq<Polygone>, i: nat, table: seq<int>, base: nat, cells: seq<Cell>,
                           ghost sized: seq<int>, ghost ids: seq<nat>, facesConnection: seq<int>)
      returns (cells': seq<Cell>, facesConnection': seq<int>)
      requires i < |ps| && forall k :: 0 <= k < |ps| ==> AllResolved(table, ps[k].nodes)
      requires ids == PolygoneIds(ps) && SlotsFor(ids, |sized|)
      requires cells == PolygonsRead(ps, i, table, base).cells
      requires facesConnection == Store(sized, ids, PolygonsRead(ps, i, table, base).slots, i)
      ensures cells' == PolygonsRead(ps, i + 1, table, base).cells
      ensures facesConnection' == Store(sized, ids, PolygonsRead(ps, i + 1, table, base).slots, i + 1)
    {
      var p := ps[i];
      var ft := ReadFaceType(|p.nodes|);
      PolygonsStep(ps, i, table, base, sized, ids);
      var id := NullID;
      cells' := cells;
      if ft.Some? {
        var nodes := ResolveNodes(p.nodes, table);
        id := base + |cells|;
        cells' := cells + [Cell(id, nodes, ft.value)];
      }
      facesConnection' := facesConnection[p.id - 1 := id];
    }

    /** readRegions: the vertex-count switch, which may throw, then the volumes. */
    static method RegionsPass(mesh: Mesh, table: seq<int>, lm: Maillage) returns (r: Step)
      requires RegionsReadable(table, lm)
      ensures r == RegionsStage(mesh, table, lm)
    {
      var cells, regionsConnection, stop := BuildRegions(lm.polyedres, table, |mesh.regions|);
      if stop < |lm.polyedres| {
        return Step(mesh.(regions := mesh.regions + cells), Some(ReadRegionType(|lm.polyedres[stop].nodes|).msg));
      }
      MembersWithin(lm.volumes, PolyedreIds(lm.polyedres));
      var volumes := ReadGroups(lm.volumes, regionsConnection);
      r := Step(mesh.(regions := mesh.regions + cells, volumes := mesh.volumes + volumes), None);
    }

    /**
     * The polyhedron loop of readRegions: the running max, a fresh table,
     * then one region (or null region) per Lima polyhedron from id base
     * on, stopping at the first one the switch throws for.
     */
    static method BuildRegions(ps: seq<Polyedre>, table: seq<int>, base: nat)
      returns (cells: seq<Cell>, regionsConnection: seq<int>, stop: nat)
      requires Positive(PolyedreIds(ps))
      requires forall k :: 0 <= k < |ps| ==> AllResolved(table, ps[k].nodes)
      ensures stop == FirstWhere(ps, Unimplemented)
      ensures cells == PolyhedraRead(ps, stop, table, base).cells
      ensures SlotsFor(PolyedreIds(ps), MaxOf(PolyedreIds(ps)))
      ensures regionsConnection ==
        Store(Resize([], MaxOf(PolyedreIds(ps)), NullID), PolyedreIds(ps), PolyhedraRead(ps, stop, table, base).slots, stop)
    {
      var ids := PolyedreIds(ps);
      var maxId := MaxId(ids);
      SlotsForMax(ids);
      ghost var empty := Resize([], maxId, NullID);
      regionsConnection := Resize([], maxId, NullID);
      cells := [];
      var i := 0;
      while i < |ps| && !ReadRegionType(|ps[i].nodes|).NotImplemented?
        invariant i <= |ps|
        invariant forall j :: 0 <= j < i ==> !Unimplemented(ps[j])
        invariant cells == PolyhedraRead(ps, i, table, base).cells
        invariant regionsConnection == Store(empty, ids, PolyhedraRead(ps, i, table, base).slots, i)
      {
        cells, regionsConnection := RegionStep(ps, i, table, base, cells, empty, ids, regionsConnection);
        i := i + 1;
      }
      FirstWhereAt(ps, Unimplemented, i);
      stop := i;
    }

    /** One turn of readRegions' switch, for a polyhedron it does not throw for. */
    static method RegionStep(ps: seq<Polyedre>, i: nat, table: seq<int>, base: nat, cells: seq<Cell>,
                             ghost sized: seq<int>, ghost ids: seq<nat>, regionsConnection: seq<int>)
      returns (cells': seq<Cell>, regionsConnection': seq<int>)
      requires i < |ps| && !Unimplemented(ps[i])
      requires forall k :: 0 <= k < |ps| ==> AllResolved(table, ps[k].nodes)
      requires ids == PolyedreIds(ps) && SlotsFor(ids, |sized|)
      requires cells == PolyhedraRead(ps, i, table, base).cells
      requires regionsConnection == Store(sized, ids, PolyhedraRead(ps, i, table, base).slots, i)
      ensures cells' == PolyhedraRead(ps, i + 1, table, base).cells
      ensures regionsConnection' == Store(sized, ids, PolyhedraRead(ps, i + 1, table, base).slots, i + 1)
    {
      var p := ps[i];
      var rt := ReadRegionType(|p.nodes|);
      PolyhedraStep(ps, i, table, base, sized, ids);
      var id := NullID;
      cells' := cells;
      if rt.Build? {
        var nodes := ResolveNodes(p.nodes, table);
        id := base + |cells|;
        cells' := cells + [Cell(id, nodes, rt.kind)];
      }
      regionsConnection' := regionsConnection[p.id - 1 := id];
    }

    /** The node handles `nodes_connection_[p.noeud(j).id()-1]` the switch passes to newX. */
    static method ResolveNodes(vs: seq<nat>, table: seq<int>) returns (r: seq<nat>)
      requires AllResolved(table, vs)
      ensures r == Resolve(vs, table)
    {
      r := [];
      var j := 0;
      while j < |vs|
        invariant j <= |vs|
        invariant r == Resolve(vs, table)[..j]
      {
        assert Resolved(table, vs[j]);
        r := r + [table[vs[j] - 1] as nat];
        j := j + 1;
      }
    }

    /** One group per Lima set, with its members looked up in a table. */
    static method ReadGroups(sets: seq<NamedSet>, table: seq<int>) returns (gs: seq<Group>)
      requires forall k :: 0 <= k < |sets| ==> SlotsFor(sets[k].members, |table|)
      ensures gs == GroupsRead(sets, table)
    {
      gs := [];
      var k := 0;
      while k < |sets|
        invariant k <= |sets|
        invariant gs == GroupsRead(sets, table)[..k]
      {
        var s := sets[k];
        var cells := [];
        var j := 0;
        while j < |s.members|
          invariant j <= |s.members|
          invariant cells == GroupRead(s, table).cells[..j]
        {
          cells := cells + [table[s.members[j] - 1]];
          j := j + 1;
        }
        assert Group(s.name, cells) == GroupRead(s, table);
        gs := gs + [Group(s.name, cells)];
        k := k + 1;
      }
    }
  }
}
