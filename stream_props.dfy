/**
 * What a reader of the chunked stream gets back: the data chunks of each
 * kind, read in order and concatenated, give back the mesh's shifted ids,
 * coordinates, connectivity and types; every chunk but the last is full;
 * and write() raises nothing exactly when every cell and member fits.
 */
module StreamProps {

  import opened Wrappers
  import opened GmdsMesh
  import opened LimaData
  import opened MaliPP
  import opened Chunking
  import opened IdScan
  import opened Shapes
  import opened ChunkedStreams
  import opened ApiStream

  /** The id array a data record carries (none for the other records). */
  function DataIds(r: Record): seq<int>
  {
    if r.NodesData? || r.EdgesData? || r.FacesData? || r.RegionsData?
       || r.NodeSetData? || r.EdgeSetData? || r.FaceSetData? || r.RegionSetData?
    then r.ids else []
  }

  /** The element count a data record announces (0 for the other records). */
  function DataCount(r: Record): nat
  {
    if r.NodesData? || r.EdgesData? || r.FacesData? || r.RegionsData?
       || r.NodeSetData? || r.EdgeSetData? || r.FaceSetData? || r.RegionSetData?
    then r.count else 0
  }

  /** The connectivity array a data record carries (none for the other records). */
  function DataConn(r: Record): seq<int>
  {
    if r.EdgesData? then r.edge2nodes
    else if r.FacesData? then r.face2nodes
    else if r.RegionsData? then r.region2nodes
    else []
  }

  /** The polyhedron types a data record carries (none for the other records). */
  function DataTypes(r: Record): seq<PolyedreType>
  {
    if r.RegionsData? || r.RegionSetData? then r.types else []
  }

  /** The element counts the records announce, added up. */
  function CountSum(rs: seq<Record>): nat
  {
    if |rs| == 0 then 0 else DataCount(rs[0]) + CountSum(rs[1..])
  }

  // ----- generic facts about chunked records -----

  /** When each chunk's record lists e(x) for each of its elements, all the records together list e(x) for every element. */
  lemma ChunkedIds<T>(s: seq<T>, f: seq<T> -> Record, e: T -> int)
    requires forall c :: DataIds(f(c)) == MapSeq(e, c)
    ensures Flatten(MapSeq(DataIds, MapSeq(f, Chunks(s)))) == MapSeq(e, s)
  {
    FlattenProjected(Chunks(s), f, DataIds, e);
    FlattenChunks(s);
  }

  /** When each chunk's record announces the chunk's length, the counts show ceil(|s|/CHUNK) records, all full but the last. */
  lemma ChunkedCounts<T>(s: seq<T>, f: seq<T> -> Record)
    requires forall c :: DataCount(f(c)) == |c|
    ensures |MapSeq(f, Chunks(s))| == (|s| + CHUNK - 1) / CHUNK
    ensures forall k :: 0 <= k < |Chunks(s)| ==> 0 < DataCount(MapSeq(f, Chunks(s))[k]) <= CHUNK
    ensures forall k :: 0 <= k < |Chunks(s)| - 1 ==> DataCount(MapSeq(f, Chunks(s))[k]) == CHUNK
  {
    ChunksFull(s);
    ChunkSizes(s);
    forall k | 0 <= k < |Chunks(s)|
      ensures 0 < DataCount(MapSeq(f, Chunks(s))[k]) <= CHUNK
    {
      assert Chunks(s)[k] in Chunks(s);
    }
  }

  /** When each chunk's record announces the chunk's length, the announced counts add up to the whole length. */
  lemma {:induction false} ChunkedCountSum<T>(s: seq<T>, f: seq<T> -> Record)
    requires forall c :: DataCount(f(c)) == |c|
    ensures CountSum(MapSeq(f, Chunks(s))) == |s|
    decreases |s|
  {
    if |s| > CHUNK {
      ChunkedCountSum(s[CHUNK..], f);
      assert MapSeq(f, Chunks(s))[1..] == MapSeq(f, Chunks(s[CHUNK..]));
    } else if |s| > 0 {
      assert MapSeq(f, Chunks(s))[1..] == [];
    }
  }

  // ----- elements -----

  function NodeLimaId(n: MeshNode): int { n.id + 1 }
  function EdgeLimaId(e: MeshEdge): int { e.id + 1 }
  function CellLimaId(c: Cell): int { c.id + 1 }
  function EntryLimaId(e: RegionEntry): int { e.cell.id + 1 }

  /** The ids of all node chunks, in order, are the node ids plus 1. */
  lemma NodeStreamIds(nodes: seq<MeshNode>)
    ensures Flatten(MapSeq(DataIds, NodeStream(nodes)[1..])) == Shift(NodeIds(nodes))
  {
    NodeStreamTail(nodes);
    forall c ensures DataIds(NodesDataOf(c)) == MapSeq(NodeLimaId, c) {
    }
    ChunkedIds(nodes, NodesDataOf, NodeLimaId);
  }

  /** The coordinates of all node chunks, in order, are the coordinates of the nodes. */
  lemma NodeStreamCoordinates(nodes: seq<MeshNode>)
    ensures Flatten(MapSeq((r: Record) => if r.NodesData? then r.xs else [], NodeStream(nodes)[1..])) == Xs(nodes)
    ensures Flatten(MapSeq((r: Record) => if r.NodesData? then r.ys else [], NodeStream(nodes)[1..])) == Ys(nodes)
    ensures Flatten(MapSeq((r: Record) => if r.NodesData? then r.zs else [], NodeStream(nodes)[1..])) == Zs(nodes)
  {
    var chunks := NodeStream(nodes)[1..];
    NodeStreamTail(nodes);
    FlattenChunks(nodes);
    var px := (r: Record) => if r.NodesData? then r.xs else [];
    forall c ensures px(NodesDataOf(c)) == MapSeq((n: MeshNode) => n.x, c) {
    }
    FlattenProjected(Chunks(nodes), NodesDataOf, px, (n: MeshNode) => n.x);
    var py := (r: Record) => if r.NodesData? then r.ys else [];
    forall c ensures py(NodesDataOf(c)) == MapSeq((n: MeshNode) => n.y, c) {
    }
    FlattenProjected(Chunks(nodes), NodesDataOf, py, (n: MeshNode) => n.y);
    var pz := (r: Record) => if r.NodesData? then r.zs else [];
    forall c ensures pz(NodesDataOf(c)) == MapSeq((n: MeshNode) => n.z, c) {
    }
    FlattenProjected(Chunks(nodes), NodesDataOf, pz, (n: MeshNode) => n.z);
  }

  /** There are ceil(|nodes|/CHUNK) node chunks, each holding 1 to CHUNK nodes and all but the last holding CHUNK. */
  lemma NodeStreamChunks(nodes: seq<MeshNode>)
    ensures |NodeStream(nodes)| == 1 + (|nodes| + CHUNK - 1) / CHUNK
    ensures forall k :: 1 <= k < |NodeStream(nodes)| ==> 0 < DataCount(NodeStream(nodes)[k]) <= CHUNK
    ensures forall k :: 1 <= k < |NodeStream(nodes)| - 1 ==> DataCount(NodeStream(nodes)[k]) == CHUNK
  {
    ChunkedCounts(nodes, NodesDataOf);
  }

  /** The ids of all edge chunks, in order, are the edge ids plus 1. */
  lemma EdgeStreamIds(edges: seq<MeshEdge>)
    ensures Flatten(MapSeq(DataIds, EdgeStream(edges)[1..])) == Shift(EdgeIds(edges))
  {
    EdgeStreamTail(edges);
    forall c ensures DataIds(EdgesDataOf(c)) == MapSeq(EdgeLimaId, c) {
    }
    ChunkedIds(edges, EdgesDataOf, EdgeLimaId);
  }

  lemma EdgeNodePairsAppend(a: seq<MeshEdge>, b: seq<MeshEdge>)
    ensures EdgeNodePairs(a + b) == EdgeNodePairs(a) + EdgeNodePairs(b)
  {
    var l, r := EdgeNodePairs(a + b), EdgeNodePairs(a) + EdgeNodePairs(b);
    forall j | 0 <= j < |l| ensures l[j] == r[j] {
      if j >= 2 * |a| {
        assert (j - 2 * |a|) / 2 == j / 2 - |a| && (j - 2 * |a|) % 2 == j % 2;
      }
    }
  }

  lemma {:induction false} EdgeConnChunks(cs: seq<seq<MeshEdge>>)
    ensures Flatten(MapSeq(DataConn, MapSeq(EdgesDataOf, cs))) == EdgeNodePairs(Flatten(cs))
    decreases |cs|
  {
    if |cs| > 0 {
      EdgeConnChunks(cs[1..]);
      assert MapSeq(DataConn, MapSeq(EdgesDataOf, cs))[1..] == MapSeq(DataConn, MapSeq(EdgesDataOf, cs[1..]));
      EdgeNodePairsAppend(cs[0], Flatten(cs[1..]));
    } else {
      assert EdgeNodePairs([]) == [];
    }
  }

  /** The connectivity of all edge chunks, in order, pairs the shifted end nodes of every edge. */
  lemma EdgeStreamConnectivity(edges: seq<MeshEdge>)
    ensures Flatten(MapSeq(DataConn, EdgeStream(edges)[1..])) == EdgeNodePairs(edges)
  {
    EdgeStreamTail(edges);
    EdgeConnChunks(Chunks(edges));
    FlattenChunks(edges);
  }

  /** The ids of the face chunks written are the ids of the faces flushed, plus 1. */
  lemma FaceStreamIds(faces: seq<Cell>)
    ensures Flatten(MapSeq(DataIds, FaceStreamUpTo(faces, FacesFlushed(faces))[1..])) == Shift(CellIds(faces[..FacesFlushed(faces)]))
  {
    var written := faces[..FacesFlushed(faces)];
    FaceStreamTail(faces, FacesFlushed(faces));
    forall c ensures DataIds(FacesDataOf(c)) == MapSeq(CellLimaId, c) {
    }
    ChunkedIds(written, FacesDataOf, CellLimaId);
  }

  lemma {:induction false} FlatConnAppend(a: seq<Cell>, b: seq<Cell>)
    ensures FlatConn(a + b) == FlatConn(a) + FlatConn(b)
    decreases |b|
  {
    if |b| == 0 {
      assert a + b == a;
    } else {
      var init, x := b[..|b| - 1], b[|b| - 1];
      assert b == init + [x];
      assert a + b == (a + init) + [x];
      FlatConnAppend(a, init);
      FlatConnSnoc(a + init, x);
      FlatConnSnoc(init, x);
    }
  }

  lemma {:induction false} FaceConnChunks(cs: seq<seq<Cell>>)
    ensures Flatten(MapSeq(DataConn, MapSeq(FacesDataOf, cs))) == FlatConn(Flatten(cs))
    decreases |cs|
  {
    if |cs| > 0 {
      FaceConnChunks(cs[1..]);
      assert MapSeq(DataConn, MapSeq(FacesDataOf, cs))[1..] == MapSeq(DataConn, MapSeq(FacesDataOf, cs[1..]));
      FlatConnAppend(cs[0], Flatten(cs[1..]));
    }
  }

  /** The connectivity of the face chunks written is the flattened shifted node lists of the faces flushed. */
  lemma FaceStreamConnectivity(faces: seq<Cell>)
    ensures Flatten(MapSeq(DataConn, FaceStreamUpTo(faces, FacesFlushed(faces))[1..])) == FlatConn(faces[..FacesFlushed(faces)])
  {
    var written := faces[..FacesFlushed(faces)];
    FaceStreamTail(faces, FacesFlushed(faces));
    FaceConnChunks(Chunks(written));
    FlattenChunks(written);
  }

  /** The ids of the region chunks written are the ids of the regions flushed, plus 1. */
  lemma RegionStreamIds(regions: seq<Cell>)
    ensures var n := RegionsFlushed(regions);
      Flatten(MapSeq(DataIds, RegionStreamUpTo(regions, n)[1..])) == Shift(CellIds(regions[..n]))
  {
    var n := RegionsFlushed(regions);
    var written := RegionEntries(regions[..n]);
    RegionStreamTail(regions, n);
    forall c ensures DataIds(RegionsDataOf(c)) == MapSeq(EntryLimaId, c) {
    }
    ChunkedIds(written, RegionsDataOf, EntryLimaId);
    var ids, shifted := MapSeq(EntryLimaId, written), Shift(CellIds(regions[..n]));
    forall k | 0 <= k < n ensures ids[k] == shifted[k] {
    }
    assert ids == shifted;
  }

  lemma {:induction false} EntryConnChunks(cs: seq<seq<RegionEntry>>)
    ensures Flatten(MapSeq(DataConn, MapSeq(RegionsDataOf, cs))) == FlatConn(EntryCells(Flatten(cs)))
    decreases |cs|
  {
    if |cs| > 0 {
      var head, rest := cs[0], Flatten(cs[1..]);
      EntryConnChunks(cs[1..]);
      assert MapSeq(DataConn, MapSeq(RegionsDataOf, cs))[1..] == MapSeq(DataConn, MapSeq(RegionsDataOf, cs[1..]));
      assert DataConn(RegionsDataOf(head)) == FlatConn(EntryCells(head));
      assert Flatten(cs) == head + rest;
      EntryCellsAppend(head, rest);
      FlatConnAppend(EntryCells(head), EntryCells(rest));
    }
  }

  lemma EntryCellsAppend(a: seq<RegionEntry>, b: seq<RegionEntry>)
    ensures EntryCells(a + b) == EntryCells(a) + EntryCells(b)
  {
  }

  /** The connectivity of the region chunks written is the flattened shifted node lists of the regions flushed. */
  lemma RegionStreamConnectivity(regions: seq<Cell>)
    ensures var n := RegionsFlushed(regions);
      Flatten(MapSeq(DataConn, RegionStreamUpTo(regions, n)[1..])) == FlatConn(regions[..n])
  {
    var n := RegionsFlushed(regions);
    var written := RegionEntries(regions[..n]);
    RegionStreamTail(regions, n);
    EntryConnChunks(Chunks(written));
    FlattenChunks(written);
    assert EntryCells(written) == regions[..n];
  }

  /** The types of the region chunks written are the Lima types of the regions flushed, region by region. */
  lemma RegionStreamTypes(regions: seq<Cell>)
    ensures var n := RegionsFlushed(regions);
      var types := Flatten(MapSeq(DataTypes, RegionStreamUpTo(regions, n)[1..]));
      |types| == n && forall k :: 0 <= k < n ==> ApiRegionType(regions[k].kind) == Some(types[k])
  {
    var n := RegionsFlushed(regions);
    var written := RegionEntries(regions[..n]);
    RegionStreamTail(regions, n);
    forall c ensures DataTypes(RegionsDataOf(c)) == MapSeq((e: RegionEntry) => e.ptype, c) {
    }
    FlattenProjected(Chunks(written), RegionsDataOf, DataTypes, (e: RegionEntry) => e.ptype);
    FlattenChunks(written);
  }

  // ----- groups -----

  /** The members of every group in turn, shifted to Lima ids. */
  function AllMembers(gs: seq<Group>): seq<int>
  {
    if |gs| == 0 then [] else AllMembers(gs[..|gs| - 1]) + ShiftMembers(gs[|gs| - 1].cells)
  }

  /** The ids of all cloud chunks, in order, are every cloud's members shifted, cloud after cloud. */
  lemma {:induction false} CloudStreamIds(gs: seq<Group>)
    ensures Flatten(MapSeq(DataIds, CloudStream(gs)[1..])) == AllMembers(gs)
    decreases |gs|
  {
    assert CloudStream(gs)[1..] == CloudChunks(gs);
    if |gs| > 0 {
      var g := gs[|gs| - 1];
      var init := gs[..|gs| - 1];
      CloudStreamIds(init);
      assert CloudStream(init)[1..] == CloudChunks(init);
      var mine := MapSeq(NodeSetEncoder(g.name), Chunks(ShiftMembers(g.cells)));
      MapSeqAppend(DataIds, CloudChunks(init), mine);
      FlattenAppend(MapSeq(DataIds, CloudChunks(init)), MapSeq(DataIds, mine));
      forall c ensures DataIds(NodeSetEncoder(g.name)(c)) == MapSeq(x => x, c) {
      }
      ChunkedIds(ShiftMembers(g.cells), NodeSetEncoder(g.name), x => x);
    }
  }

  /** The ids of all line chunks, in order, are every line's members shifted, line after line. */
  lemma {:induction false} LineStreamIds(gs: seq<Group>)
    ensures Flatten(MapSeq(DataIds, LineStream(gs)[1..])) == AllMembers(gs)
    decreases |gs|
  {
    assert LineStream(gs)[1..] == LineChunks(gs);
    if |gs| > 0 {
      var g := gs[|gs| - 1];
      var init := gs[..|gs| - 1];
      LineStreamIds(init);
      assert LineStream(init)[1..] == LineChunks(init);
      var mine := MapSeq(EdgeSetEncoder(g.name), Chunks(ShiftMembers(g.cells)));
      MapSeqAppend(DataIds, LineChunks(init), mine);
      FlattenAppend(MapSeq(DataIds, LineChunks(init)), MapSeq(DataIds, mine));
      forall c ensures DataIds(EdgeSetEncoder(g.name)(c)) == MapSeq(x => x, c) {
      }
      ChunkedIds(ShiftMembers(g.cells), EdgeSetEncoder(g.name), x => x);
    }
  }

  /** The ids of all surface chunks, in order, are every surface's members shifted, surface after surface. */
  lemma {:induction false} SurfaceStreamIds(faces: seq<Cell>, gs: seq<Group>)
    ensures Flatten(MapSeq(DataIds, SurfaceStream(faces, gs)[1..])) == AllMembers(gs)
    decreases |gs|
  {
    assert SurfaceStream(faces, gs)[1..] == SurfaceChunks(faces, gs);
    if |gs| > 0 {
      var g := gs[|gs| - 1];
      var init := gs[..|gs| - 1];
      SurfaceStreamIds(faces, init);
      assert SurfaceStream(faces, init)[1..] == SurfaceChunks(faces, init);
      var entries := SurfaceEntries(faces, g.cells);
      var mine := MapSeq(FaceSetEncoder(g.name), Chunks(entries));
      MapSeqAppend(DataIds, SurfaceChunks(faces, init), mine);
      FlattenAppend(MapSeq(DataIds, SurfaceChunks(faces, init)), MapSeq(DataIds, mine));
      forall c ensures DataIds(FaceSetEncoder(g.name)(c)) == MapSeq((e: FaceSetEntry) => e.id, c) {
      }
      ChunkedIds(entries, FaceSetEncoder(g.name), (e: FaceSetEntry) => e.id);
      assert MapSeq((e: FaceSetEntry) => e.id, entries) == ShiftMembers(g.cells);
    }
  }

  // ----- one group's chunks -----

  /** The data chunks one cloud produces. */
  function CloudGroupChunks(g: Group): seq<Record>
  {
    MapSeq(NodeSetEncoder(g.name), Chunks(ShiftMembers(g.cells)))
  }

  function LineGroupChunks(g: Group): seq<Record>
  {
    MapSeq(EdgeSetEncoder(g.name), Chunks(ShiftMembers(g.cells)))
  }

  function SurfaceGroupChunks(faces: seq<Cell>): Group -> seq<Record>
  {
    (g: Group) => MapSeq(FaceSetEncoder(g.name), Chunks(SurfaceEntries(faces, g.cells)))
  }

  lemma {:induction false} CloudChunksPerGroup(gs: seq<Group>)
    ensures CloudChunks(gs) == Flatten(MapSeq(CloudGroupChunks, gs))
    decreases |gs|
  {
    if |gs| > 0 {
      var init, g := gs[..|gs| - 1], gs[|gs| - 1];
      CloudChunksPerGroup(init);
      assert gs == init + [g];
      FlattenMapSnoc(CloudGroupChunks, init, g);
    }
  }

  /**
   * The buffer is flushed at the end of every cloud: the cloud chunks are
   * those of each cloud in turn, and each cloud's chunks are named after
   * it, hold 1 to CHUNK members and announce the cloud's size in total.
   */
  lemma CloudStreamGroups(gs: seq<Group>)
    ensures CloudStream(gs)[1..] == Flatten(MapSeq(CloudGroupChunks, gs))
    ensures forall k :: 0 <= k < |gs| ==>
      && (forall r <- CloudGroupChunks(gs[k]) :: r.NodeSetData? && r.name == gs[k].name && 0 < r.count <= CHUNK)
      && CountSum(CloudGroupChunks(gs[k])) == |gs[k].cells|
  {
    assert CloudStream(gs)[1..] == CloudChunks(gs);
    CloudChunksPerGroup(gs);
    forall k | 0 <= k < |gs|
      ensures forall r <- CloudGroupChunks(gs[k]) :: r.NodeSetData? && r.name == gs[k].name && 0 < r.count <= CHUNK
      ensures CountSum(CloudGroupChunks(gs[k])) == |gs[k].cells|
    {
      ChunkSizes(ShiftMembers(gs[k].cells));
      ChunkedCountSum(ShiftMembers(gs[k].cells), NodeSetEncoder(gs[k].name));
    }
  }

  lemma {:induction false} LineChunksPerGroup(gs: seq<Group>)
    ensures LineChunks(gs) == Flatten(MapSeq(LineGroupChunks, gs))
    decreases |gs|
  {
    if |gs| > 0 {
      var init, g := gs[..|gs| - 1], gs[|gs| - 1];
      LineChunksPerGroup(init);
      assert gs == init + [g];
      FlattenMapSnoc(LineGroupChunks, init, g);
    }
  }

  /** The same for lines: each line's chunks are its own, and announce its size in total. */
  lemma LineStreamGroups(gs: seq<Group>)
    ensures LineStream(gs)[1..] == Flatten(MapSeq(LineGroupChunks, gs))
    ensures forall k :: 0 <= k < |gs| ==>
      && (forall r <- LineGroupChunks(gs[k]) :: r.EdgeSetData? && r.name == gs[k].name && 0 < r.count <= CHUNK)
      && CountSum(LineGroupChunks(gs[k])) == |gs[k].cells|
  {
    assert LineStream(gs)[1..] == LineChunks(gs);
    LineChunksPerGroup(gs);
    forall k | 0 <= k < |gs|
      ensures forall r <- LineGroupChunks(gs[k]) :: r.EdgeSetData? && r.name == gs[k].name && 0 < r.count <= CHUNK
      ensures CountSum(LineGroupChunks(gs[k])) == |gs[k].cells|
    {
      ChunkSizes(ShiftMembers(gs[k].cells));
      ChunkedCountSum(ShiftMembers(gs[k].cells), EdgeSetEncoder(gs[k].name));
    }
  }

  lemma {:induction false} SurfaceChunksPerGroup(faces: seq<Cell>, gs: seq<Group>)
    ensures SurfaceChunks(faces, gs) == Flatten(MapSeq(SurfaceGroupChunks(faces), gs))
    decreases |gs|
  {
    if |gs| > 0 {
      var init, g := gs[..|gs| - 1], gs[|gs| - 1];
      SurfaceChunksPerGroup(faces, init);
      assert gs == init + [g];
      FlattenMapSnoc(SurfaceGroupChunks(faces), init, g);
    }
  }

  /** The same for surfaces: each surface's chunks are its own, and announce its size in total. */
  lemma SurfaceStreamGroups(faces: seq<Cell>, gs: seq<Group>)
    ensures SurfaceStream(faces, gs)[1..] == Flatten(MapSeq(SurfaceGroupChunks(faces), gs))
    ensures forall k :: 0 <= k < |gs| ==>
      && (forall r <- SurfaceGroupChunks(faces)(gs[k]) :: r.FaceSetData? && r.name == gs[k].name && 0 < r.count <= CHUNK)
      && CountSum(SurfaceGroupChunks(faces)(gs[k])) == |gs[k].cells|
  {
    assert SurfaceStream(faces, gs)[1..] == SurfaceChunks(faces, gs);
    SurfaceChunksPerGroup(faces, gs);
    forall k | 0 <= k < |gs|
      ensures forall r <- SurfaceGroupChunks(faces)(gs[k]) :: r.FaceSetData? && r.name == gs[k].name && 0 < r.count <= CHUNK
      ensures CountSum(SurfaceGroupChunks(faces)(gs[k])) == |gs[k].cells|
    {
      ChunkSizes(SurfaceEntries(faces, gs[k].cells));
      ChunkedCountSum(SurfaceEntries(faces, gs[k].cells), FaceSetEncoder(gs[k].name));
    }
  }

  // ----- volumes -----

  /** Each volume's members that reach the file, volume after volume: those of the chunks completed before its first unmapped member. */
  function VolumeMembersWritten(regions: seq<Cell>, gs: seq<Group>): seq<int>
  {
    if |gs| == 0 then []
    else
      var g := gs[|gs| - 1];
      VolumeMembersWritten(regions, gs[..|gs| - 1]) + g.cells[..MembersWritten(regions, g.cells)]
  }

  /** The Lima type of the region each member names (None when it has none). */
  function MemberTypes(regions: seq<Cell>, xs: seq<int>): (r: seq<Option<PolyedreType>>)
    ensures |r| == |xs| && forall k :: 0 <= k < |xs| ==> r[k] == MemberType(regions, xs[k])
  {
    seq(|xs|, k requires 0 <= k < |xs| => MemberType(regions, xs[k]))
  }

  function Somes(ts: seq<PolyedreType>): (r: seq<Option<PolyedreType>>)
    ensures |r| == |ts| && forall k :: 0 <= k < |ts| ==> r[k] == Some(ts[k])
  {
    seq(|ts|, k requires 0 <= k < |ts| => Some(ts[k]))
  }

  lemma ShiftMembersAppend(a: seq<int>, b: seq<int>)
    ensures ShiftMembers(a + b) == ShiftMembers(a) + ShiftMembers(b)
  {
  }

  lemma MemberTypesAppend(regions: seq<Cell>, a: seq<int>, b: seq<int>)
    ensures MemberTypes(regions, a + b) == MemberTypes(regions, a) + MemberTypes(regions, b)
  {
  }

  lemma SomesAppend(a: seq<PolyedreType>, b: seq<PolyedreType>)
    ensures Somes(a + b) == Somes(a) + Somes(b)
  {
  }

  /** One volume's chunks carry its written members shifted, each with its region's Lima type. */
  lemma VolumeGroupCarries(regions: seq<Cell>, g: Group)
    ensures var w := g.cells[..MembersWritten(regions, g.cells)];
      && Flatten(MapSeq(DataIds, VolumeGroupChunks(regions, g))) == ShiftMembers(w)
      && Somes(Flatten(MapSeq(DataTypes, VolumeGroupChunks(regions, g)))) == MemberTypes(regions, w)
  {
    var n := MembersWritten(regions, g.cells);
    var es := MappedEntries(regions, g.cells)[..n];
    forall c ensures DataIds(RegionSetEncoder(g.name)(c)) == MapSeq((e: RegionSetEntry) => e.id, c) {
    }
    FlattenProjected(Chunks(es), RegionSetEncoder(g.name), DataIds, (e: RegionSetEntry) => e.id);
    forall c ensures DataTypes(RegionSetEncoder(g.name)(c)) == MapSeq((e: RegionSetEntry) => e.ptype, c) {
    }
    FlattenProjected(Chunks(es), RegionSetEncoder(g.name), DataTypes, (e: RegionSetEntry) => e.ptype);
    FlattenChunks(es);
  }

  lemma {:induction false} VolumeChunksIds(regions: seq<Cell>, gs: seq<Group>)
    ensures Flatten(MapSeq(DataIds, VolumeChunks(regions, gs))) == ShiftMembers(VolumeMembersWritten(regions, gs))
    decreases |gs|
  {
    if |gs| > 0 {
      var init, g := gs[..|gs| - 1], gs[|gs| - 1];
      var before, mine := VolumeChunks(regions, init), VolumeGroupChunks(regions, g);
      var w0, w1 := VolumeMembersWritten(regions, init), g.cells[..MembersWritten(regions, g.cells)];
      VolumeChunksIds(regions, init);
      VolumeGroupCarries(regions, g);
      MapSeqAppend(DataIds, before, mine);
      FlattenAppend(MapSeq(DataIds, before), MapSeq(DataIds, mine));
      assert VolumeChunks(regions, gs) == before + mine;
      assert VolumeMembersWritten(regions, gs) == w0 + w1;
      ShiftMembersAppend(w0, w1);
    }
  }

  lemma {:induction false} VolumeChunksTypes(regions: seq<Cell>, gs: seq<Group>)
    ensures Somes(Flatten(MapSeq(DataTypes, VolumeChunks(regions, gs)))) == MemberTypes(regions, VolumeMembersWritten(regions, gs))
    decreases |gs|
  {
    if |gs| > 0 {
      var init, g := gs[..|gs| - 1], gs[|gs| - 1];
      var before, mine := VolumeChunks(regions, init), VolumeGroupChunks(regions, g);
      var w0, w1 := VolumeMembersWritten(regions, init), g.cells[..MembersWritten(regions, g.cells)];
      VolumeChunksTypes(regions, init);
      VolumeGroupCarries(regions, g);
      MapSeqAppend(DataTypes, before, mine);
      FlattenAppend(MapSeq(DataTypes, before), MapSeq(DataTypes, mine));
      assert VolumeChunks(regions, gs) == before + mine;
      assert VolumeMembersWritten(regions, gs) == w0 + w1;
      MemberTypesAppend(regions, w0, w1);
      SomesAppend(Flatten(MapSeq(DataTypes, before)), Flatten(MapSeq(DataTypes, mine)));
    }
  }

  /** When every volume is mapped, every member of every volume is written. */
  lemma {:induction false} VolumeMembersAll(regions: seq<Cell>, gs: seq<Group>)
    requires forall j :: 0 <= j < |gs| ==> VolumeMapped(regions, gs[j])
    ensures ShiftMembers(VolumeMembersWritten(regions, gs)) == AllMembers(gs)
    decreases |gs|
  {
    if |gs| > 0 {
      var init, g := gs[..|gs| - 1], gs[|gs| - 1];
      var w0 := VolumeMembersWritten(regions, init);
      VolumeMembersAll(regions, init);
      assert MembersWritten(regions, g.cells) == |g.cells|;
      assert g.cells[..|g.cells|] == g.cells;
      assert VolumeMembersWritten(regions, gs) == w0 + g.cells;
      ShiftMembersAppend(w0, g.cells);
      assert AllMembers(gs) == AllMembers(init) + ShiftMembers(g.cells);
    }
  }

  /**
   * The volume chunks written carry, volume after volume, the members
   * written shifted by 1, each with its region's Lima type; when no
   * volume raises the cell-type exception, that is every member of
   * every volume.
   */
  lemma VolumeStreamIds(regions: seq<Cell>, gs: seq<Group>)
    ensures var w := VolumeMembersWritten(regions, gs[..VolumesReached(regions, gs)]);
      && Flatten(MapSeq(DataIds, VolumeStream(regions, gs)[1..])) == ShiftMembers(w)
      && Somes(Flatten(MapSeq(DataTypes, VolumeStream(regions, gs)[1..]))) == MemberTypes(regions, w)
    ensures VolumeError(regions, gs).None? ==> Flatten(MapSeq(DataIds, VolumeStream(regions, gs)[1..])) == AllMembers(gs)
  {
    var reached := gs[..VolumesReached(regions, gs)];
    assert VolumeStream(regions, gs)[1..] == VolumeChunks(regions, reached);
    VolumeChunksIds(regions, reached);
    VolumeChunksTypes(regions, reached);
    if VolumeError(regions, gs).None? {
      FirstWhereNone(gs, UnmappedGroup(regions));
      assert reached == gs;
      forall j | 0 <= j < |gs| ensures VolumeMapped(regions, gs[j]) {
        assert !UnmappedGroup(regions)(gs[j]);
      }
      VolumeMembersAll(regions, gs);
    }
  }

  // ----- when write() raises nothing -----

  /**
   * write() raises nothing exactly when every face has at most 15 nodes,
   * every region has a type Lima knows and at most 15 nodes, and every
   * volume member is a region whose type Lima knows.
   */
  lemma ApiWritable(m: Mesh)
    ensures ApiError(m).None? <==>
      (forall j :: 0 <= j < |m.faces| ==> |m.faces[j].nodes| <= MAX_NODES_PER_CELL) &&
      (forall j :: 0 <= j < |m.regions| ==> ApiRegionType(m.regions[j].kind).Some? && |m.regions[j].nodes| <= MAX_NODES_PER_CELL) &&
      (forall j, k :: 0 <= j < |m.volumes| && 0 <= k < |m.volumes[j].cells| ==> MemberType(m.regions, m.volumes[j].cells[k]).Some?)
  {
    FirstWhereNone(m.faces, TooManyNodes);
    FirstWhereNone(m.regions, RegionRejected);
    FirstWhereNone(m.volumes, UnmappedGroup(m.regions));
    forall j | 0 <= j < |m.volumes| {
      VolumeMappedMeans(m.regions, m.volumes[j]);
    }
  }
}
