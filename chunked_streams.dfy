/**
 * What the chunked writer (LimaWriterAPI) emits, as functions of the
 * mesh: for each element kind a header record followed by the data
 * records of its chunks, and for each group kind a header followed by
 * the chunks of every group in turn.  All ids are shifted by +1.
 */
module ChunkedStreams {

  import opened Wrappers
  import opened GmdsMesh
  import opened LimaData
  import opened MaliPP
  import opened Chunking
  import opened IdScan
  import opened Shapes

  const MSG_FACE_TOO_MANY: string := "LimaWriterAPI::writeFaces a face has too many nodes (> 15 == Lima::MAX_NOEUDS)."
  const MSG_REGION_TOO_MANY: string := "LimaWriterAPI::writeRegions a face has too many nodes (> 15 == Lima::MAX_NOEUDS)."
  const MSG_CELL_TYPE: string := "LimaWriterAPI::writeRegions cell type not handled by Lima."

  // ----- nodes -----

  function Xs(c: seq<MeshNode>): (r: seq<real>)
    ensures |r| == |c| && forall k :: 0 <= k < |c| ==> r[k] == c[k].x
  {
    seq(|c|, k requires 0 <= k < |c| => c[k].x)
  }

  function Ys(c: seq<MeshNode>): (r: seq<real>)
    ensures |r| == |c| && forall k :: 0 <= k < |c| ==> r[k] == c[k].y
  {
    seq(|c|, k requires 0 <= k < |c| => c[k].y)
  }

  function Zs(c: seq<MeshNode>): (r: seq<real>)
    ensures |r| == |c| && forall k :: 0 <= k < |c| ==> r[k] == c[k].z
  {
    seq(|c|, k requires 0 <= k < |c| => c[k].z)
  }

  function NodesDataOf(c: seq<MeshNode>): Record
  {
    NodesData(|c|, Xs(c), Ys(c), Zs(c), Shift(NodeIds(c)))
  }

  /** The header writeNodes starts with: contiguity, count and first Lima id of the nodes. */
  function NodeHeader(nodes: seq<MeshNode>): Record
  {
    var ids := NodeIds(nodes);
    NodesInfo(Contiguous(ids), |nodes|, HeaderMinID(ids))
  }

  function NodeStream(nodes: seq<MeshNode>): seq<Record>
  {
    [NodeHeader(nodes)] + MapSeq(NodesDataOf, Chunks(nodes))
  }

  /** Past the header, the node stream is its chunks. */
  lemma NodeStreamTail(nodes: seq<MeshNode>)
    ensures NodeStream(nodes)[1..] == MapSeq(NodesDataOf, Chunks(nodes))
  {
  }

  // ----- edges -----

  /** End `side` (0 or 1) of an edge, as the shifted node id Lima stores. */
  function EdgeEnd(e: MeshEdge, side: nat): int
  {
    if side == 0 then e.n1 + 1 else e.n2 + 1
  }

  /** edge2nodeIDs: slot j holds end j % 2 of edge j / 2, so each edge's two ends sit side by side. */
  function EdgeNodePairs(c: seq<MeshEdge>): (r: seq<int>)
    ensures |r| == 2 * |c|
  {
    seq(2 * |c|, j requires 0 <= j < 2 * |c| => EdgeEnd(c[j / 2], j % 2))
  }

  /** Slots 2k and 2k+1 of edge2nodeIDs hold the shifted end nodes of edge k. */
  lemma EdgeNodePairsLayout(c: seq<MeshEdge>)
    ensures forall k :: 0 <= k < |c| ==>
      EdgeNodePairs(c)[2 * k] == c[k].n1 + 1 && EdgeNodePairs(c)[2 * k + 1] == c[k].n2 + 1
  {
    forall k | 0 <= k < |c|
      ensures EdgeNodePairs(c)[2 * k] == c[k].n1 + 1 && EdgeNodePairs(c)[2 * k + 1] == c[k].n2 + 1
    {
      assert (2 * k) / 2 == k && (2 * k) % 2 == 0;
      assert (2 * k + 1) / 2 == k && (2 * k + 1) % 2 == 1;
    }
  }

  function EdgesDataOf(c: seq<MeshEdge>): Record
  {
    EdgesData(|c|, EdgeNodePairs(c), Shift(EdgeIds(c)))
  }

  /** The header writeEdges starts with: contiguity, count and first Lima id of the edges. */
  function EdgeHeader(edges: seq<MeshEdge>): Record
  {
    var ids := EdgeIds(edges);
    EdgesInfo(Contiguous(ids), |edges|, HeaderMinID(ids))
  }

  function EdgeStream(edges: seq<MeshEdge>): seq<Record>
  {
    [EdgeHeader(edges)] + MapSeq(EdgesDataOf, Chunks(edges))
  }

  /** Past the header, the edge stream is its chunks. */
  lemma EdgeStreamTail(edges: seq<MeshEdge>)
    ensures EdgeStream(edges)[1..] == MapSeq(EdgesDataOf, Chunks(edges))
  {
  }

  // ----- faces -----

  /** The flattened, variable-stride connectivity array: every cell's shifted node ids in turn. */
  function FlatConn(c: seq<Cell>): seq<int>
  {
    if |c| == 0 then [] else FlatConn(c[..|c| - 1]) + Shift(c[|c| - 1].nodes)
  }

  lemma FlatConnSnoc(c: seq<Cell>, x: Cell)
    ensures FlatConn(c + [x]) == FlatConn(c) + Shift(x.nodes)
  {
    assert (c + [x])[..|c|] == c;
  }

  function NodeCounts(c: seq<Cell>): (r: seq<nat>)
    ensures |r| == |c| && forall k :: 0 <= k < |c| ==> r[k] == |c[k].nodes|
  {
    seq(|c|, k requires 0 <= k < |c| => |c[k].nodes|)
  }

  function Sum(s: seq<nat>): nat
  {
    if |s| == 0 then 0 else Sum(s[..|s| - 1]) + s[|s| - 1]
  }

  function FacesDataOf(c: seq<Cell>): Record
  {
    FacesData(|c|, FlatConn(c), NodeCounts(c), Shift(CellIds(c)))
  }

  predicate TooManyNodes(c: Cell)
  {
    |c.nodes| > MAX_NODES_PER_CELL
  }

  /** The position of the first element satisfying p, or |s| when there is none. */
  function FirstWhere<T>(s: seq<T>, p: T -> bool): (k: nat)
    ensures k <= |s|
    ensures forall j :: 0 <= j < k ==> !p(s[j])
    ensures k < |s| ==> p(s[k])
  {
    if |s| == 0 then 0
    else if p(s[0]) then 0
    else 1 + FirstWhere(s[1..], p)
  }

  /** FirstWhere is the one position where p first holds. */
  lemma FirstWhereAt<T>(s: seq<T>, p: T -> bool, i: nat)
    requires i <= |s| && forall j :: 0 <= j < i ==> !p(s[j])
    requires i < |s| ==> p(s[i])
    ensures FirstWhere(s, p) == i
  {
    if |s| > 0 && !p(s[0]) {
      FirstWhereAt(s[1..], p, i - 1);
    }
  }

  /** No element satisfies p exactly when the search runs to the end. */
  lemma FirstWhereNone<T>(s: seq<T>, p: T -> bool)
    ensures FirstWhere(s, p) == |s| <==> forall j :: 0 <= j < |s| ==> !p(s[j])
  {
    if forall j :: 0 <= j < |s| ==> !p(s[j]) {
      FirstWhereAt(s, p, |s|);
    }
  }

  function FaceHeader(faces: seq<Cell>): Record
  {
    var ids := CellIds(faces);
    FacesInfo(Contiguous(ids), |faces|, HeaderMinID(ids))
  }

  /** The exception writeFaces ends with: none, or the one for the first face with more than 15 nodes. */
  function FaceError(faces: seq<Cell>): Option<string>
  {
    if FirstWhere(faces, TooManyNodes) == |faces| then None else Some(MSG_FACE_TOO_MANY)
  }

  /** How many faces reach the file: all of them, or those of the chunks completed before the first oversized face. */
  function FacesFlushed(faces: seq<Cell>): (n: nat)
    ensures n <= |faces|
  {
    var b := FirstWhere(faces, TooManyNodes);
    if b == |faces| then b else b - b % CHUNK
  }

  /** An oversized face at i, after i faces that fit, decides both the error and how many faces were flushed. */
  lemma FaceErrorAt(faces: seq<Cell>, i: nat, done: nat)
    requires i < |faces| && TooManyNodes(faces[i]) && forall j :: 0 <= j < i ==> !TooManyNodes(faces[j])
    requires done % CHUNK == 0 && done <= i < done + CHUNK
    ensures FaceError(faces) == Some(MSG_FACE_TOO_MANY) && FacesFlushed(faces) == done
  {
    FirstWhereAt(faces, TooManyNodes, i);
    RoundDown(done, i - done);
  }

  lemma FaceSuccess(faces: seq<Cell>)
    requires forall j :: 0 <= j < |faces| ==> !TooManyNodes(faces[j])
    ensures FaceError(faces) == None && FacesFlushed(faces) == |faces|
  {
    FirstWhereAt(faces, TooManyNodes, |faces|);
  }

  /** The header and the chunks of the first n faces. */
  function FaceStreamUpTo(faces: seq<Cell>, n: nat): seq<Record>
    requires n <= |faces|
  {
    [FaceHeader(faces)] + MapSeq(FacesDataOf, Chunks(faces[..n]))
  }

  /** Past the header, the face stream is its chunks. */
  lemma FaceStreamTail(faces: seq<Cell>, n: nat)
    requires n <= |faces|
    ensures FaceStreamUpTo(faces, n)[1..] == MapSeq(FacesDataOf, Chunks(faces[..n]))
  {
  }

  // ----- regions -----

  predicate RegionRejected(c: Cell)
  {
    ApiRegionType(c.kind).None? || |c.nodes| > MAX_NODES_PER_CELL
  }

  /** The message of the exception a rejected region raises: its type is checked first. */
  function RegionRejection(c: Cell): string
  {
    if ApiRegionType(c.kind).None? then MSG_CELL_TYPE else MSG_REGION_TOO_MANY
  }

  /** A region whose type Lima accepts, with that Lima type. */
  datatype RegionEntry = RegionEntry(cell: Cell, ptype: PolyedreType)

  function RegionEntries(rs: seq<Cell>): (es: seq<RegionEntry>)
    requires forall k :: 0 <= k < |rs| ==> ApiRegionType(rs[k].kind).Some?
    ensures |es| == |rs|
    ensures forall k :: 0 <= k < |rs| ==> es[k].cell == rs[k] && Some(es[k].ptype) == ApiRegionType(rs[k].kind)
  {
    seq(|rs|, k requires 0 <= k < |rs| => RegionEntry(rs[k], ApiRegionType(rs[k].kind).value))
  }

  function EntryCells(es: seq<RegionEntry>): (r: seq<Cell>)
    ensures |r| == |es| && forall k :: 0 <= k < |es| ==> r[k] == es[k].cell
  {
    seq(|es|, k requires 0 <= k < |es| => es[k].cell)
  }

  function EntryTypes(es: seq<RegionEntry>): (r: seq<PolyedreType>)
    ensures |r| == |es| && forall k :: 0 <= k < |es| ==> r[k] == es[k].ptype
  {
    seq(|es|, k requires 0 <= k < |es| => es[k].ptype)
  }

  function RegionsDataOf(es: seq<RegionEntry>): Record
  {
    var cs := EntryCells(es);
    RegionsData(|es|, FlatConn(cs), EntryTypes(es), Shift(CellIds(cs)))
  }

  function RegionHeader(regions: seq<Cell>): Record
  {
    var ids := CellIds(regions);
    RegionsInfo(Contiguous(ids), |regions|, HeaderMinID(ids))
  }

  /** The entries of a prefix of regions split at lo into those before lo and those from lo on. */
  lemma RegionEntriesSplit(rs: seq<Cell>, lo: nat, hi: nat)
    requires lo <= hi <= |rs| && forall k :: 0 <= k < hi ==> ApiRegionType(rs[k].kind).Some?
    ensures RegionEntries(rs[..hi]) == RegionEntries(rs[..lo]) + RegionEntries(rs[lo..hi])
  {
    var whole, left, right := RegionEntries(rs[..hi]), RegionEntries(rs[..lo]), RegionEntries(rs[lo..hi]);
    forall k | 0 <= k < hi
      ensures whole[k] == (left + right)[k]
    {
      if k < lo {
        assert whole[k].cell == rs[k] == left[k].cell;
      } else {
        assert whole[k].cell == rs[k] == right[k - lo].cell;
      }
    }
  }

  /** The entries of regions lo..hi+1 are those of lo..hi followed by region hi with its Lima type. */
  lemma RegionEntriesSnoc(rs: seq<Cell>, lo: nat, hi: nat, t: PolyedreType)
    requires lo <= hi < |rs| && forall k :: lo <= k < hi ==> ApiRegionType(rs[k].kind).Some?
    requires ApiRegionType(rs[hi].kind) == Some(t)
    ensures RegionEntries(rs[lo..hi + 1]) == RegionEntries(rs[lo..hi]) + [RegionEntry(rs[hi], t)]
  {
    var grown, entries := RegionEntries(rs[lo..hi + 1]), RegionEntries(rs[lo..hi]);
    forall k | 0 <= k < hi - lo
      ensures grown[k] == entries[k]
    {
      assert grown[k].cell == rs[lo + k] == entries[k].cell;
    }
    assert grown[hi - lo].cell == rs[hi];
  }

  /** The exception writeRegions ends with: none, or the one for the first region it rejects. */
  function RegionError(regions: seq<Cell>): Option<string>
  {
    var b := FirstWhere(regions, RegionRejected);
    if b == |regions| then None else Some(RegionRejection(regions[b]))
  }

  /** How many regions reach the file: all of them, or those of the chunks completed before the first rejected one. */
  function RegionsFlushed(regions: seq<Cell>): (n: nat)
    ensures n <= |regions|
    ensures forall k :: 0 <= k < n ==> !RegionRejected(regions[k])
  {
    var b := FirstWhere(regions, RegionRejected);
    if b == |regions| then b else b - b % CHUNK
  }

  /** A rejected region at i, after i accepted ones, decides both the error and how many regions were flushed. */
  lemma RegionErrorAt(regions: seq<Cell>, i: nat, done: nat)
    requires i < |regions| && RegionRejected(regions[i]) && forall j :: 0 <= j < i ==> !RegionRejected(regions[j])
    requires done % CHUNK == 0 && done <= i < done + CHUNK
    ensures RegionError(regions) == Some(RegionRejection(regions[i])) && RegionsFlushed(regions) == done
  {
    FirstWhereAt(regions, RegionRejected, i);
    RoundDown(done, i - done);
  }

  lemma RegionSuccess(regions: seq<Cell>)
    requires forall j :: 0 <= j < |regions| ==> !RegionRejected(regions[j])
    ensures RegionError(regions) == None && RegionsFlushed(regions) == |regions|
  {
    FirstWhereAt(regions, RegionRejected, |regions|);
  }

  /** The header and the chunks of the first n regions, all of which Lima accepts. */
  function RegionStreamUpTo(regions: seq<Cell>, n: nat): seq<Record>
    requires n <= |regions| && forall k :: 0 <= k < n ==> ApiRegionType(regions[k].kind).Some?
  {
    [RegionHeader(regions)] + MapSeq(RegionsDataOf, Chunks(RegionEntries(regions[..n])))
  }

  /** Past the header, the region stream is its chunks. */
  lemma RegionStreamTail(regions: seq<Cell>, n: nat)
    requires n <= |regions| && forall k :: 0 <= k < n ==> ApiRegionType(regions[k].kind).Some?
    ensures RegionStreamUpTo(regions, n)[1..] == MapSeq(RegionsDataOf, Chunks(RegionEntries(regions[..n])))
  {
  }

  // ----- groups -----

  function Names(gs: seq<Group>): (r: seq<string>)
    ensures |r| == |gs| && forall k :: 0 <= k < |gs| ==> r[k] == gs[k].name
  {
    seq(|gs|, k requires 0 <= k < |gs| => gs[k].name)
  }

  function Sizes(gs: seq<Group>): (r: seq<nat>)
    ensures |r| == |gs| && forall k :: 0 <= k < |gs| ==> r[k] == |gs[k].cells|
  {
    seq(|gs|, k requires 0 <= k < |gs| => |gs[k].cells|)
  }

  function NodeSetEncoder(name: string): seq<int> -> Record
  {
    c => NodeSetData(name, |c|, c)
  }

  function EdgeSetEncoder(name: string): seq<int> -> Record
  {
    c => EdgeSetData(name, |c|, c)
  }

  /** The data chunks of every cloud in turn, each cloud's members shifted and chunked on their own. */
  function CloudChunks(gs: seq<Group>): seq<Record>
  {
    if |gs| == 0 then []
    else
      var g := gs[|gs| - 1];
      CloudChunks(gs[..|gs| - 1]) + MapSeq(NodeSetEncoder(g.name), Chunks(ShiftMembers(g.cells)))
  }

  function LineChunks(gs: seq<Group>): seq<Record>
  {
    if |gs| == 0 then []
    else
      var g := gs[|gs| - 1];
      LineChunks(gs[..|gs| - 1]) + MapSeq(EdgeSetEncoder(g.name), Chunks(ShiftMembers(g.cells)))
  }

  lemma CloudChunksSnoc(gs: seq<Group>, i: nat)
    requires i < |gs|
    ensures CloudChunks(gs[..i + 1]) == CloudChunks(gs[..i]) + MapSeq(NodeSetEncoder(gs[i].name), Chunks(ShiftMembers(gs[i].cells)))
  {
    assert gs[..i + 1][..i] == gs[..i];
  }

  lemma LineChunksSnoc(gs: seq<Group>, i: nat)
    requires i < |gs|
    ensures LineChunks(gs[..i + 1]) == LineChunks(gs[..i]) + MapSeq(EdgeSetEncoder(gs[i].name), Chunks(ShiftMembers(gs[i].cells)))
  {
    assert gs[..i + 1][..i] == gs[..i];
  }

  function CloudStream(gs: seq<Group>): seq<Record>
  {
    [NodeSetInfo(|gs|, Names(gs), Sizes(gs))] + CloudChunks(gs)
  }

  function LineStream(gs: seq<Group>): seq<Record>
  {
    [EdgeSetInfo(|gs|, Names(gs), Sizes(gs))] + LineChunks(gs)
  }

  /** A surface member as written: its Lima id and its face's node count. */
  datatype FaceSetEntry = FaceSetEntry(id: int, nbNodes: nat)

  /** The node count of the face with the given id (0 when there is none). */
  function FaceNodeCount(faces: seq<Cell>, x: int): (n: nat)
    ensures x in CellIds(faces) ==> n == |FindCell(faces, x).value.nodes|
  {
    match FindCell(faces, x)
    case None => 0
    case Some(f) => |f.nodes|
  }

  function SurfaceEntries(faces: seq<Cell>, cells: seq<int>): (es: seq<FaceSetEntry>)
    ensures |es| == |cells|
    ensures forall k :: 0 <= k < |cells| ==> es[k] == FaceSetEntry(cells[k] + 1, FaceNodeCount(faces, cells[k]))
  {
    seq(|cells|, k requires 0 <= k < |cells| => FaceSetEntry(cells[k] + 1, FaceNodeCount(faces, cells[k])))
  }

  function EntryIds(es: seq<FaceSetEntry>): (r: seq<int>)
    ensures |r| == |es| && forall k :: 0 <= k < |es| ==> r[k] == es[k].id
  {
    seq(|es|, k requires 0 <= k < |es| => es[k].id)
  }

  function EntryCounts(es: seq<FaceSetEntry>): (r: seq<nat>)
    ensures |r| == |es| && forall k :: 0 <= k < |es| ==> r[k] == es[k].nbNodes
  {
    seq(|es|, k requires 0 <= k < |es| => es[k].nbNodes)
  }

  function FaceSetEncoder(name: string): seq<FaceSetEntry> -> Record
  {
    (es: seq<FaceSetEntry>) => FaceSetData(name, |es|, EntryIds(es), EntryCounts(es))
  }

  function SurfaceChunks(faces: seq<Cell>, gs: seq<Group>): seq<Record>
  {
    if |gs| == 0 then []
    else
      var g := gs[|gs| - 1];
      SurfaceChunks(faces, gs[..|gs| - 1]) + MapSeq(FaceSetEncoder(g.name), Chunks(SurfaceEntries(faces, g.cells)))
  }

  lemma SurfaceChunksSnoc(faces: seq<Cell>, gs: seq<Group>, i: nat)
    requires i < |gs|
    ensures SurfaceChunks(faces, gs[..i + 1])
         == SurfaceChunks(faces, gs[..i]) + MapSeq(FaceSetEncoder(gs[i].name), Chunks(SurfaceEntries(faces, gs[i].cells)))
  {
    assert gs[..i + 1][..i] == gs[..i];
  }

  function SurfaceStream(faces: seq<Cell>, gs: seq<Group>): seq<Record>
  {
    [FaceSetInfo(|gs|, Names(gs), Sizes(gs))] + SurfaceChunks(faces, gs)
  }

  /** A volume member as written: its Lima id and its region's Lima type. */
  datatype RegionSetEntry = RegionSetEntry(id: int, ptype: PolyedreType)

  /** The Lima type of the region with the given id: None when there is no such region or Lima has no such type. */
  function MemberType(regions: seq<Cell>, x: int): (t: Option<PolyedreType>)
    ensures t.Some? ==> x in CellIds(regions) && t == ApiRegionType(FindCell(regions, x).value.kind)
  {
    match FindCell(regions, x)
    case None => None
    case Some(r) => ApiRegionType(r.kind)
  }

  /** Whether a volume member stops writeVolumes. */
  function UnmappedIn(regions: seq<Cell>): int -> bool
  {
    x => MemberType(regions, x).None?
  }

  function VolumeEntries(regions: seq<Cell>, cells: seq<int>): (es: seq<RegionSetEntry>)
    requires forall k :: 0 <= k < |cells| ==> MemberType(regions, cells[k]).Some?
    ensures |es| == |cells|
    ensures forall k :: 0 <= k < |cells| ==> es[k].id == cells[k] + 1 && Some(es[k].ptype) == MemberType(regions, cells[k])
  {
    seq(|cells|, k requires 0 <= k < |cells| => RegionSetEntry(cells[k] + 1, MemberType(regions, cells[k]).value))
  }

  /** The entries of the members before the first one whose region Lima cannot type. */
  function MappedEntries(regions: seq<Cell>, cells: seq<int>): (es: seq<RegionSetEntry>)
    ensures |es| == FirstWhere(cells, UnmappedIn(regions))
  {
    VolumeEntries(regions, cells[..FirstWhere(cells, UnmappedIn(regions))])
  }

  /** How many members of a volume reach the file: all, or those of the chunks completed before the first unmapped one. */
  function MembersWritten(regions: seq<Cell>, cells: seq<int>): (n: nat)
    ensures n <= FirstWhere(cells, UnmappedIn(regions))
  {
    var b := FirstWhere(cells, UnmappedIn(regions));
    if b == |cells| then b else b - b % CHUNK
  }

  function SetIds(es: seq<RegionSetEntry>): (r: seq<int>)
    ensures |r| == |es| && forall k :: 0 <= k < |es| ==> r[k] == es[k].id
  {
    seq(|es|, k requires 0 <= k < |es| => es[k].id)
  }

  function SetTypes(es: seq<RegionSetEntry>): (r: seq<PolyedreType>)
    ensures |r| == |es| && forall k :: 0 <= k < |es| ==> r[k] == es[k].ptype
  {
    seq(|es|, k requires 0 <= k < |es| => es[k].ptype)
  }

  function RegionSetEncoder(name: string): seq<RegionSetEntry> -> Record
  {
    (es: seq<RegionSetEntry>) => RegionSetData(name, |es|, SetIds(es), SetTypes(es))
  }

  /** No member of the volume stops writeVolumes. */
  predicate VolumeMapped(regions: seq<Cell>, g: Group)
  {
    FirstWhere(g.cells, UnmappedIn(regions)) == |g.cells|
  }

  /** A volume is mapped exactly when every member names a region whose type Lima accepts. */
  lemma VolumeMappedMeans(regions: seq<Cell>, g: Group)
    ensures VolumeMapped(regions, g) <==> forall k :: 0 <= k < |g.cells| ==> MemberType(regions, g.cells[k]).Some?
  {
    var b := FirstWhere(g.cells, UnmappedIn(regions));
    if b < |g.cells| {
      assert UnmappedIn(regions)(g.cells[b]);
    } else {
      forall k | 0 <= k < |g.cells|
        ensures MemberType(regions, g.cells[k]).Some?
      {
        assert !UnmappedIn(regions)(g.cells[k]);
      }
    }
  }

  /** An unmapped member at i, after i mapped ones, decides how many members were written. */
  lemma MemberErrorAt(regions: seq<Cell>, cells: seq<int>, i: nat, done: nat)
    requires i < |cells| && MemberType(regions, cells[i]).None?
    requires forall j :: 0 <= j < i ==> MemberType(regions, cells[j]).Some?
    requires done % CHUNK == 0 && done <= i < done + CHUNK
    ensures FirstWhere(cells, UnmappedIn(regions)) == i && MembersWritten(regions, cells) == done
  {
    FirstWhereAt(cells, UnmappedIn(regions), i);
    RoundDown(done, i - done);
  }

  /** The data chunks one volume produces: all its members when they are all mapped. */
  function VolumeGroupChunks(regions: seq<Cell>, g: Group): seq<Record>
  {
    MapSeq(RegionSetEncoder(g.name), Chunks(MappedEntries(regions, g.cells)[..MembersWritten(regions, g.cells)]))
  }

  function VolumeChunks(regions: seq<Cell>, gs: seq<Group>): seq<Record>
  {
    if |gs| == 0 then []
    else VolumeChunks(regions, gs[..|gs| - 1]) + VolumeGroupChunks(regions, gs[|gs| - 1])
  }

  /** Whether a volume stops writeVolumes. */
  function UnmappedGroup(regions: seq<Cell>): Group -> bool
  {
    g => !VolumeMapped(regions, g)
  }

  /** The exception writeVolumes ends with: none, or the one for the first member whose region Lima cannot type. */
  function VolumeError(regions: seq<Cell>, gs: seq<Group>): Option<string>
  {
    if FirstWhere(gs, UnmappedGroup(regions)) == |gs| then None else Some(MSG_CELL_TYPE)
  }

  /** How many volumes produce data chunks: all, or those up to and including the first unmapped one. */
  function VolumesReached(regions: seq<Cell>, gs: seq<Group>): (n: nat)
    ensures n <= |gs|
  {
    var b := FirstWhere(gs, UnmappedGroup(regions));
    if b == |gs| then b else b + 1
  }

  lemma VolumeChunksSnoc(regions: seq<Cell>, gs: seq<Group>, i: nat)
    requires i < |gs|
    ensures VolumeChunks(regions, gs[..i + 1]) == VolumeChunks(regions, gs[..i]) + VolumeGroupChunks(regions, gs[i])
  {
    assert gs[..i + 1][..i] == gs[..i];
  }

  /** An unmapped volume at i, after i mapped ones, ends writeVolumes after its own chunks. */
  lemma VolumeErrorAt(regions: seq<Cell>, gs: seq<Group>, i: nat)
    requires i < |gs| && !VolumeMapped(regions, gs[i]) && forall j :: 0 <= j < i ==> VolumeMapped(regions, gs[j])
    ensures VolumeError(regions, gs) == Some(MSG_CELL_TYPE) && VolumesReached(regions, gs) == i + 1
  {
    FirstWhereAt(gs, UnmappedGroup(regions), i);
  }

  lemma VolumeSuccess(regions: seq<Cell>, gs: seq<Group>)
    requires forall j :: 0 <= j < |gs| ==> VolumeMapped(regions, gs[j])
    ensures VolumeError(regions, gs) == None && VolumesReached(regions, gs) == |gs|
  {
    FirstWhereAt(gs, UnmappedGroup(regions), |gs|);
  }

  function VolumeStream(regions: seq<Cell>, gs: seq<Group>): seq<Record>
  {
    [RegionSetInfo(|gs|, Names(gs), Sizes(gs))] + VolumeChunks(regions, gs[..VolumesReached(regions, gs)])
  }
}
