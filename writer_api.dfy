/**
 * gmds::LimaWriterAPI: writes a GMDS mesh through the chunked Lima writer.
 * Every element kind is announced by a header (contiguity of the ids,
 * count, smallest id + 1) and then sent in chunks of at most CHUNK
 * elements, ids shifted by +1; faces and regions carry at most 15 nodes.
 */
module WriterApi {

  import opened Wrappers
  import opened GmdsMesh
  import opened LimaData
  import opened MaliPP
  import opened Chunking
  import opened IdScan
  import opened Shapes
  import opened ChunkedStreams
  import opened ApiStream

  /** A header emitted and then a run of chunks leave the header-then-chunks stream after what was there. */
  lemma AppendAfter(before: seq<Record>, header: Record, chunks: seq<Record>, after: seq<Record>)
    requires after == (before + [header]) + chunks
    ensures after == before + ([header] + chunks)
  {
  }

  class LimaWriterAPI {
    const mesh: Mesh
    var lengthUnit: real
    var writer: MaliPPWriter2?

    constructor (mesh: Mesh)
      ensures this.mesh == mesh && lengthUnit == 1.0 && writer == null
    {
      this.mesh := mesh;
      lengthUnit := 1.0;
      writer := null;
    }

    method SetLengthUnit(unit: real)
      modifies this
      ensures lengthUnit == unit && writer == old(writer)
    {
      lengthUnit := unit;
    }

    /**
     * write: opens a fresh Lima writer on fileName, sends the length unit,
     * the dimension and beginWrite, then every stream in turn, the eight
     * attribute requests and close.  An exception from writeFaces,
     * writeRegions or writeVolumes ends the write where it is raised, with
     * the writer left open.  The mesh model and the compression flag are
     * not used.
     */
    method Write(fileName: string, model: MeshModel, compact: int) returns (err: Option<string>)
      requires forall g <- mesh.surfaces :: GroupOver(g, CellIds(mesh.faces))
      modifies this
      ensures writer != null && fresh(writer) && writer.fileName == fileName && lengthUnit == old(lengthUnit)
      ensures err == ApiError(mesh)
      ensures writer.records == ApiRecords(mesh, lengthUnit)
    {
      var w := new MaliPPWriter2(fileName);
      writer := w;
      err := WriteAll(w, mesh, lengthUnit);
    }

    /** The body of write once the Lima writer is open. */
    static method WriteAll(w: MaliPPWriter2, m: Mesh, unit: real) returns (err: Option<string>)
      requires forall g <- m.surfaces :: GroupOver(g, CellIds(m.faces))
      modifies w
      ensures err == ApiError(m)
      ensures w.records == old(w.records) + ApiRecords(m, unit)
    {
      ghost var before := w.records;
      WritePreamble(w, unit, m.dim);
      err := WriteSolids(w, m);
      Append2(before, Preamble(unit, m.dim), SolidRecords(m));
      if err.Some? {
        ApiRecordsSolidError(m, unit);
        return;
      }
      ghost var solid := w.records;
      err := WriteGroups(w, m);
      if err.Some? {
        ApiRecordsVolumeError(m, unit);
        Append2(before, Preamble(unit, m.dim) + SolidRecords(m), GroupRecords(m));
        return;
      }
      ghost var grouped := w.records;
      WriteAttributes(w);
      w.Emit(Close);
      ApiRecordsComplete(m, unit);
      Append3(before, Preamble(unit, m.dim) + SolidRecords(m), GroupRecords(m), AttributeRecords());
      Append2(before, Preamble(unit, m.dim) + SolidRecords(m) + GroupRecords(m) + AttributeRecords(), [Close]);
    }

    /** The length unit, the dimension and beginWrite. */
    static method WritePreamble(w: MaliPPWriter2, unit: real, dim: nat)
      modifies w
      ensures w.records == old(w.records) + Preamble(unit, dim)
    {
      w.Emit(LengthUnit(unit));
      w.Emit(Dimension(LimaDimension(dim)));
      w.Emit(BeginWrite);
    }

    /** writeNodes, writeEdges, writeFaces and, when no face was rejected, writeRegions. */
    static method WriteSolids(w: MaliPPWriter2, m: Mesh) returns (err: Option<string>)
      modifies w
      ensures err == SolidError(m)
      ensures w.records == old(w.records) + SolidRecords(m)
    {
      ghost var before := w.records;
      WriteNodesTo(w, m.nodes);
      WriteEdgesTo(w, m.edges);
      err := WriteFacesTo(w, m.faces);
      Append3(before, NodeStream(m.nodes), EdgeStream(m.edges), FaceStreamUpTo(m.faces, FacesFlushed(m.faces)));
      if err.None? {
        err := WriteRegionsTo(w, m.regions);
        Append2(before, CellRecords(m), RegionStreamUpTo(m.regions, RegionsFlushed(m.regions)));
      } else {
        assert CellRecords(m) + [] == CellRecords(m);
      }
    }

    /** writeClouds, writeLines, writeSurfaces and writeVolumes. */
    static method WriteGroups(w: MaliPPWriter2, m: Mesh) returns (err: Option<string>)
      requires forall g <- m.surfaces :: GroupOver(g, CellIds(m.faces))
      modifies w
      ensures err == VolumeError(m.regions, m.volumes)
      ensures w.records == old(w.records) + GroupRecords(m)
    {
      ghost var before := w.records;
      WriteCloudsTo(w, m.clouds);
      WriteLinesTo(w, m.lines);
      WriteSurfacesTo(w, m.faces, m.surfaces);
      err := WriteVolumesTo(w, m.regions, m.volumes);
      Append4(before, CloudStream(m.clouds), LineStream(m.lines), SurfaceStream(m.faces, m.surfaces),
              VolumeStream(m.regions, m.volumes));
    }

    /** The eight attribute requests, nodes to volumes. */
    static method WriteAttributes(w: MaliPPWriter2)
      modifies w
      ensures w.records == old(w.records) + AttributeRecords()
    {
      w.Emit(Attributes(NodeAttrs));
      w.Emit(Attributes(EdgeAttrs));
      w.Emit(Attributes(FaceAttrs));
      w.Emit(Attributes(RegionAttrs));
      w.Emit(Attributes(NodeSetAttrs));
      w.Emit(Attributes(EdgeSetAttrs));
      w.Emit(Attributes(FaceSetAttrs));
      w.Emit(Attributes(RegionSetAttrs));
    }

    /** writeNodes: the node header, then the coordinates and shifted ids of every node, chunk by chunk. */
    method WriteNodes()
      requires writer != null
      modifies writer
      ensures writer.records == old(writer.records) + NodeStream(mesh.nodes)
    {
      WriteNodesTo(writer, mesh.nodes);
    }

    static method WriteNodesTo(w: MaliPPWriter2, nodes: seq<MeshNode>)
      modifies w
      ensures w.records == old(w.records) + NodeStream(nodes)
    {
      ghost var before := w.records;
      var header := ScanNodes(nodes);
      w.Emit(header);
      StreamNodes(w, nodes);
      AppendAfter(before, header, MapSeq(NodesDataOf, Chunks(nodes)), w.records);
    }

    /** The contiguity scan of writeNodes, packed into its header. */
    static method ScanNodes(nodes: seq<MeshNode>) returns (header: Record)
      ensures header == NodeHeader(nodes)
    {
      var isContiguous, minID := ScanContiguity(NodeIds(nodes));
      header := NodesInfo(isContiguous, |nodes|, minID);
    }

    /** The chunk loop of writeNodes. */
    static method StreamNodes(w: MaliPPWriter2, nodes: seq<MeshNode>)
      modifies w
      ensures w.records == old(w.records) + MapSeq(NodesDataOf, Chunks(nodes))
    {
      ghost var base := w.records;

      var xs := new real[CHUNK];
      var ys := new real[CHUNK];
      var zs := new real[CHUNK];
      var ids := new int[CHUNK];
      var chunkSize := 0;
      var i := 0;
      var done := 0;
      ghost var pending: seq<MeshNode> := [];
      while i < |nodes|
        invariant done % CHUNK == 0 && 0 <= chunkSize < CHUNK && i == done + chunkSize <= |nodes|
        invariant pending == nodes[done..i]
        invariant NodeBuffers(xs, ys, zs, ids, pending)
        invariant w.records == base + MapSeq(NodesDataOf, Chunks(nodes[..done]))
      {
        PutNode(xs, ys, zs, ids, chunkSize, nodes[i], pending);
        SliceSnoc(nodes, done, i);
        pending := pending + [nodes[i]];
        chunkSize := chunkSize + 1;
        i := i + 1;
        if chunkSize == CHUNK {
          FlushNodes(w, xs, ys, zs, ids, chunkSize, nodes, done, pending, base);
          NextBoundary(done);
          chunkSize := 0;
          done := i;
          pending := [];
        }
      }
      if chunkSize > 0 {
        FlushNodes(w, xs, ys, zs, ids, chunkSize, nodes, done, pending, base);
      }
      assert nodes[..i] == nodes;
    }

    /** The first |pending| slots of the buffers hold the pending nodes. */
    static ghost predicate NodeBuffers(xs: array<real>, ys: array<real>, zs: array<real>, ids: array<int>,
                                       pending: seq<MeshNode>)
      reads xs, ys, zs, ids
    {
      && |pending| <= xs.Length && |pending| <= ys.Length && |pending| <= zs.Length && |pending| <= ids.Length
      && xs[..|pending|] == Xs(pending) && ys[..|pending|] == Ys(pending) && zs[..|pending|] == Zs(pending)
      && ids[..|pending|] == Shift(NodeIds(pending))
    }

    /** Stores one node at slot |pending|. */
    static method PutNode(xs: array<real>, ys: array<real>, zs: array<real>, ids: array<int>, slot: nat,
                          n: MeshNode, ghost pending: seq<MeshNode>)
      requires xs != ys && ys != zs && xs != zs && slot == |pending| < CHUNK
      requires xs.Length == CHUNK && ys.Length == CHUNK && zs.Length == CHUNK && ids.Length == CHUNK
      requires NodeBuffers(xs, ys, zs, ids, pending)
      modifies xs, ys, zs, ids
      ensures NodeBuffers(xs, ys, zs, ids, pending + [n])
    {
      xs[slot] := n.x;
      ys[slot] := n.y;
      zs[slot] := n.z;
      ids[slot] := n.id + 1;
      assert xs[..slot + 1] == xs[..slot] + [n.x];
      assert ys[..slot + 1] == ys[..slot] + [n.y];
      assert zs[..slot + 1] == zs[..slot] + [n.z];
      assert ids[..slot + 1] == ids[..slot] + [n.id + 1];
    }

    /** writer_->writeNodes on the first chunkSize slots of the buffers. */
    static method FlushNodes(w: MaliPPWriter2, xs: array<real>, ys: array<real>, zs: array<real>, ids: array<int>,
                             chunkSize: nat, nodes: seq<MeshNode>, ghost done: nat, ghost chunk: seq<MeshNode>,
                             ghost base: seq<Record>)
      requires done % CHUNK == 0 && 0 < chunkSize <= CHUNK && done + chunkSize <= |nodes|
      requires chunk == nodes[done..done + chunkSize]
      requires NodeBuffers(xs, ys, zs, ids, chunk)
      requires w.records == base + MapSeq(NodesDataOf, Chunks(nodes[..done]))
      modifies w
      ensures w.records == base + MapSeq(NodesDataOf, Chunks(nodes[..done + chunkSize]))
    {
      w.Emit(NodesData(chunkSize, xs[..chunkSize], ys[..chunkSize], zs[..chunkSize], ids[..chunkSize]));
      ChunksStep(nodes, done, done + chunkSize);
      MapSeqAppend(NodesDataOf, Chunks(nodes[..done]), [chunk]);
    }

    /** writeEdges: the edge header, then each edge's two shifted node ids and its shifted id, chunk by chunk. */
    method WriteEdges()
      requires writer != null
      modifies writer
      ensures writer.records == old(writer.records) + EdgeStream(mesh.edges)
    {
      WriteEdgesTo(writer, mesh.edges);
    }

    static method WriteEdgesTo(w: MaliPPWriter2, edges: seq<MeshEdge>)
      modifies w
      ensures w.records == old(w.records) + EdgeStream(edges)
    {
      ghost var before := w.records;
      var header := ScanEdges(edges);
      w.Emit(header);
      StreamEdges(w, edges);
      AppendAfter(before, header, MapSeq(EdgesDataOf, Chunks(edges)), w.records);
    }

    /** The contiguity scan of writeEdges, packed into its header. */
    static method ScanEdges(edges: seq<MeshEdge>) returns (header: Record)
      ensures header == EdgeHeader(edges)
    {
      var isContiguous, minID := ScanContiguity(EdgeIds(edges));
      header := EdgesInfo(isContiguous, |edges|, minID);
    }

    /** The chunk loop of writeEdges. */
    static method StreamEdges(w: MaliPPWriter2, edges: seq<MeshEdge>)
      modifies w
      ensures w.records == old(w.records) + MapSeq(EdgesDataOf, Chunks(edges))
    {
      ghost var base := w.records;

      var edge2nodes := new int[2 * CHUNK];
      var ids := new int[CHUNK];
      var chunkSize := 0;
      var i := 0;
      var done := 0;
      ghost var pending: seq<MeshEdge> := [];
      while i < |edges|
        invariant done % CHUNK == 0 && 0 <= chunkSize < CHUNK && i == done + chunkSize <= |edges|
        invariant pending == edges[done..i]
        invariant EdgeBuffers(edge2nodes, ids, pending)
        invariant w.records == base + MapSeq(EdgesDataOf, Chunks(edges[..done]))
      {
        PutEdge(edge2nodes, ids, chunkSize, edges[i], pending);
        SliceSnoc(edges, done, i);
        pending := pending + [edges[i]];
        chunkSize := chunkSize + 1;
        i := i + 1;
        if chunkSize == CHUNK {
          FlushEdges(w, edge2nodes, ids, chunkSize, edges, done, pending, base);
          NextBoundary(done);
          chunkSize := 0;
          done := i;
          pending := [];
        }
      }
      if chunkSize > 0 {
        FlushEdges(w, edge2nodes, ids, chunkSize, edges, done, pending, base);
      }
      assert edges[..i] == edges;
    }

    /** The first |pending| slots of the buffers hold the pending edges as Lima expects them. */
    static ghost predicate EdgeBuffers(edge2nodes: array<int>, ids: array<int>, pending: seq<MeshEdge>)
      reads edge2nodes, ids
    {
      && 2 * |pending| <= edge2nodes.Length && |pending| <= ids.Length
      && edge2nodes[..2 * |pending|] == EdgeNodePairs(pending)
      && ids[..|pending|] == Shift(EdgeIds(pending))
    }

    /** Stores one edge at slot |pending|: its end nodes at 2*slot and 2*slot+1, its id at slot. */
    static method PutEdge(edge2nodes: array<int>, ids: array<int>, slot: nat, e: MeshEdge, ghost pending: seq<MeshEdge>)
      requires edge2nodes != ids && slot == |pending| < CHUNK
      requires edge2nodes.Length == 2 * CHUNK && ids.Length == CHUNK
      requires EdgeBuffers(edge2nodes, ids, pending)
      modifies edge2nodes, ids
      ensures EdgeBuffers(edge2nodes, ids, pending + [e])
    {
      edge2nodes[2 * slot] := e.n1 + 1;
      edge2nodes[2 * slot + 1] := e.n2 + 1;
      ids[slot] := e.id + 1;
      ghost var grown := pending + [e];
      forall j | 0 <= j < 2 * slot + 2
        ensures edge2nodes[j] == EdgeNodePairs(grown)[j]
      {
        if j < 2 * slot {
          assert edge2nodes[j] == EdgeNodePairs(pending)[j];
          assert grown[j / 2] == pending[j / 2];
        }
      }
      assert ids[..slot + 1] == ids[..slot] + [e.id + 1];
    }

    static method FlushEdges(w: MaliPPWriter2, edge2nodes: array<int>, ids: array<int>,
                             chunkSize: nat, edges: seq<MeshEdge>, ghost done: nat, ghost chunk: seq<MeshEdge>,
                             ghost base: seq<Record>)
      requires done % CHUNK == 0 && 0 < chunkSize <= CHUNK && done + chunkSize <= |edges|
      requires chunk == edges[done..done + chunkSize]
      requires EdgeBuffers(edge2nodes, ids, chunk)
      requires w.records == base + MapSeq(EdgesDataOf, Chunks(edges[..done]))
      modifies w
      ensures w.records == base + MapSeq(EdgesDataOf, Chunks(edges[..done + chunkSize]))
    {
      ghost var i := done + chunkSize;
      var pairs := edge2nodes[..2 * chunkSize];
      assert EdgesData(chunkSize, pairs, ids[..chunkSize]) == EdgesDataOf(chunk);
      w.Emit(EdgesData(chunkSize, pairs, ids[..chunkSize]));
      ChunksStep(edges, done, i);
      MapSeqAppend(EdgesDataOf, Chunks(edges[..done]), [chunk]);
    }

    /**
     * writeFaces: the face header, then every face's shifted node ids, node
     * count and shifted id, chunk by chunk.  The first face with more than
     * 15 nodes aborts the write; the chunks flushed before it stay written.
     */
    method WriteFaces() returns (err: Option<string>)
      requires writer != null
      modifies writer
      ensures err == FaceError(mesh.faces)
      ensures writer.records == old(writer.records) + FaceStreamUpTo(mesh.faces, FacesFlushed(mesh.faces))
    {
      err := WriteFacesTo(writer, mesh.faces);
    }

    static method WriteFacesTo(w: MaliPPWriter2, faces: seq<Cell>) returns (err: Option<string>)
      modifies w
      ensures err == FaceError(faces)
      ensures w.records == old(w.records) + FaceStreamUpTo(faces, FacesFlushed(faces))
    {
      ghost var before := w.records;
      var header := ScanFaces(faces);
      w.Emit(header);
      err := StreamFaces(w, faces);
      AppendAfter(before, header, MapSeq(FacesDataOf, Chunks(faces[..FacesFlushed(faces)])), w.records);
    }

    /** The contiguity scan of writeFaces, packed into its header. */
    static method ScanFaces(faces: seq<Cell>) returns (header: Record)
      ensures header == FaceHeader(faces)
    {
      var isContiguous, minID := ScanContiguity(CellIds(faces));
      header := FacesInfo(isContiguous, |faces|, minID);
    }

    /** The chunk loop of writeFaces. */
    static method StreamFaces(w: MaliPPWriter2, faces: seq<Cell>) returns (err: Option<string>)
      modifies w
      ensures err == FaceError(faces)
      ensures w.records == old(w.records) + MapSeq(FacesDataOf, Chunks(faces[..FacesFlushed(faces)]))
    {
      ghost var base := w.records;
      var face2nodes := new int[MAX_NODES_PER_CELL * CHUNK];
      var nbNodesPerFace := new nat[CHUNK];
      var ids := new int[CHUNK];
      var chunkSize: nat := 0;
      var currentIndex: nat := 0;
      var i: nat := 0;
      var done: nat := 0;
      ghost var pending: seq<Cell> := [];
      while i < |faces|
        invariant FaceLoop(w, face2nodes, nbNodesPerFace, ids, chunkSize, currentIndex, faces, i, done, pending, base)
      {
        var f := faces[i];
        if |f.nodes| > MAX_NODES_PER_CELL {
          FaceStop(w, face2nodes, nbNodesPerFace, ids, chunkSize, currentIndex, faces, i, done, pending, base);
          return Some(MSG_FACE_TOO_MANY);
        }
        chunkSize, currentIndex, done, pending := FaceStep(w, face2nodes, nbNodesPerFace, ids, chunkSize, currentIndex, faces, i, done, pending, base);
        i := i + 1;
      }
      FinishFaces(w, face2nodes, nbNodesPerFace, ids, chunkSize, currentIndex, faces, done, pending, base);
      return None;
    }

    /** A face with too many nodes ends the loop: the chunks before its own are all that was written. */
    static lemma FaceStop(w: MaliPPWriter2, face2nodes: array<int>, nbNodes: array<nat>, ids: array<int>,
                          chunkSize: nat, currentIndex: nat, faces: seq<Cell>, i: nat, done: nat,
                          pending: seq<Cell>, base: seq<Record>)
      requires i < |faces| && TooManyNodes(faces[i])
      requires FaceLoop(w, face2nodes, nbNodes, ids, chunkSize, currentIndex, faces, i, done, pending, base)
      ensures FaceError(faces) == Some(MSG_FACE_TOO_MANY)
      ensures w.records == base + MapSeq(FacesDataOf, Chunks(faces[..FacesFlushed(faces)]))
    {
      FaceErrorAt(faces, i, done);
    }

    /** After the last face: flush the partly filled buffer, if any. */
    static method FinishFaces(w: MaliPPWriter2, face2nodes: array<int>, nbNodes: array<nat>, ids: array<int>,
                              chunkSize: nat, currentIndex: nat, faces: seq<Cell>, ghost done: nat,
                              ghost pending: seq<Cell>, ghost base: seq<Record>)
      requires FaceLoop(w, face2nodes, nbNodes, ids, chunkSize, currentIndex, faces, |faces|, done, pending, base)
      modifies w
      ensures FaceError(faces) == None
      ensures w.records == base + MapSeq(FacesDataOf, Chunks(faces[..FacesFlushed(faces)]))
    {
      FaceSuccess(faces);
      if chunkSize > 0 {
        FlushFaces(w, face2nodes, nbNodes, ids, chunkSize, currentIndex, faces, done, pending, base);
      }
    }

    /** The state of the face loop before face i: chunks up to done flushed, faces done..i buffered. */
    static ghost predicate FaceLoop(w: MaliPPWriter2, face2nodes: array<int>, nbNodes: array<nat>, ids: array<int>,
                                    chunkSize: nat, currentIndex: nat, faces: seq<Cell>, i: nat, done: nat,
                                    pending: seq<Cell>, base: seq<Record>)
      reads w, face2nodes, nbNodes, ids
    {
      && face2nodes != ids && face2nodes.Length == MAX_NODES_PER_CELL * CHUNK
      && nbNodes.Length == CHUNK && ids.Length == CHUNK
      && done % CHUNK == 0 && chunkSize < CHUNK && i == done + chunkSize <= |faces|
      && (forall j :: 0 <= j < i ==> !TooManyNodes(faces[j]))
      && pending == faces[done..i]
      && currentIndex <= MAX_NODES_PER_CELL * chunkSize
      && FaceBuffers(face2nodes, nbNodes, ids, pending, currentIndex)
      && w.records == base + MapSeq(FacesDataOf, Chunks(faces[..done]))
    }

    /** One turn of the face loop for a face that fits: buffer it, and flush when the buffer is full. */
    static method FaceStep(w: MaliPPWriter2, face2nodes: array<int>, nbNodes: array<nat>, ids: array<int>,
                           chunkSize: nat, currentIndex: nat, faces: seq<Cell>, i: nat, done: nat,
                           ghost pending: seq<Cell>, ghost base: seq<Record>)
      returns (chunkSize': nat, currentIndex': nat, done': nat, ghost pending': seq<Cell>)
      requires i < |faces| && !TooManyNodes(faces[i])
      requires FaceLoop(w, face2nodes, nbNodes, ids, chunkSize, currentIndex, faces, i, done, pending, base)
      modifies w, face2nodes, nbNodes, ids
      ensures FaceLoop(w, face2nodes, nbNodes, ids, chunkSize', currentIndex', faces, i + 1, done', pending', base)
    {
      var f := faces[i];
      nbNodes[chunkSize] := |f.nodes|;
      assert nbNodes[..chunkSize] == old(nbNodes[..chunkSize]);
      currentIndex' := PutFace(face2nodes, nbNodes, ids, chunkSize, currentIndex, f, pending);
      SliceSnoc(faces, done, i);
      pending' := pending + [f];
      chunkSize' := chunkSize + 1;
      done' := done;
      if chunkSize' == CHUNK {
        FlushFaces(w, face2nodes, nbNodes, ids, chunkSize', currentIndex', faces, done, pending', base);
        NextBoundary(done);
        chunkSize' := 0;
        currentIndex' := 0;
        done' := i + 1;
        pending' := [];
      }
    }

    /** The first |pending| slots (and currentIndex connectivity slots) hold the pending faces. */
    static ghost predicate FaceBuffers(face2nodes: array<int>, nbNodes: array<nat>, ids: array<int>,
                                       pending: seq<Cell>, currentIndex: nat)
      reads face2nodes, nbNodes, ids
    {
      && currentIndex <= face2nodes.Length && |pending| <= nbNodes.Length && |pending| <= ids.Length
      && face2nodes[..currentIndex] == FlatConn(pending)
      && nbNodes[..|pending|] == NodeCounts(pending)
      && ids[..|pending|] == Shift(CellIds(pending))
    }

    /** Stores one face at slot |pending|, its node count already stored; returns the next free connectivity slot. */
    static method PutFace(face2nodes: array<int>, nbNodes: array<nat>, ids: array<int>, slot: nat, currentIndex: nat,
                          f: Cell, ghost pending: seq<Cell>) returns (next: nat)
      requires face2nodes != ids && slot == |pending| < CHUNK && |f.nodes| <= MAX_NODES_PER_CELL
      requires face2nodes.Length == MAX_NODES_PER_CELL * CHUNK && nbNodes.Length == CHUNK && ids.Length == CHUNK
      requires currentIndex <= MAX_NODES_PER_CELL * slot
      requires nbNodes[slot] == |f.nodes|
      requires face2nodes[..currentIndex] == FlatConn(pending)
      requires nbNodes[..slot] == NodeCounts(pending)
      requires ids[..slot] == Shift(CellIds(pending))
      modifies face2nodes, ids
      ensures next == currentIndex + |f.nodes| <= MAX_NODES_PER_CELL * (slot + 1)
      ensures FaceBuffers(face2nodes, nbNodes, ids, pending + [f], next)
    {
      next := PutConnectivity(face2nodes, currentIndex, pending, f);
      ids[slot] := f.id + 1;
      assert ids[..slot + 1] == ids[..slot] + [f.id + 1];
      assert nbNodes[..slot + 1] == nbNodes[..slot] + [|f.nodes|];
    }

    /** Appends the node ids of c, each plus one, after the connectivity of the cells already buffered. */
    static method PutConnectivity(conn: array<int>, currentIndex: nat, ghost cells: seq<Cell>, c: Cell) returns (next: nat)
      requires currentIndex + |c.nodes| <= conn.Length
      requires conn[..currentIndex] == FlatConn(cells)
      modifies conn
      ensures next == currentIndex + |c.nodes|
      ensures conn[..next] == FlatConn(cells + [c])
    {
      next := currentIndex;
      var k := 0;
      while k < |c.nodes|
        invariant 0 <= k <= |c.nodes| && next == currentIndex + k
        invariant conn[..next] == FlatConn(cells) + Shift(c.nodes[..k])
      {
        conn[next] := c.nodes[k] + 1;
        assert conn[..next + 1] == conn[..next] + [c.nodes[k] + 1];
        assert Shift(c.nodes[..k + 1]) == Shift(c.nodes[..k]) + [c.nodes[k] + 1];
        next := next + 1;
        k := k + 1;
      }
      assert c.nodes[..k] == c.nodes;
      FlatConnSnoc(cells, c);
    }

    static method FlushFaces(w: MaliPPWriter2, face2nodes: array<int>, nbNodes: array<nat>, ids: array<int>,
                             chunkSize: nat, currentIndex: nat, faces: seq<Cell>, ghost done: nat, ghost chunk: seq<Cell>,
                             ghost base: seq<Record>)
      requires done % CHUNK == 0 && 0 < chunkSize <= CHUNK && done + chunkSize <= |faces|
      requires chunk == faces[done..done + chunkSize]
      requires FaceBuffers(face2nodes, nbNodes, ids, chunk, currentIndex)
      requires w.records == base + MapSeq(FacesDataOf, Chunks(faces[..done]))
      modifies w
      ensures w.records == base + MapSeq(FacesDataOf, Chunks(faces[..done + chunkSize]))
    {
      w.Emit(FacesData(chunkSize, face2nodes[..currentIndex], nbNodes[..chunkSize], ids[..chunkSize]));
      ChunksStep(faces, done, done + chunkSize);
      MapSeqAppend(FacesDataOf, Chunks(faces[..done]), [chunk]);
    }

    /**
     * writeRegions: the region header, then every region's shifted node ids,
     * Lima polyhedron type and shifted id, chunk by chunk.  The first region
     * whose type Lima has no polyhedron for, or which has more than 15 nodes,
     * aborts the write (the type is checked first); the chunks flushed before
     * it stay written.
     */
    method WriteRegions() returns (err: Option<string>)
      requires writer != null
      modifies writer
      ensures err == RegionError(mesh.regions)
      ensures writer.records == old(writer.records) + RegionStreamUpTo(mesh.regions, RegionsFlushed(mesh.regions))
    {
      err := WriteRegionsTo(writer, mesh.regions);
    }

    static method WriteRegionsTo(w: MaliPPWriter2, regions: seq<Cell>) returns (err: Option<string>)
      modifies w
      ensures err == RegionError(regions)
      ensures w.records == old(w.records) + RegionStreamUpTo(regions, RegionsFlushed(regions))
    {
      ghost var before := w.records;
      var header := ScanRegions(regions);
      w.Emit(header);
      err := StreamRegions(w, regions);
      AppendAfter(before, header, MapSeq(RegionsDataOf, Chunks(RegionEntries(regions[..RegionsFlushed(regions)]))), w.records);
    }

    /** The contiguity scan of writeRegions, packed into its header. */
    static method ScanRegions(regions: seq<Cell>) returns (header: Record)
      ensures header == RegionHeader(regions)
    {
      var isContiguous, minID := ScanContiguity(CellIds(regions));
      header := RegionsInfo(isContiguous, |regions|, minID);
    }

    /** The chunk loop of writeRegions. */
    static method StreamRegions(w: MaliPPWriter2, regions: seq<Cell>) returns (err: Option<string>)
      modifies w
      ensures err == RegionError(regions)
      ensures w.records == old(w.records) + MapSeq(RegionsDataOf, Chunks(RegionEntries(regions[..RegionsFlushed(regions)])))
    {
      ghost var base := w.records;
      var region2nodes := new int[MAX_NODES_PER_CELL * CHUNK];
      var regionTypes := new PolyedreType[CHUNK];
      var ids := new int[CHUNK];
      var chunkSize: nat := 0;
      var currentIndex: nat := 0;
      var i: nat := 0;
      var done: nat := 0;
      ghost var pending: seq<RegionEntry> := [];
      while i < |regions|
        invariant RegionLoop(w, region2nodes, regionTypes, ids, chunkSize, currentIndex, regions, i, done, pending, base)
      {
        var r := regions[i];
        var t := ApiRegionType(r.kind);
        if t.None? {
          RegionStop(w, region2nodes, regionTypes, ids, chunkSize, currentIndex, regions, i, done, pending, base);
          return Some(MSG_CELL_TYPE);
        }
        if |r.nodes| > MAX_NODES_PER_CELL {
          RegionStop(w, region2nodes, regionTypes, ids, chunkSize, currentIndex, regions, i, done, pending, base);
          return Some(MSG_REGION_TOO_MANY);
        }
        chunkSize, currentIndex, done, pending :=
          RegionStep(w, region2nodes, regionTypes, ids, chunkSize, currentIndex, regions, i, t.value, done, pending, base);
        i := i + 1;
      }
      FinishRegions(w, region2nodes, regionTypes, ids, chunkSize, currentIndex, regions, done, pending, base);
      return None;
    }

    /** The state of the region loop before region i: chunks up to done flushed, the entries of done..i buffered. */
    static ghost predicate RegionLoop(w: MaliPPWriter2, region2nodes: array<int>, types: array<PolyedreType>, ids: array<int>,
                                      chunkSize: nat, currentIndex: nat, regions: seq<Cell>, i: nat, done: nat,
                                      pending: seq<RegionEntry>, base: seq<Record>)
      reads w, region2nodes, types, ids
    {
      && region2nodes != ids && region2nodes.Length == MAX_NODES_PER_CELL * CHUNK
      && types.Length == CHUNK && ids.Length == CHUNK
      && done % CHUNK == 0 && chunkSize < CHUNK && i == done + chunkSize <= |regions|
      && (forall j :: 0 <= j < i ==> !RegionRejected(regions[j]))
      && pending == RegionEntries(regions[done..i])
      && currentIndex <= MAX_NODES_PER_CELL * chunkSize
      && RegionBuffers(region2nodes, types, ids, pending, currentIndex)
      && w.records == base + MapSeq(RegionsDataOf, Chunks(RegionEntries(regions[..done])))
    }

    /** A rejected region ends the loop with its own message: the chunks before its own are all that was written. */
    static lemma RegionStop(w: MaliPPWriter2, region2nodes: array<int>, types: array<PolyedreType>, ids: array<int>,
                            chunkSize: nat, currentIndex: nat, regions: seq<Cell>, i: nat, done: nat,
                            pending: seq<RegionEntry>, base: seq<Record>)
      requires i < |regions| && RegionRejected(regions[i])
      requires RegionLoop(w, region2nodes, types, ids, chunkSize, currentIndex, regions, i, done, pending, base)
      ensures RegionError(regions) == Some(RegionRejection(regions[i]))
      ensures w.records == base + MapSeq(RegionsDataOf, Chunks(RegionEntries(regions[..RegionsFlushed(regions)])))
    {
      RegionErrorAt(regions, i, done);
    }

    /** One turn of the region loop for a region Lima accepts, with Lima type t. */
    static method RegionStep(w: MaliPPWriter2, region2nodes: array<int>, types: array<PolyedreType>, ids: array<int>,
                             chunkSize: nat, currentIndex: nat, regions: seq<Cell>, i: nat, t: PolyedreType, done: nat,
                             ghost pending: seq<RegionEntry>, ghost base: seq<Record>)
      returns (chunkSize': nat, currentIndex': nat, done': nat, ghost pending': seq<RegionEntry>)
      requires i < |regions| && !RegionRejected(regions[i]) && ApiRegionType(regions[i].kind) == Some(t)
      requires RegionLoop(w, region2nodes, types, ids, chunkSize, currentIndex, regions, i, done, pending, base)
      modifies w, region2nodes, types, ids
      ensures RegionLoop(w, region2nodes, types, ids, chunkSize', currentIndex', regions, i + 1, done', pending', base)
    {
      var e := RegionEntry(regions[i], t);
      currentIndex' := PutRegion(region2nodes, types, ids, chunkSize, currentIndex, e, pending);
      RegionEntriesSnoc(regions, done, i, t);
      pending' := pending + [e];
      chunkSize' := chunkSize + 1;
      done' := done;
      if chunkSize' == CHUNK {
        FlushRegions(w, region2nodes, types, ids, chunkSize', currentIndex', regions, done, pending', base);
        NextBoundary(done);
        chunkSize' := 0;
        currentIndex' := 0;
        done' := i + 1;
        pending' := [];
      }
    }

    /** After the last region: flush the partly filled buffer, if any. */
    static method FinishRegions(w: MaliPPWriter2, region2nodes: array<int>, types: array<PolyedreType>, ids: array<int>,
                                chunkSize: nat, currentIndex: nat, regions: seq<Cell>, ghost done: nat,
                                ghost pending: seq<RegionEntry>, ghost base: seq<Record>)
      requires RegionLoop(w, region2nodes, types, ids, chunkSize, currentIndex, regions, |regions|, done, pending, base)
      modifies w
      ensures RegionError(regions) == None
      ensures w.records == base + MapSeq(RegionsDataOf, Chunks(RegionEntries(regions[..RegionsFlushed(regions)])))
    {
      RegionSuccess(regions);
      if chunkSize > 0 {
        FlushRegions(w, region2nodes, types, ids, chunkSize, currentIndex, regions, done, pending, base);
      }
    }

    /** The first |pending| slots (and currentIndex connectivity slots) hold the pending region entries. */
    static ghost predicate RegionBuffers(region2nodes: array<int>, types: array<PolyedreType>, ids: array<int>,
                                         pending: seq<RegionEntry>, currentIndex: nat)
      reads region2nodes, types, ids
    {
      && currentIndex <= region2nodes.Length && |pending| <= types.Length && |pending| <= ids.Length
      && region2nodes[..currentIndex] == FlatConn(EntryCells(pending))
      && types[..|pending|] == EntryTypes(pending)
      && ids[..|pending|] == Shift(CellIds(EntryCells(pending)))
    }

    /** Stores one accepted region at slot |pending|; returns the next free connectivity slot. */
    static method PutRegion(region2nodes: array<int>, types: array<PolyedreType>, ids: array<int>, slot: nat,
                            currentIndex: nat, e: RegionEntry, ghost pending: seq<RegionEntry>) returns (next: nat)
      requires region2nodes != ids && slot == |pending| < CHUNK && |e.cell.nodes| <= MAX_NODES_PER_CELL
      requires region2nodes.Length == MAX_NODES_PER_CELL * CHUNK && types.Length == CHUNK && ids.Length == CHUNK
      requires currentIndex <= MAX_NODES_PER_CELL * slot
      requires RegionBuffers(region2nodes, types, ids, pending, currentIndex)
      modifies region2nodes, types, ids
      ensures next == currentIndex + |e.cell.nodes| <= MAX_NODES_PER_CELL * (slot + 1)
      ensures RegionBuffers(region2nodes, types, ids, pending + [e], next)
    {
      types[slot] := e.ptype;
      assert EntryCells(pending + [e]) == EntryCells(pending) + [e.cell];
      next := PutConnectivity(region2nodes, currentIndex, EntryCells(pending), e.cell);
      ids[slot] := e.cell.id + 1;
      assert ids[..slot + 1] == ids[..slot] + [e.cell.id + 1];
      assert types[..slot + 1] == types[..slot] + [e.ptype];
    }

    static method FlushRegions(w: MaliPPWriter2, region2nodes: array<int>, types: array<PolyedreType>, ids: array<int>,
                               chunkSize: nat, currentIndex: nat, regions: seq<Cell>, ghost done: nat,
                               ghost chunk: seq<RegionEntry>, ghost base: seq<Record>)
      requires done % CHUNK == 0 && 0 < chunkSize <= CHUNK && done + chunkSize <= |regions|
      requires forall k :: 0 <= k < done + chunkSize ==> ApiRegionType(regions[k].kind).Some?
      requires chunk == RegionEntries(regions[done..done + chunkSize])
      requires RegionBuffers(region2nodes, types, ids, chunk, currentIndex)
      requires w.records == base + MapSeq(RegionsDataOf, Chunks(RegionEntries(regions[..done])))
      modifies w
      ensures w.records == base + MapSeq(RegionsDataOf, Chunks(RegionEntries(regions[..done + chunkSize])))
    {
      assert RegionsData(chunkSize, region2nodes[..currentIndex], types[..chunkSize], ids[..chunkSize]) == RegionsDataOf(chunk);
      w.Emit(RegionsData(chunkSize, region2nodes[..currentIndex], types[..chunkSize], ids[..chunkSize]));
      ghost var entries := RegionEntries(regions[..done + chunkSize]);
      RegionEntriesSplit(regions, done, done + chunkSize);
      ChunksStep(entries, done, done + chunkSize);
      assert entries[..done + chunkSize] == entries;
      assert entries[..done] == RegionEntries(regions[..done]) && entries[done..done + chunkSize] == chunk;
      MapSeqAppend(RegionsDataOf, Chunks(RegionEntries(regions[..done])), [chunk]);
    }

    /** The names and sizes of the groups, gathered one group at a time. */
    static method GroupInfo(gs: seq<Group>) returns (names: seq<string>, sizes: seq<nat>)
      ensures names == Names(gs) && sizes == Sizes(gs)
    {
      names, sizes := [], [];
      var i := 0;
      while i < |gs|
        invariant i <= |gs| && names == Names(gs[..i]) && sizes == Sizes(gs[..i])
      {
        names := names + [gs[i].name];
        sizes := sizes + [|gs[i].cells|];
        i := i + 1;
      }
      assert gs[..i] == gs;
    }

    /** writeClouds: the names and sizes of the clouds, then each cloud's shifted node ids, chunk by chunk. */
    method WriteClouds()
      requires writer != null
      modifies writer
      ensures writer.records == old(writer.records) + CloudStream(mesh.clouds)
    {
      WriteCloudsTo(writer, mesh.clouds);
    }

    static method WriteCloudsTo(w: MaliPPWriter2, gs: seq<Group>)
      modifies w
      ensures w.records == old(w.records) + CloudStream(gs)
    {
      var names, sizes := GroupInfo(gs);
      w.Emit(NodeSetInfo(|gs|, names, sizes));
      StreamClouds(w, gs);
    }

    static method StreamClouds(w: MaliPPWriter2, gs: seq<Group>)
      modifies w
      ensures w.records == old(w.records) + CloudChunks(gs)
    {
      var ids := new int[CHUNK];
      var i := 0;
      while i < |gs|
        invariant i <= |gs| && w.records == old(w.records) + CloudChunks(gs[..i])
      {
        StreamIdSet(w, ids, NodeSetEncoder(gs[i].name), gs[i].cells);
        CloudChunksSnoc(gs, i);
        i := i + 1;
      }
      assert gs[..i] == gs;
    }

    /** writeLines: the names and sizes of the lines, then each line's shifted edge ids, chunk by chunk. */
    method WriteLines()
      requires writer != null
      modifies writer
      ensures writer.records == old(writer.records) + LineStream(mesh.lines)
    {
      WriteLinesTo(writer, mesh.lines);
    }

    static method WriteLinesTo(w: MaliPPWriter2, gs: seq<Group>)
      modifies w
      ensures w.records == old(w.records) + LineStream(gs)
    {
      var names, sizes := GroupInfo(gs);
      w.Emit(EdgeSetInfo(|gs|, names, sizes));
      StreamLines(w, gs);
    }

    static method StreamLines(w: MaliPPWriter2, gs: seq<Group>)
      modifies w
      ensures w.records == old(w.records) + LineChunks(gs)
    {
      var ids := new int[CHUNK];
      var i := 0;
      while i < |gs|
        invariant i <= |gs| && w.records == old(w.records) + LineChunks(gs[..i])
      {
        StreamIdSet(w, ids, EdgeSetEncoder(gs[i].name), gs[i].cells);
        LineChunksSnoc(gs, i);
        i := i + 1;
      }
      assert gs[..i] == gs;
    }

    /**
     * The member loop of writeClouds and writeLines: the shifted member ids
     * of one group in chunks, the last one flushed when the group ends.
     */
    static method StreamIdSet(w: MaliPPWriter2, ids: array<int>, encode: seq<int> -> Record, cells: seq<int>)
      requires ids.Length == CHUNK
      modifies w, ids
      ensures w.records == old(w.records) + MapSeq(encode, Chunks(ShiftMembers(cells)))
    {
      ghost var base := w.records;
      ghost var shifted := ShiftMembers(cells);
      var chunkSize: nat := 0;
      var i: nat := 0;
      ghost var done: nat := 0;
      while i < |cells|
        invariant done % CHUNK == 0 && chunkSize < CHUNK && i == done + chunkSize <= |cells|
        invariant ids[..chunkSize] == shifted[done..i]
        invariant w.records == base + MapSeq(encode, Chunks(shifted[..done]))
      {
        ids[chunkSize] := cells[i] + 1;
        SliceSnoc(shifted, done, i);
        assert ids[..chunkSize + 1] == ids[..chunkSize] + [cells[i] + 1];
        chunkSize := chunkSize + 1;
        i := i + 1;
        if chunkSize == CHUNK {
          FlushIdSet(w, ids, encode, chunkSize, shifted, done, base);
          NextBoundary(done);
          chunkSize := 0;
          done := i;
        }
      }
      if chunkSize > 0 {
        FlushIdSet(w, ids, encode, chunkSize, shifted, done, base);
      }
      assert shifted[..i] == shifted;
    }

    static method FlushIdSet(w: MaliPPWriter2, ids: array<int>, encode: seq<int> -> Record, chunkSize: nat,
                             ghost shifted: seq<int>, ghost done: nat, ghost base: seq<Record>)
      requires done % CHUNK == 0 && 0 < chunkSize <= CHUNK && done + chunkSize <= |shifted| && chunkSize <= ids.Length
      requires ids[..chunkSize] == shifted[done..done + chunkSize]
      requires w.records == base + MapSeq(encode, Chunks(shifted[..done]))
      modifies w
      ensures w.records == base + MapSeq(encode, Chunks(shifted[..done + chunkSize]))
    {
      w.Emit(encode(ids[..chunkSize]));
      ChunksStep(shifted, done, done + chunkSize);
      MapSeqAppend(encode, Chunks(shifted[..done]), [ids[..chunkSize]]);
    }

    /**
     * writeSurfaces: the names and sizes of the surfaces, then each surface's
     * shifted face ids with the node count of each face, chunk by chunk.
     */
    method WriteSurfaces()
      requires writer != null
      requires forall g <- mesh.surfaces :: GroupOver(g, CellIds(mesh.faces))
      modifies writer
      ensures writer.records == old(writer.records) + SurfaceStream(mesh.faces, mesh.surfaces)
    {
      WriteSurfacesTo(writer, mesh.faces, mesh.surfaces);
    }

    static method WriteSurfacesTo(w: MaliPPWriter2, faces: seq<Cell>, gs: seq<Group>)
      requires forall g <- gs :: GroupOver(g, CellIds(faces))
      modifies w
      ensures w.records == old(w.records) + SurfaceStream(faces, gs)
    {
      var names, sizes := GroupInfo(gs);
      w.Emit(FaceSetInfo(|gs|, names, sizes));
      StreamSurfaces(w, faces, gs);
    }

    static method StreamSurfaces(w: MaliPPWriter2, faces: seq<Cell>, gs: seq<Group>)
      requires forall g <- gs :: GroupOver(g, CellIds(faces))
      modifies w
      ensures w.records == old(w.records) + SurfaceChunks(faces, gs)
    {
      var ids := new int[CHUNK];
      var nbNodes := new nat[CHUNK];
      var i := 0;
      while i < |gs|
        invariant i <= |gs| && w.records == old(w.records) + SurfaceChunks(faces, gs[..i])
      {
        assert gs[i] in gs;
        StreamSurface(w, ids, nbNodes, faces, gs[i]);
        SurfaceChunksSnoc(faces, gs, i);
        i := i + 1;
      }
      assert gs[..i] == gs;
    }

    /** The member loop of writeSurfaces for one surface. */
    static method StreamSurface(w: MaliPPWriter2, ids: array<int>, nbNodes: array<nat>, faces: seq<Cell>, g: Group)
      requires ids.Length == CHUNK && nbNodes.Length == CHUNK
      requires GroupOver(g, CellIds(faces))
      modifies w, ids, nbNodes
      ensures w.records == old(w.records) + MapSeq(FaceSetEncoder(g.name), Chunks(SurfaceEntries(faces, g.cells)))
    {
      ghost var base := w.records;
      ghost var entries := SurfaceEntries(faces, g.cells);
      var chunkSize: nat := 0;
      var i: nat := 0;
      ghost var done: nat := 0;
      while i < |g.cells|
        invariant SurfaceLoop(w, ids, nbNodes, faces, g, entries, chunkSize, i, done, base)
      {
        chunkSize, done := SurfaceStep(w, ids, nbNodes, faces, g, entries, chunkSize, i, done, base);
        i := i + 1;
      }
      assert entries[..i] == entries;
      if chunkSize > 0 {
        FlushSurface(w, ids, nbNodes, g.name, chunkSize, entries, done, base);
      }
    }

    /** The state of the member loop before member i: chunks up to done flushed, the entries of done..i buffered. */
    static ghost predicate SurfaceLoop(w: MaliPPWriter2, ids: array<int>, nbNodes: array<nat>, faces: seq<Cell>, g: Group,
                                       entries: seq<FaceSetEntry>, chunkSize: nat, i: nat, done: nat, base: seq<Record>)
      reads w, ids, nbNodes
    {
      && ids.Length == CHUNK && nbNodes.Length == CHUNK
      && GroupOver(g, CellIds(faces)) && entries == SurfaceEntries(faces, g.cells)
      && done % CHUNK == 0 && chunkSize < CHUNK && i == done + chunkSize <= |g.cells|
      && ids[..chunkSize] == EntryIds(entries[done..i]) && nbNodes[..chunkSize] == EntryCounts(entries[done..i])
      && w.records == base + MapSeq(FaceSetEncoder(g.name), Chunks(entries[..done]))
    }

    /** One turn of the member loop: buffer member i, and flush a full buffer. */
    static method SurfaceStep(w: MaliPPWriter2, ids: array<int>, nbNodes: array<nat>, faces: seq<Cell>, g: Group,
                              ghost entries: seq<FaceSetEntry>, chunkSize: nat, i: nat, ghost done: nat,
                              ghost base: seq<Record>) returns (chunkSize': nat, ghost done': nat)
      requires i < |g.cells| && SurfaceLoop(w, ids, nbNodes, faces, g, entries, chunkSize, i, done, base)
      modifies w, ids, nbNodes
      ensures SurfaceLoop(w, ids, nbNodes, faces, g, entries, chunkSize', i + 1, done', base)
    {
      var x := g.cells[i];
      assert x in g.cells;
      ids[chunkSize] := x + 1;
      nbNodes[chunkSize] := |FindCell(faces, x).value.nodes|;
      SliceSnoc(entries, done, i);
      assert entries[i] == FaceSetEntry(x + 1, nbNodes[chunkSize]);
      assert EntryIds(entries[done..i + 1]) == EntryIds(entries[done..i]) + [x + 1];
      assert EntryCounts(entries[done..i + 1]) == EntryCounts(entries[done..i]) + [nbNodes[chunkSize]];
      assert ids[..chunkSize + 1] == ids[..chunkSize] + [x + 1];
      assert nbNodes[..chunkSize + 1] == nbNodes[..chunkSize] + [nbNodes[chunkSize]];
      chunkSize' := chunkSize + 1;
      done' := done;
      if chunkSize' == CHUNK {
        FlushSurface(w, ids, nbNodes, g.name, chunkSize', entries, done, base);
        NextBoundary(done);
        chunkSize' := 0;
        done' := i + 1;
      }
    }

    static method FlushSurface(w: MaliPPWriter2, ids: array<int>, nbNodes: array<nat>, name: string, chunkSize: nat,
                               ghost entries: seq<FaceSetEntry>, ghost done: nat, ghost base: seq<Record>)
      requires done % CHUNK == 0 && 0 < chunkSize <= CHUNK && done + chunkSize <= |entries|
      requires chunkSize <= ids.Length && chunkSize <= nbNodes.Length
      requires ids[..chunkSize] == EntryIds(entries[done..done + chunkSize])
      requires nbNodes[..chunkSize] == EntryCounts(entries[done..done + chunkSize])
      requires w.records == base + MapSeq(FaceSetEncoder(name), Chunks(entries[..done]))
      modifies w
      ensures w.records == base + MapSeq(FaceSetEncoder(name), Chunks(entries[..done + chunkSize]))
    {
      ghost var chunk := entries[done..done + chunkSize];
      assert FaceSetData(name, chunkSize, ids[..chunkSize], nbNodes[..chunkSize]) == FaceSetEncoder(name)(chunk);
      w.Emit(FaceSetData(name, chunkSize, ids[..chunkSize], nbNodes[..chunkSize]));
      ChunksStep(entries, done, done + chunkSize);
      MapSeqAppend(FaceSetEncoder(name), Chunks(entries[..done]), [chunk]);
    }

    /**
     * writeVolumes: the names and sizes of the volumes, then each volume's
     * shifted region ids with the Lima type of each region, chunk by chunk.
     * The first member whose region type Lima has no polyhedron for aborts
     * the write; the chunks flushed before it stay written.
     */
    method WriteVolumes() returns (err: Option<string>)
      requires writer != null
      modifies writer
      ensures err == VolumeError(mesh.regions, mesh.volumes)
      ensures writer.records == old(writer.records) + VolumeStream(mesh.regions, mesh.volumes)
    {
      err := WriteVolumesTo(writer, mesh.regions, mesh.volumes);
    }

    static method WriteVolumesTo(w: MaliPPWriter2, regions: seq<Cell>, gs: seq<Group>) returns (err: Option<string>)
      modifies w
      ensures err == VolumeError(regions, gs)
      ensures w.records == old(w.records) + VolumeStream(regions, gs)
    {
      ghost var before := w.records;
      var names, sizes := GroupInfo(gs);
      w.Emit(RegionSetInfo(|gs|, names, sizes));
      err := StreamVolumes(w, regions, gs);
      AppendAfter(before, RegionSetInfo(|gs|, names, sizes), VolumeChunks(regions, gs[..VolumesReached(regions, gs)]), w.records);
    }

    static method StreamVolumes(w: MaliPPWriter2, regions: seq<Cell>, gs: seq<Group>) returns (err: Option<string>)
      modifies w
      ensures err == VolumeError(regions, gs)
      ensures w.records == old(w.records) + VolumeChunks(regions, gs[..VolumesReached(regions, gs)])
    {
      ghost var base := w.records;
      var ids := new int[CHUNK];
      var types := new PolyedreType[CHUNK];
      var i := 0;
      while i < |gs|
        invariant VolumesLoop(w, ids, types, regions, gs, i, base)
      {
        err := VolumeGroupStep(w, ids, types, regions, gs, i, base);
        if err.Some? {
          return;
        }
        i := i + 1;
      }
      VolumeSuccess(regions, gs);
      assert gs[..i] == gs;
      return None;
    }

    /** The state of the volume loop before volume i: volumes 0..i all mapped and written. */
    static ghost predicate VolumesLoop(w: MaliPPWriter2, ids: array<int>, types: array<PolyedreType>, regions: seq<Cell>,
                                       gs: seq<Group>, i: nat, base: seq<Record>)
      reads w
    {
      && ids.Length == CHUNK && types.Length == CHUNK
      && i <= |gs| && (forall j :: 0 <= j < i ==> VolumeMapped(regions, gs[j]))
      && w.records == base + VolumeChunks(regions, gs[..i])
    }

    /** Writes volume i; an unmapped member ends writeVolumes with its exception. */
    static method VolumeGroupStep(w: MaliPPWriter2, ids: array<int>, types: array<PolyedreType>, regions: seq<Cell>,
                                  gs: seq<Group>, i: nat, ghost base: seq<Record>) returns (err: Option<string>)
      requires i < |gs| && VolumesLoop(w, ids, types, regions, gs, i, base)
      modifies w, ids, types
      ensures err.None? ==> VolumesLoop(w, ids, types, regions, gs, i + 1, base)
      ensures err.Some? ==> err == VolumeError(regions, gs)
      ensures err.Some? ==> w.records == base + VolumeChunks(regions, gs[..VolumesReached(regions, gs)])
    {
      ghost var before := w.records;
      err := StreamVolume(w, ids, types, regions, gs[i]);
      VolumeAdvance(regions, gs, i, base, before, w.records);
    }

    /** What writing volume i adds: its chunks, and either one more mapped volume or the end of writeVolumes. */
    static lemma VolumeAdvance(regions: seq<Cell>, gs: seq<Group>, i: nat, base: seq<Record>, before: seq<Record>,
                               after: seq<Record>)
      requires i < |gs| && forall j :: 0 <= j < i ==> VolumeMapped(regions, gs[j])
      requires before == base + VolumeChunks(regions, gs[..i])
      requires after == before + VolumeGroupChunks(regions, gs[i])
      ensures after == base + VolumeChunks(regions, gs[..i + 1])
      ensures VolumeMapped(regions, gs[i]) ==> forall j :: 0 <= j < i + 1 ==> VolumeMapped(regions, gs[j])
      ensures !VolumeMapped(regions, gs[i]) ==>
        VolumeError(regions, gs) == Some(MSG_CELL_TYPE) && after == base + VolumeChunks(regions, gs[..VolumesReached(regions, gs)])
    {
      VolumeChunksSnoc(regions, gs, i);
      Append2(base, VolumeChunks(regions, gs[..i]), VolumeGroupChunks(regions, gs[i]));
      if !VolumeMapped(regions, gs[i]) {
        VolumeErrorAt(regions, gs, i);
      }
    }

    /** The member loop of writeVolumes for one volume; stops at the first member Lima cannot type. */
    static method StreamVolume(w: MaliPPWriter2, ids: array<int>, types: array<PolyedreType>, regions: seq<Cell>, g: Group)
      returns (err: Option<string>)
      requires ids.Length == CHUNK && types.Length == CHUNK
      modifies w, ids, types
      ensures err == if VolumeMapped(regions, g) then None else Some(MSG_CELL_TYPE)
      ensures w.records == old(w.records) + VolumeGroupChunks(regions, g)
    {
      ghost var base := w.records;
      ghost var entries := MappedEntries(regions, g.cells);
      var chunkSize: nat := 0;
      var i: nat := 0;
      ghost var done: nat := 0;
      while i < |g.cells|
        invariant VolumeLoop(w, ids, types, regions, g, entries, chunkSize, i, done, base)
      {
        var t := MemberType(regions, g.cells[i]);
        if t.None? {
          MemberErrorAt(regions, g.cells, i, done);
          return Some(MSG_CELL_TYPE);
        }
        chunkSize, done := VolumeStep(w, ids, types, regions, g, entries, chunkSize, i, t.value, done, base);
        i := i + 1;
      }
      FinishVolume(w, ids, types, regions, g, entries, chunkSize, done, base);
      return None;
    }

    /** The state of the member loop before member i: chunks up to done flushed, the entries of done..i buffered. */
    static ghost predicate VolumeLoop(w: MaliPPWriter2, ids: array<int>, types: array<PolyedreType>, regions: seq<Cell>,
                                      g: Group, entries: seq<RegionSetEntry>, chunkSize: nat, i: nat, done: nat,
                                      base: seq<Record>)
      reads w, ids, types
    {
      && ids.Length == CHUNK && types.Length == CHUNK
      && entries == MappedEntries(regions, g.cells)
      && done % CHUNK == 0 && chunkSize < CHUNK && i == done + chunkSize <= |entries|
      && ids[..chunkSize] == SetIds(entries[done..i]) && types[..chunkSize] == SetTypes(entries[done..i])
      && w.records == base + MapSeq(RegionSetEncoder(g.name), Chunks(entries[..done]))
    }

    /** One turn of the member loop for a member whose region has Lima type t. */
    static method VolumeStep(w: MaliPPWriter2, ids: array<int>, types: array<PolyedreType>, regions: seq<Cell>, g: Group,
                             ghost entries: seq<RegionSetEntry>, chunkSize: nat, i: nat, t: PolyedreType,
                             ghost done: nat, ghost base: seq<Record>) returns (chunkSize': nat, ghost done': nat)
      requires i < |g.cells| && MemberType(regions, g.cells[i]) == Some(t)
      requires VolumeLoop(w, ids, types, regions, g, entries, chunkSize, i, done, base)
      modifies w, ids, types
      ensures VolumeLoop(w, ids, types, regions, g, entries, chunkSize', i + 1, done', base)
    {
      assert !UnmappedIn(regions)(g.cells[i]);
      assert i < |entries|;
      ids[chunkSize] := g.cells[i] + 1;
      types[chunkSize] := t;
      SliceSnoc(entries, done, i);
      assert entries[i] == RegionSetEntry(g.cells[i] + 1, t);
      assert SetIds(entries[done..i + 1]) == SetIds(entries[done..i]) + [g.cells[i] + 1];
      assert SetTypes(entries[done..i + 1]) == SetTypes(entries[done..i]) + [t];
      assert ids[..chunkSize + 1] == ids[..chunkSize] + [g.cells[i] + 1];
      assert types[..chunkSize + 1] == types[..chunkSize] + [t];
      chunkSize' := chunkSize + 1;
      done' := done;
      if chunkSize' == CHUNK {
        FlushVolume(w, ids, types, g.name, chunkSize', entries, done, base);
        NextBoundary(done);
        chunkSize' := 0;
        done' := i + 1;
      }
    }

    /** After the last member: the volume is mapped; flush the partly filled buffer, if any. */
    static method FinishVolume(w: MaliPPWriter2, ids: array<int>, types: array<PolyedreType>, regions: seq<Cell>, g: Group,
                               ghost entries: seq<RegionSetEntry>, chunkSize: nat, ghost done: nat, ghost base: seq<Record>)
      requires VolumeLoop(w, ids, types, regions, g, entries, chunkSize, |g.cells|, done, base)
      modifies w
      ensures VolumeMapped(regions, g)
      ensures w.records == base + VolumeGroupChunks(regions, g)
    {
      assert entries[..|g.cells|] == entries;
      if chunkSize > 0 {
        FlushVolume(w, ids, types, g.name, chunkSize, entries, done, base);
      }
    }

    static method FlushVolume(w: MaliPPWriter2, ids: array<int>, types: array<PolyedreType>, name: string, chunkSize: nat,
                              ghost entries: seq<RegionSetEntry>, ghost done: nat, ghost base: seq<Record>)
      requires done % CHUNK == 0 && 0 < chunkSize <= CHUNK && done + chunkSize <= |entries|
      requires chunkSize <= ids.Length && chunkSize <= types.Length
      requires ids[..chunkSize] == SetIds(entries[done..done + chunkSize])
      requires types[..chunkSize] == SetTypes(entries[done..done + chunkSize])
      requires w.records == base + MapSeq(RegionSetEncoder(name), Chunks(entries[..done]))
      modifies w
      ensures w.records == base + MapSeq(RegionSetEncoder(name), Chunks(entries[..done + chunkSize]))
    {
      ghost var chunk := entries[done..done + chunkSize];
      assert RegionSetData(name, chunkSize, ids[..chunkSize], types[..chunkSize]) == RegionSetEncoder(name)(chunk);
      w.Emit(RegionSetData(name, chunkSize, ids[..chunkSize], types[..chunkSize]));
      ChunksStep(entries, done, done + chunkSize);
      MapSeqAppend(RegionSetEncoder(name), Chunks(entries[..done]), [chunk]);
    }
  }
}
