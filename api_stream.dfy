/**
 * What LimaWriterAPI::write sends to the chunked Lima writer as a whole:
 * the length unit, the dimension, the element streams, the group
 * streams, the attribute requests and the close, cut short by the first
 * exception a stream raises.
 */
module ApiStream {

  import opened Wrappers
  import opened GmdsMesh
  import opened LimaData
  import opened MaliPP
  import opened Chunking
  import opened IdScan
  import opened Shapes
  import opened ChunkedStreams

  /** Lima's dimension for a mesh dimension: 3 and 2 have their own, anything else is D1. */
  function LimaDimension(dim: nat): (d: Dim)
    ensures d == D3 <==> dim == 3
    ensures d == D2 <==> dim == 2
  {
    if dim == 3 then D3 else if dim == 2 then D2 else D1
  }

  /** The sections whose attributes write() requests, in its order. */
  const ATTRIBUTE_SECTIONS: seq<Section> :=
    [NodeAttrs, EdgeAttrs, FaceAttrs, RegionAttrs, NodeSetAttrs, EdgeSetAttrs, FaceSetAttrs, RegionSetAttrs]

  function AttributeRecords(): seq<Record>
  {
    MapSeq((s: Section) => Attributes(s), ATTRIBUTE_SECTIONS)
  }

  function Preamble(unit: real, dim: nat): seq<Record>
  {
    [LengthUnit(unit), Dimension(LimaDimension(dim)), BeginWrite]
  }

  /** The records of the nodes, edges and faces, which write() always reaches. */
  function CellRecords(m: Mesh): seq<Record>
  {
    NodeStream(m.nodes) + EdgeStream(m.edges) + FaceStreamUpTo(m.faces, FacesFlushed(m.faces))
  }

  function GroupRecords(m: Mesh): seq<Record>
  {
    CloudStream(m.clouds) + LineStream(m.lines) + SurfaceStream(m.faces, m.surfaces) + VolumeStream(m.regions, m.volumes)
  }

  /** The exception writeFaces or, after it, writeRegions raises. */
  function SolidError(m: Mesh): Option<string>
  {
    if FaceError(m.faces).Some? then FaceError(m.faces) else RegionError(m.regions)
  }

  /** The element records: regions only when every face fits. */
  function SolidRecords(m: Mesh): seq<Record>
  {
    CellRecords(m) + if FaceError(m.faces).Some? then [] else RegionStreamUpTo(m.regions, RegionsFlushed(m.regions))
  }

  /** The exception write() ends with: the first one raised by writeFaces, writeRegions or writeVolumes. */
  function ApiError(m: Mesh): Option<string>
  {
    if SolidError(m).Some? then SolidError(m) else VolumeError(m.regions, m.volumes)
  }

  /** The attribute requests and the close, reached only when writeVolumes raises nothing. */
  function ClosingRecords(m: Mesh): seq<Record>
  {
    if VolumeError(m.regions, m.volumes).Some? then [] else AttributeRecords() + [Close]
  }

  /** Every record write() sends, up to the exception if one is raised. */
  function ApiRecords(m: Mesh, unit: real): seq<Record>
  {
    Preamble(unit, m.dim) + SolidRecords(m) + if SolidError(m).Some? then [] else GroupRecords(m) + ClosingRecords(m)
  }

  /** The records of a write that ends in writeFaces or writeRegions. */
  lemma ApiRecordsSolidError(m: Mesh, unit: real)
    requires SolidError(m).Some?
    ensures ApiRecords(m, unit) == Preamble(unit, m.dim) + SolidRecords(m)
  {
    assert Preamble(unit, m.dim) + SolidRecords(m) + [] == Preamble(unit, m.dim) + SolidRecords(m);
  }

  /** The records of a write that ends in writeVolumes. */
  lemma ApiRecordsVolumeError(m: Mesh, unit: real)
    requires SolidError(m).None? && VolumeError(m.regions, m.volumes).Some?
    ensures ApiRecords(m, unit) == Preamble(unit, m.dim) + SolidRecords(m) + GroupRecords(m)
  {
    assert GroupRecords(m) + [] == GroupRecords(m);
  }

  /** The records of a write that raises nothing. */
  lemma ApiRecordsComplete(m: Mesh, unit: real)
    requires ApiError(m).None?
    ensures ApiRecords(m, unit) == Preamble(unit, m.dim) + SolidRecords(m) + GroupRecords(m) + AttributeRecords() + [Close]
  {
    Append2(Preamble(unit, m.dim) + SolidRecords(m), GroupRecords(m), AttributeRecords() + [Close]);
    Append2(Preamble(unit, m.dim) + SolidRecords(m) + GroupRecords(m), AttributeRecords(), [Close]);
  }

  // ----- no stream closes the file -----

  lemma {:induction false} CloudChunksOpen(gs: seq<Group>)
    ensures Close !in CloudChunks(gs)
    decreases |gs|
  {
    if |gs| > 0 {
      CloudChunksOpen(gs[..|gs| - 1]);
    }
  }

  lemma {:induction false} LineChunksOpen(gs: seq<Group>)
    ensures Close !in LineChunks(gs)
    decreases |gs|
  {
    if |gs| > 0 {
      LineChunksOpen(gs[..|gs| - 1]);
    }
  }

  lemma {:induction false} SurfaceChunksOpen(faces: seq<Cell>, gs: seq<Group>)
    ensures Close !in SurfaceChunks(faces, gs)
    decreases |gs|
  {
    if |gs| > 0 {
      SurfaceChunksOpen(faces, gs[..|gs| - 1]);
    }
  }

  lemma {:induction false} VolumeChunksOpen(regions: seq<Cell>, gs: seq<Group>)
    ensures Close !in VolumeChunks(regions, gs)
    decreases |gs|
  {
    if |gs| > 0 {
      VolumeChunksOpen(regions, gs[..|gs| - 1]);
    }
  }

  lemma SolidRecordsOpen(m: Mesh, unit: real)
    ensures Close !in Preamble(unit, m.dim) + SolidRecords(m)
  {
    assert Close !in NodeStream(m.nodes);
    assert Close !in EdgeStream(m.edges);
    assert Close !in FaceStreamUpTo(m.faces, FacesFlushed(m.faces));
    if FaceError(m.faces).None? {
      assert Close !in RegionStreamUpTo(m.regions, RegionsFlushed(m.regions));
    }
  }

  lemma GroupRecordsOpen(m: Mesh)
    ensures Close !in GroupRecords(m)
  {
    CloudChunksOpen(m.clouds);
    assert Close !in CloudStream(m.clouds);
    LineChunksOpen(m.lines);
    assert Close !in LineStream(m.lines);
    SurfaceChunksOpen(m.faces, m.surfaces);
    assert Close !in SurfaceStream(m.faces, m.surfaces);
    VolumeChunksOpen(m.regions, m.volumes[..VolumesReached(m.regions, m.volumes)]);
    assert Close !in VolumeStream(m.regions, m.volumes);
  }

  /** The file is closed exactly when write() raises no exception, and then Close is the last record. */
  lemma ApiCloses(m: Mesh, unit: real)
    ensures ApiError(m).None? <==> Close in ApiRecords(m, unit)
    ensures ApiError(m).None? ==> ApiRecords(m, unit)[|ApiRecords(m, unit)| - 1] == Close
  {
    SolidRecordsOpen(m, unit);
    GroupRecordsOpen(m);
    assert Close !in AttributeRecords();
  }
}
