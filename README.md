# GMDSCEA: the GMDS ⇄ Lima mesh codec, modelled in Dafny

GMDSCEA moves meshes between GMDS, an in-memory mesh (`IGMesh`), and Lima, CEA's mesh-file library (`.mli` files). This project models its four parts and proves what they promise.

- **The chunked writer** is `LimaWriterAPI`, the `WriterApi` module.
  - For each element kind (nodes, edges, faces, regions), it scans the ids for contiguity and sends a header: the contiguity flag, the count, and the first id + 1.
  - It then fills fixed buffers of `CHUNK` = 10000 slots in place and flushes them to `MaliPPWriter2` whenever they are full, and once more at the end when they are not empty.
  - Every id is shifted by +1.
  - Faces and regions have a flattened connectivity array of at most 15 nodes per element.
  - It does the same for the four group kinds (clouds, lines, surfaces, volumes), one group at a time.
  - A face with more than 15 nodes, a region of a type Lima does not have or with more than 15 nodes, and a volume member of such a type each raise an exception that ends `write`.
- **The legacy writer** is `LimaWriter<TMesh>`, the `LegacyWriter` module.
  - It builds `nodes_connection_`, a table of max id + 1 slots holding each Lima node at its mesh id.
  - It adds the Lima nodes, edges, faces and regions to a `Lima::Maillage`. Edges, faces and regions are added only when both models have them.
  - Shapes without a Lima constructor are skipped.
  - Group members are looked up by id + 1. It saves the `Maillage` with `Lima::SUFFIXE`.
- **The reader** is `LimaReader<TMesh>`, the `Reader` module.
  - For each kind, it sizes a table to the largest file id.
  - It creates GMDS elements by vertex count and stores each one at file id − 1. Polyhedra with 10 or 12 vertices throw.
  - It rebuilds every group through the tables.
- **The dispatcher** is `GMDSCEAWriter`, the `Dispatcher` module. It sends `MALIPP2` to the chunked writer, refuses `SUFFIXE` and `INCONNU`, and sends every other format to the legacy writer.

The chunked writer's target, `Lima::MaliPPWriter2`, is a sink that records one `Record` per call, in order (`MaliPP`). The `Lima::Maillage` that the legacy writer builds and the reader loads is a value (`LimaData`). The GMDS mesh is a value holding sequences of nodes, edges, cells and named groups (`GmdsMesh`).

Each writer and the reader is a class whose methods update their fields. The loops are methods proved against specification functions:
- the streams in `ChunkedStreams` and `ApiStream`;
- `LegacyOutcome` and the `With*` steps in `LegacyWriter`;
- `ReadSpec` and the `*Stage` functions in `Reader`.

The properties promised by the source are proved about those functions. `StreamProps` holds the chunk-stream properties, and `RoundTrip` writes with the chunked writer and reads the result back.

Where the code and its prose description differ, the model follows the code:
- The header's minID is the first id in iteration order + 1, not the smallest id.
- The reader does not check for dangling ids. It indexes unchecked, so a file is required to be well formed (`Reader.WellFormed`) rather than being rejected.
- The legacy writer skips shapes it cannot write instead of failing.
- A face or region that is too big ends the chunked write after the chunks already flushed, which stay written.
- The chunked writer ignores the mesh model: every kind is written.

`GMDSCEAWriter::setLengthUnit` (GMDSCEA/src/GMDSCEAWriter.cpp:33) lacks the semicolon after its assignment, so it does not compile as shown. The model uses the evident intent, an assignment of the unit.

## Model

| member | source | states |
|---|---|---|
| IdScan.ScanContiguity | GMDSCEA/src/LimaWriterAPI.cpp:95-113 | The flag is true exactly when each id is the previous one + 1. minID is the first iterated id + 1. With no ids, the flag stays true and minID stays NullID. |
| IdScan.ContiguousIffRange | GMDSCEA/src/LimaWriterAPI.cpp:95-113 | On a non-empty scan, the step-by-step contiguity test is equivalent to the ids being exactly first, first+1, first+2, … |
| IdScan.ContiguousMinID | GMDSCEA/src/LimaWriterAPI.cpp:101-102 | For contiguous ids, the first id + 1 sent as minID is at most every Lima id, so it is their minimum. |
| IdScan.MaxId | GMDSCEA/inc/GMDSCEA/LimaWriter.h:43-49 | The running-maximum loop returns MaxOf: a bound on every id, and one of the ids when there are any. |
| IdScan.Resize | GMDSCEA/inc/GMDSCEA/LimaWriter.h:50 | After the resize, the table has the new size, keeps its old slots and fills the new slots with the default value. |
| IdScan.Shift | GMDSCEA/src/LimaWriterAPI.cpp:139 | Each written id is the mesh id + 1, position by position. |
| Chunking.FlattenChunks | GMDSCEA/src/LimaWriterAPI.cpp:130-163 | Concatenating the flushed chunks gives back the whole sequence, in order. |
| Chunking.ChunkSizes | GMDSCEA/src/LimaWriterAPI.cpp:142-163 | Every flushed chunk has between 1 and 10000 elements, so no empty chunk is flushed. |
| Chunking.ChunksFull | GMDSCEA/src/LimaWriterAPI.cpp:142-154 | Every chunk but the last is full. There are ceil(n / 10000) chunks. |
| Shapes.LegacyFaceArity | GMDSCEA/inc/GMDSCEA/LimaWriter.h:155-223 | A written face has 3 to 6 nodes. A polygon is written exactly when it has 3 to 6 nodes, with that many. Other types are skipped. |
| Shapes.LegacyRegionArity | GMDSCEA/inc/GMDSCEA/LimaWriter.h:254-436 | A written region has 4, 5, 6, 8, 10 or 12 nodes. A polyhedron is written exactly when its size is one of those, with that many. Other types are skipped. |
| Shapes.ApiRegionType | GMDSCEA/src/LimaWriterAPI.cpp:382-397 | A region type maps to a Lima type exactly for tetra, pyramid, prism3 and hex. Every other type throws. |
| Shapes.ReadFaceType | GMDSCEA/inc/GMDSCEA/LimaReader.h:151-192 | A face is built exactly for 3 to 6 vertices: a triangle, a quad or a polygon. |
| Shapes.ReadRegionTypeCases | GMDSCEA/inc/GMDSCEA/LimaReader.h:228-300 | 4, 5, 6 and 8 vertices build a region. 10 and 12 throw the Prism5 and Prism6 messages respectively. Every other count stores a null region. |
| Shapes.LegacyFaceReadBack | GMDSCEA/inc/GMDSCEA/LimaWriter.h:155-223 | A face the legacy writer writes has a vertex count the reader builds a face from. Triangles and quads come back with their own type. |
| Shapes.LegacyRegionReadBack | GMDSCEA/inc/GMDSCEA/LimaWriter.h:254-436 | A region the legacy writer writes is built back by the reader, unless it is a 10- or 12-node prism, on which the reader throws. Tetra, pyramid, prism3 and hex come back with their own type. |
| Shapes.ApiRegionReadBack | GMDSCEA/src/LimaWriterAPI.cpp:382-397 | Every region the chunked writer accepts has its Lima type's node count, and the reader builds it back with the same type. |
| ChunkedStreams.EdgeNodePairsLayout | GMDSCEA/src/LimaWriterAPI.cpp:214-215 | Slots 2k and 2k+1 of the edge connectivity hold edge k's two end nodes, each + 1. |
| ChunkedStreams.FaceErrorAt | GMDSCEA/src/LimaWriterAPI.cpp:294-296 | The first face with more than 15 nodes raises the face message. Only the faces of the chunks completed before it reach the file, so none of its own nodes do. |
| ChunkedStreams.FaceSuccess | GMDSCEA/src/LimaWriterAPI.cpp:284-327 | When every face has at most 15 nodes, writeFaces raises nothing and every face reaches the file. |
| ChunkedStreams.RegionErrorAt | GMDSCEA/src/LimaWriterAPI.cpp:382-401 | The first region with an unmapped type or more than 15 nodes raises its message, with the type checked first. Only the regions of the chunks completed before it reach the file. |
| ChunkedStreams.RegionSuccess | GMDSCEA/src/LimaWriterAPI.cpp:370-432 | When every region is accepted, writeRegions raises nothing and every region reaches the file. |
| ChunkedStreams.RegionsFlushed | GMDSCEA/src/LimaWriterAPI.cpp:399-432 | No region that reaches the file is one the writer rejects. |
| ChunkedStreams.MemberType | GMDSCEA/src/LimaWriterAPI.cpp:662-677 | A volume member is typed only when it names a region, and then with that region's Lima type. |
| ChunkedStreams.VolumeMappedMeans | GMDSCEA/src/LimaWriterAPI.cpp:660-677 | A volume is written without exception exactly when each of its members names a region of a type Lima has. |
| ChunkedStreams.MemberErrorAt | GMDSCEA/src/LimaWriterAPI.cpp:660-690 | At the first untyped member, only the chunks completed before it have been written for that volume. |
| ChunkedStreams.VolumeErrorAt | GMDSCEA/src/LimaWriterAPI.cpp:655-677 | The first unmapped volume raises the cell-type message after its own completed chunks, and no later volume is written. |
| ChunkedStreams.VolumeSuccess | GMDSCEA/src/LimaWriterAPI.cpp:655-702 | When every volume is mapped, writeVolumes raises nothing and writes every volume. |
| ChunkedStreams.SurfaceEntries | GMDSCEA/src/LimaWriterAPI.cpp:596-599 | Each surface member is written as its id + 1 together with the node count of its face. |
| ApiStream.LimaDimension | GMDSCEA/src/LimaWriterAPI.cpp:49-57 | The file is D3 exactly for dimension 3 and D2 exactly for dimension 2. Anything else is D1. |
| ApiStream.ApiRecordsSolidError | GMDSCEA/src/LimaWriterAPI.cpp:63-66 | A write stopped in writeFaces or writeRegions sends only the unit, the dimension, beginWrite and the element records up to that point. |
| ApiStream.ApiRecordsVolumeError | GMDSCEA/src/LimaWriterAPI.cpp:63-71 | A write stopped in writeVolumes sends every element and group record up to that point, and no attribute request or close. |
| ApiStream.ApiRecordsComplete | GMDSCEA/src/LimaWriterAPI.cpp:46-83 | A write that raises nothing sends, in this order: the preamble, every element stream, every group stream, the eight attribute requests and close. |
| ApiStream.ApiCloses | GMDSCEA/src/LimaWriterAPI.cpp:83-88 | The file is closed exactly when write raises no exception, and close is then the last call. |
| StreamProps.ChunkedIds | GMDSCEA/src/LimaWriterAPI.cpp:130-163 | If each chunk record carries its elements' ids, then all records together carry every element's id, in order. |
| StreamProps.ChunkedCounts | GMDSCEA/src/LimaWriterAPI.cpp:142-163 | The chunk records announce ceil(n / 10000) counts, each between 1 and 10000, all full but the last. |
| StreamProps.NodeStreamIds | GMDSCEA/src/LimaWriterAPI.cpp:139 | The ids of all node chunks, concatenated, are the node ids + 1 in iteration order. |
| StreamProps.NodeStreamCoordinates | GMDSCEA/src/LimaWriterAPI.cpp:130-163 | The x, y and z arrays of all node chunks, concatenated, are the nodes' coordinates in order. |
| StreamProps.NodeStreamChunks | GMDSCEA/src/LimaWriterAPI.cpp:116-163 | writeNodes sends one header, then ceil(n / 10000) chunks of 1 to 10000 nodes, all full but the last. |
| StreamProps.EdgeStreamIds | GMDSCEA/src/LimaWriterAPI.cpp:216 | The ids of all edge chunks, concatenated, are the edge ids + 1. |
| StreamProps.EdgeStreamConnectivity | GMDSCEA/src/LimaWriterAPI.cpp:214-215 | The edge connectivity of all chunks, concatenated, pairs every edge's two end nodes + 1, edge after edge. |
| StreamProps.FaceStreamIds | GMDSCEA/src/LimaWriterAPI.cpp:303 | The ids of the face chunks written are the ids + 1 of the faces that reach the file. |
| StreamProps.FaceStreamConnectivity | GMDSCEA/src/LimaWriterAPI.cpp:297-301 | The face connectivity of the chunks written is each flushed face's nodes + 1, face after face. |
| StreamProps.RegionStreamIds | GMDSCEA/src/LimaWriterAPI.cpp:408 | The ids of the region chunks written are the ids + 1 of the regions that reach the file. |
| StreamProps.RegionStreamConnectivity | GMDSCEA/src/LimaWriterAPI.cpp:403-406 | The region connectivity of the chunks written is each flushed region's nodes + 1, region after region. |
| StreamProps.RegionStreamTypes | GMDSCEA/src/LimaWriterAPI.cpp:382-397 | The types of the region chunks written are, region by region, the Lima types of the regions that reach the file. |
| StreamProps.CloudStreamIds | GMDSCEA/src/LimaWriterAPI.cpp:466-498 | The ids of all cloud chunks are every cloud's members + 1, cloud after cloud. |
| StreamProps.CloudStreamGroups | GMDSCEA/src/LimaWriterAPI.cpp:466-498 | The buffer is reset for each cloud, so the cloud chunks are each cloud's own chunks in turn. Every chunk carries its cloud's name and 1 to 10000 members, and one cloud's chunk counts add up to its size. |
| StreamProps.LineStreamIds | GMDSCEA/src/LimaWriterAPI.cpp:528-560 | The ids of all line chunks are every line's members + 1, line after line. |
| StreamProps.LineStreamGroups | GMDSCEA/src/LimaWriterAPI.cpp:528-560 | The line chunks are each line's own chunks in turn. Every chunk is named after its line and holds 1 to 10000 members, and the counts add up to the line's size. |
| StreamProps.SurfaceStreamIds | GMDSCEA/src/LimaWriterAPI.cpp:591-624 | The ids of all surface chunks are every surface's members + 1, surface after surface. |
| StreamProps.SurfaceStreamGroups | GMDSCEA/src/LimaWriterAPI.cpp:591-624 | The surface chunks are each surface's own chunks in turn. Every chunk is named after its surface and holds 1 to 10000 members, and the counts add up to the surface's size. |
| StreamProps.VolumeStreamIds | GMDSCEA/src/LimaWriterAPI.cpp:655-703 | The volume chunks carry, volume after volume, the members written + 1. Each comes with the Lima type of the region it names. When no volume raises the cell-type exception, these are all members of all volumes. |
| StreamProps.ApiWritable | GMDSCEA/src/LimaWriterAPI.cpp:246-704 | write raises nothing exactly when three conditions hold: every face has at most 15 nodes; every region has a Lima type and at most 15 nodes; and every volume member names a region with a Lima type. |
| WriterApi.LimaWriterAPI.constructor | GMDSCEA/src/LimaWriterAPI.cpp:18-22 | A new writer has unit 1 and no Lima writer yet. |
| WriterApi.LimaWriterAPI.SetLengthUnit | GMDSCEA/src/LimaWriterAPI.cpp:30-33 | Sets the unit and changes nothing else. |
| WriterApi.LimaWriterAPI.Write | GMDSCEA/src/LimaWriterAPI.cpp:43-89 | Opens a fresh Lima writer on the file name, sends exactly ApiRecords (the full call sequence above, cut at the first exception) and returns ApiError. |
| WriterApi.LimaWriterAPI.WriteAll | GMDSCEA/src/LimaWriterAPI.cpp:59-83 | Appends exactly ApiRecords after what the writer already holds, and returns ApiError. |
| WriterApi.LimaWriterAPI.WriteSolids | GMDSCEA/src/LimaWriterAPI.cpp:63-66 | writeNodes, writeEdges, writeFaces and, unless a face failed, writeRegions append the element records and return the first exception. |
| WriterApi.LimaWriterAPI.WriteGroups | GMDSCEA/src/LimaWriterAPI.cpp:68-71 | The four group writers append their streams and return the exception of writeVolumes. |
| WriterApi.LimaWriterAPI.WriteAttributes | GMDSCEA/src/LimaWriterAPI.cpp:73-81 | Appends the eight attribute requests, nodes to volumes. |
| WriterApi.LimaWriterAPI.WriteNodes | GMDSCEA/src/LimaWriterAPI.cpp:92-168 | Appends the node header and the node chunks (NodeStream). |
| WriterApi.LimaWriterAPI.ScanNodes | GMDSCEA/src/LimaWriterAPI.cpp:95-116 | The header carries the contiguity of the node ids, the node count and the first id + 1. |
| WriterApi.LimaWriterAPI.StreamNodes | GMDSCEA/src/LimaWriterAPI.cpp:122-163 | The buffer loop appends one record per chunk of the nodes. |
| WriterApi.LimaWriterAPI.WriteEdges | GMDSCEA/src/LimaWriterAPI.cpp:171-243 | Appends the edge header and the edge chunks (EdgeStream). |
| WriterApi.LimaWriterAPI.ScanEdges | GMDSCEA/src/LimaWriterAPI.cpp:174-195 | The header carries the contiguity of the edge ids, the count and the first id + 1. |
| WriterApi.LimaWriterAPI.StreamEdges | GMDSCEA/src/LimaWriterAPI.cpp:201-239 | The buffer loop appends one record per chunk of the edges. |
| WriterApi.LimaWriterAPI.PutEdge | GMDSCEA/src/LimaWriterAPI.cpp:212-217 | Storing one edge keeps the buffers equal to the Lima form of the pending edges, with the new edge's ends at 2·slot and 2·slot+1. |
| WriterApi.LimaWriterAPI.WriteFaces | GMDSCEA/src/LimaWriterAPI.cpp:246-332 | Appends the face header and the chunks of the faces that reach the file, and returns FaceError. |
| WriterApi.LimaWriterAPI.ScanFaces | GMDSCEA/src/LimaWriterAPI.cpp:249-270 | The header carries the contiguity of the face ids, the count and the first id + 1. |
| WriterApi.LimaWriterAPI.StreamFaces | GMDSCEA/src/LimaWriterAPI.cpp:276-327 | The buffer loop appends the chunks of the faces before the first oversized one and returns its exception, if any. |
| WriterApi.LimaWriterAPI.FaceStop | GMDSCEA/src/LimaWriterAPI.cpp:294-296 | When the loop meets an oversized face, the records already sent are exactly the completed chunks, and the exception is the face message. |
| WriterApi.LimaWriterAPI.PutFace | GMDSCEA/src/LimaWriterAPI.cpp:284-304 | After storing one face, currentIndex is the sum of the pending faces' node counts and stays ≤ 15 · chunkSize. nbNodesPerFace[k] is face k's node count. |
| WriterApi.LimaWriterAPI.PutConnectivity | GMDSCEA/src/LimaWriterAPI.cpp:297-301 | Appends the cell's nodes + 1 right after the connectivity already buffered. |
| WriterApi.LimaWriterAPI.WriteRegions | GMDSCEA/src/LimaWriterAPI.cpp:335-437 | Appends the region header and the chunks of the regions that reach the file, and returns RegionError. |
| WriterApi.LimaWriterAPI.ScanRegions | GMDSCEA/src/LimaWriterAPI.cpp:338-359 | The header carries the contiguity of the region ids, the count and the first id + 1. |
| WriterApi.LimaWriterAPI.StreamRegions | GMDSCEA/src/LimaWriterAPI.cpp:365-432 | The buffer loop appends the chunks of the regions before the first rejected one, with their Lima types, and returns its exception, if any. |
| WriterApi.LimaWriterAPI.RegionStop | GMDSCEA/src/LimaWriterAPI.cpp:382-401 | When the loop meets a rejected region, the records already sent are exactly the completed chunks, and the exception is that region's message. |
| WriterApi.LimaWriterAPI.PutRegion | GMDSCEA/src/LimaWriterAPI.cpp:399-409 | Storing one region keeps the buffers equal to the pending entries, and currentIndex stays ≤ 15 · chunkSize. |
| WriterApi.LimaWriterAPI.GroupInfo | GMDSCEA/src/LimaWriterAPI.cpp:444-451 | The names and sizes sent in a group header are the groups' names and member counts, in order. |
| WriterApi.LimaWriterAPI.WriteClouds | GMDSCEA/src/LimaWriterAPI.cpp:440-499 | Appends the cloud header and every cloud's member chunks (CloudStream). |
| WriterApi.LimaWriterAPI.StreamIdSet | GMDSCEA/src/LimaWriterAPI.cpp:466-496 | For one group, the buffer loop appends the chunks of its members + 1. The buffer starts empty for each group. |
| WriterApi.LimaWriterAPI.WriteLines | GMDSCEA/src/LimaWriterAPI.cpp:502-561 | Appends the line header and every line's member chunks (LineStream). |
| WriterApi.LimaWriterAPI.WriteSurfaces | GMDSCEA/src/LimaWriterAPI.cpp:564-625 | Appends the surface header and every surface's member chunks with their faces' node counts (SurfaceStream). |
| WriterApi.LimaWriterAPI.StreamSurface | GMDSCEA/src/LimaWriterAPI.cpp:591-623 | For one surface, the buffer loop appends the chunks of its members' entries (id + 1 and node count). |
| WriterApi.LimaWriterAPI.WriteVolumes | GMDSCEA/src/LimaWriterAPI.cpp:628-704 | Appends the volume header and the volume chunks up to the first unmapped member, and returns VolumeError. |
| WriterApi.LimaWriterAPI.StreamVolumes | GMDSCEA/src/LimaWriterAPI.cpp:655-702 | The volume loop appends the chunks of the volumes reached and returns the cell-type exception if a member is unmapped. |
| WriterApi.LimaWriterAPI.VolumeAdvance | GMDSCEA/src/LimaWriterAPI.cpp:655-677 | Writing volume i either extends the run of mapped volumes or ends writeVolumes with the cell-type message after volume i's own chunks. |
| WriterApi.LimaWriterAPI.StreamVolume | GMDSCEA/src/LimaWriterAPI.cpp:658-701 | For one volume, the member loop appends the chunks of the members before the first unmapped one, with their Lima types. It raises the cell-type message exactly when such a member exists. |
| LegacyWriter.NodeTable | GMDSCEA/inc/GMDSCEA/LimaWriter.h:39-50 | nodes_connection_ has max id + 1 slots (1 for an empty mesh), so every node id indexes inside it. |
| LegacyWriter.NodeTableLayout | GMDSCEA/inc/GMDSCEA/LimaWriter.h:86-94 | With distinct ids, slot id holds the Lima node of that mesh node: id + 1 and the same coordinates. |
| LegacyWriter.ConnectAt | GMDSCEA/inc/GMDSCEA/LimaWriter.h:86-94 | After the node loop, each node's slot holds its own Lima node, whatever the table held before. |
| LegacyWriter.TranslateShifted | GMDSCEA/inc/GMDSCEA/LimaWriter.h:121-124 | Looking node ids up in the table gives exactly those ids + 1. |
| LegacyWriter.PolygonesShifted | GMDSCEA/inc/GMDSCEA/LimaWriter.h:151-223 | The polygons added are the faces Lima can take, in order, with id + 1 and nodes + 1. |
| LegacyWriter.BrasShifted | GMDSCEA/inc/GMDSCEA/LimaWriter.h:114-125 | The bras added are the edges in order, with id + 1 and both ends + 1 (the ends are looked up through the node table). |
| LegacyWriter.PolyedresShifted | GMDSCEA/inc/GMDSCEA/LimaWriter.h:254-436 | The polyhedra added are the regions Lima can take, in order, with id + 1 and nodes + 1. |
| LegacyWriter.CloudSetsShifted | GMDSCEA/inc/GMDSCEA/LimaWriter.h:97-108 | One nuage per cloud, with the same name and, through the table, its members + 1. |
| LegacyWriter.ResolveSets | GMDSCEA/inc/GMDSCEA/LimaWriter.h:128-141 | Each group becomes a Lima set with the same name and members + 1. The first member whose id + 1 is not among the elements ends the loop with that group's lookup failure. |
| LegacyWriter.ValidMeshFits | GMDSCEA/inc/GMDSCEA/LimaWriter.h:39-50 | For a valid mesh, every table access that write makes (nodes, edge ends, face and region nodes, cloud members) is in range. |
| LegacyWriter.AfterEdgesShape | GMDSCEA/inc/GMDSCEA/LimaWriter.h:52-58 | After writeNodes and the gated writeEdges, the Maillage holds the unit, every node and cloud, and the edges and lines only when both models have E. |
| LegacyWriter.AfterFacesShape | GMDSCEA/inc/GMDSCEA/LimaWriter.h:60-61 | Faces and surfaces are added only when both models have F, and nothing else changes. |
| LegacyWriter.AfterRegionsShape | GMDSCEA/inc/GMDSCEA/LimaWriter.h:63-64 | Regions and volumes are added only when both models have R, and nothing else changes. |
| LegacyWriter.LegacySaved | GMDSCEA/inc/GMDSCEA/LimaWriter.h:36-79 | A saved file has the given name, SUFFIXE, mesh 1 and the compaction flag. Its dimension is D2 exactly for DIM2 meshes. It holds every node and cloud, plus each gated kind with its groups. |
| LegacyWriter.LegacyWritable | GMDSCEA/inc/GMDSCEA/LimaWriter.h:52-70 | For a valid mesh whose faces and regions all have a Lima arity, no group lookup fails and the file is saved. |
| LegacyWriter.EdgesFound | GMDSCEA/inc/GMDSCEA/LimaWriter.h:128-141 | Every line member is found among the bras just added. |
| LegacyWriter.FacesFound | GMDSCEA/inc/GMDSCEA/LimaWriter.h:227-241 | When Lima takes every face, every surface member is found among the polygons just added. |
| LegacyWriter.RegionsFound | GMDSCEA/inc/GMDSCEA/LimaWriter.h:439-453 | When Lima takes every region, every volume member is found among the polyhedra just added. |
| LegacyWriter.LimaWriter.constructor | GMDSCEA/inc/GMDSCEA/LimaWriter.h:20-22 | A new writer has unit 1 and an empty node table. |
| LegacyWriter.LimaWriter.SetLengthUnit | GMDSCEA/inc/GMDSCEA/LimaWriter.h:30-33 | Sets the unit and leaves the table alone. |
| LegacyWriter.LimaWriter.Write | GMDSCEA/inc/GMDSCEA/LimaWriter.h:36-79 | Leaves nodes_connection_ as the node table and returns LegacyOutcome: the saved file, or the first failed lookup. |
| LegacyWriter.LimaWriter.WriteNodes | GMDSCEA/inc/GMDSCEA/LimaWriter.h:82-111 | Stores each node's Lima node at its id and adds the nodes and clouds. |
| LegacyWriter.LimaWriter.WriteEdges | GMDSCEA/inc/GMDSCEA/LimaWriter.h:114-144 | Adds one bras per edge between its ends' table slots, then the lines (WithEdges). |
| LegacyWriter.LimaWriter.WriteFaces | GMDSCEA/inc/GMDSCEA/LimaWriter.h:147-244 | Adds one polygon per face Lima takes, by its arity, then the surfaces (WithFaces). |
| LegacyWriter.LimaWriter.WriteRegions | GMDSCEA/inc/GMDSCEA/LimaWriter.h:247-455 | Adds one polyhedron per region Lima takes, by its arity, then the volumes (WithRegions). |
| Reader.StoreHits | GMDSCEA/inc/GMDSCEA/LimaReader.h:75-80 | After the populate loop, the slot of every stored id holds a real element. |
| Reader.StoreKeeps | GMDSCEA/inc/GMDSCEA/LimaReader.h:75-80 | A slot that no file id names keeps its value. |
| Reader.StoreAt | GMDSCEA/inc/GMDSCEA/LimaReader.h:75-80 | With distinct file ids, slot id − 1 holds exactly the element created for that id. |
| Reader.NodeTableLayout | GMDSCEA/inc/GMDSCEA/LimaReader.h:68-80 | nodes_connection_ is sized to the largest file node id. The node with file id k is stored at k − 1, as the k-th new GMDS node. |
| Reader.NodeTableKeeps | GMDSCEA/inc/GMDSCEA/LimaReader.h:73-80 | Slots no file node names keep their old value, or NullID past the old size. |
| Reader.NodeTableResolves | GMDSCEA/inc/GMDSCEA/LimaReader.h:68-80 | In a well-formed file, every node that an element or cloud refers to has been read into the table. |
| Reader.NodesStageLayout | GMDSCEA/inc/GMDSCEA/LimaReader.h:65-95 | readNodes appends one GMDS node per file node, with its coordinates and the next id, and one cloud per nuage, with the same name and the members looked up at id − 1. Everything before is kept. |
| Reader.PolygonsReadCount | GMDSCEA/inc/GMDSCEA/LimaReader.h:147-194 | The switch builds one face per polygon with 3 to 6 vertices, with consecutive ids. |
| Reader.PolyhedraReadCount | GMDSCEA/inc/GMDSCEA/LimaReader.h:224-302 | The switch builds one region per polyhedron with 4, 5, 6 or 8 vertices, with consecutive ids. |
| Reader.PolygonsReadSlots | GMDSCEA/inc/GMDSCEA/LimaReader.h:147-194 | Slot k is NullID exactly for polygons with another vertex count. Otherwise it is the face built from polygon k: type by count, nodes looked up at id − 1. |
| Reader.PolyhedraReadSlots | GMDSCEA/inc/GMDSCEA/LimaReader.h:224-302 | The same as above for the polyhedra that do not throw. |
| Reader.EdgesStageCounts | GMDSCEA/inc/GMDSCEA/LimaReader.h:98-131 | readEdges adds one edge per bras and one line per ligne, and changes nothing else. |
| Reader.FacesStageCounts | GMDSCEA/inc/GMDSCEA/LimaReader.h:134-208 | readFaces adds one face per polygon with 3 to 6 vertices and one surface per surface, and changes nothing else. |
| Reader.RegionsStageCounts | GMDSCEA/inc/GMDSCEA/LimaReader.h:211-317 | readRegions throws exactly when some polyhedron has 10 or 12 vertices, with the Prism5 or Prism6 message, and then reads no volume. Otherwise it adds the 4/5/6/8-vertex regions and every volume. |
| Reader.ReadCounts | GMDSCEA/inc/GMDSCEA/LimaReader.h:42-62 | read always reads every node and nuage. It reads each other kind and its groups exactly when both models have it, and throws exactly when regions are read and one has 10 or 12 vertices. |
| Reader.LimaReader.constructor | GMDSCEA/inc/GMDSCEA/LimaReader.h:26-28 | A new reader has unit 1 and an empty node table. |
| Reader.LimaReader.GetLengthUnit | GMDSCEA/inc/GMDSCEA/LimaReader.h:36-39 | Returns the current unit. |
| Reader.LimaReader.Read | GMDSCEA/inc/GMDSCEA/LimaReader.h:42-62 | A file Lima cannot load raises "Lima cannot read the file" + its name and changes nothing. Otherwise the unit is the file's, and the mesh, table and exception are ReadSpec. |
| Reader.LimaReader.ReadNodes | GMDSCEA/inc/GMDSCEA/LimaReader.h:65-95 | The mesh and nodes_connection_ become NodesStage. |
| Reader.LimaReader.ReadEdges | GMDSCEA/inc/GMDSCEA/LimaReader.h:98-131 | The mesh becomes EdgesStage, and the node table is unchanged. |
| Reader.LimaReader.ReadFaces | GMDSCEA/inc/GMDSCEA/LimaReader.h:134-208 | The mesh becomes FacesStage, and the node table is unchanged. |
| Reader.LimaReader.ReadRegions | GMDSCEA/inc/GMDSCEA/LimaReader.h:211-317 | The mesh and exception become RegionsStage. The regions built before an exception stay. |
| Reader.LimaReader.BuildNodes | GMDSCEA/inc/GMDSCEA/LimaReader.h:68-80 | The max loop, the resize and the populate loop give the new nodes and the table that stores node k's GMDS id at file id − 1. |
| Reader.LimaReader.BuildEdges | GMDSCEA/inc/GMDSCEA/LimaReader.h:100-115 | The same for bras, in a fresh edge table. |
| Reader.LimaReader.BuildFaces | GMDSCEA/inc/GMDSCEA/LimaReader.h:137-194 | The same for polygons, through the vertex-count switch. |
| Reader.LimaReader.BuildRegions | GMDSCEA/inc/GMDSCEA/LimaReader.h:214-302 | The same for polyhedra, stopping at the first with 10 or 12 vertices. |
| Reader.LimaReader.ReadGroups | GMDSCEA/inc/GMDSCEA/LimaReader.h:82-93 | One group per file set, with the same name and member count, each member looked up at id − 1. |
| Dispatcher.RefusedExactlyUnknown | GMDSCEA/src/GMDSCEAWriter.cpp:43-49 | write raises the unknown-extension message with nothing written exactly for SUFFIXE and INCONNU. |
| Dispatcher.ChunkedRoute | GMDSCEA/src/GMDSCEAWriter.cpp:50-62 | MALIPP2 goes to the chunked writer. Its first call carries the unit last set, and its exception is re-raised with the same message. |
| Dispatcher.LegacyRoute | GMDSCEA/src/GMDSCEAWriter.cpp:79-91 | Other formats go to the legacy writer. A saved file carries the unit last set and the file name, and no GMDS exception is raised. |
| Dispatcher.ApiErrorMessages | GMDSCEA/src/GMDSCEAWriter.cpp:57-60 | The only exceptions re-raised from the chunked writer are its face, region and cell-type messages. |
| Dispatcher.GMDSCEAWriter.constructor | GMDSCEA/src/GMDSCEAWriter.cpp:19-23 | The default unit is 1. |
| Dispatcher.GMDSCEAWriter.SetLengthUnit | GMDSCEA/src/GMDSCEAWriter.cpp:30-34 | Sets the unit. |
| Dispatcher.GMDSCEAWriter.Write | GMDSCEA/src/GMDSCEAWriter.cpp:36-93 | The outcome is Dispatched: refused, the chunked writer's records and exception, or the legacy writer's file or lookup failure. |
| RoundTrip.ApiRecordsCarry | GMDSCEA/src/LimaWriterAPI.cpp:43-89 | A write that raises nothing carries the content of ApiMaillage: the unit, the ids of every kind, the edge ends, the face and region vertices, and the members of the clouds, lines, surfaces and volumes, each + 1. |
| RoundTrip.ApiMaillageWellFormed | GMDSCEA/test/LimaAPITest.h:60-69 | The file the chunked writer makes from a valid mesh is one the reader reads without dangling ids. |
| RoundTrip.WriteThenReadCounts | GMDSCEA/test/LimaAPITest.h:60-77 | Writing with the chunked writer and reading into an empty mesh gives back as many nodes and clouds, and as many edges and lines as the models let through. |
| RoundTrip.WriteThenReadFaces | GMDSCEA/test/LimaAPITest.h:60-77 | When faces have 3 to 6 vertices, it gives back as many faces and surfaces as the models let through. |
| RoundTrip.WriteThenReadRegions | GMDSCEA/test/LimaAPITest.h:60-69 | Reading raises nothing and gives back as many regions and volumes as the models let through. |

## Left out

- The Lima library is an abstract sink (`MaliPPWriter2` records its calls) and a value (`Maillage`); its file formats, HDF5 and file I/O are not modelled. Format detection from the file name happens inside Lima, so the detected format is an input of `Dispatcher.GMDSCEAWriter.Write`.
- `Maillage::lire` is an input. The reader receives the loaded `Maillage`, or `None` when the load throws.
- `Lima::write_erreur` and the other exceptions of Lima's own calls (a chunk write, `ecrire`, a failing `bras_id`/`polygone_id`/`polyedre_id` lookup) are not modelled, except for the legacy writer's failed group lookups, which are an outcome (`LookupFailed`).
- The eight `write*Attributes` functions are one call each on Lima. They are modelled only as the `Attributes` records that `write` sends.
- `activateZlibCompression` is an empty stub, and the compaction flag is only passed through.
- Logging to `std::cerr`/`std::cout`, including the legacy writer's messages for skipped shapes, is not modelled.
- Buffer allocation and release (`new`/`delete`) are replaced by arrays of the buffer sizes.
- Coordinates and the length unit are `real` values that are only copied.
- Reader.LimaReader.Read: requires a well-formed file (positive ids, no dangling references), because the code indexes its tables unchecked and a dangling id is undefined behaviour rather than an error.
- WriterApi.LimaWriterAPI.Write: requires surface members to name faces, because `mesh_.get<Face>` on a missing id is undefined behaviour in GMDS.
- LegacyWriter.LimaWriter.Write: requires a valid mesh (connectivity and group members refer to existing ids, fixed shapes have their node count), because the table accesses are unchecked.
- Dispatcher.GMDSCEAWriter.Write: requires a valid mesh whenever a writer is chosen, for the same reason.
- GMDS ids given by `newNode`, `newEdge`, `newTriangle` and the others are modelled as the running count of that kind. GMDS's own id allocation is not part of this model.
- `NullID` is −1 and a default Lima node is all zeros. The GMDS and Lima headers that define them are not part of this model.
- ChunkedStreams.MemberType: a volume member that names no region is treated like a region whose type Lima does not take, so it raises the cell-type exception. The code looks the region up without a check, which is undefined behaviour in GMDS; the model picks the exception instead of adding a precondition.
- The declaration-only headers and the test files are used only for field names and as evidence of the round trip.
