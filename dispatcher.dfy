/**
 * GMDSCEAWriter: the entry point that picks a Lima writer from the format
 * Lima detects in the file name.  The chunked format goes to
 * LimaWriterAPI, an unknown suffix is refused, and every other format goes
 * to the legacy LimaWriter.  The length unit last set is handed to the
 * chosen writer; a GMDS exception the writer raises is raised again with
 * the same message.
 */
module Dispatcher {

  import opened Wrappers
  import opened GmdsMesh
  import opened LimaData
  import opened MaliPP
  import opened Shapes
  import opened ChunkedStreams
  import opened ApiStream
  import opened WriterApi
  import opened LegacyWriter

  const MSG_UNKNOWN_EXTENSION: string := "GMDSCEAWriter::write Extension de fichier inconnue\n"

  /** Which writer write() uses for a detected format. */
  datatype Route = Refuse | Chunked | Legacy

  function RouteOf(format: Format): Route
  {
    match format
    case SUFFIXE => Refuse
    case INCONNU => Refuse
    case MALIPP2 => Chunked
    case _ => Legacy
  }

  /** The exception write() ends with: a GMDS exception, or a Lima one from a failed member lookup. */
  datatype Raised = GmdsError(msg: string) | LimaLookupError(setName: string)

  /** What reached Lima: nothing, the calls on the chunked writer, or the Maillage the legacy writer saved. */
  datatype Written = Nothing | Streamed(records: seq<Record>) | Filed(file: LimaFile)

  datatype Outcome = Outcome(written: Written, raised: Option<Raised>)

  /** What the chunked writer's write() leaves: its records and, re-raised, its exception. */
  function ChunkedOutcome(m: Mesh, unit: real): Outcome
  {
    Outcome(Streamed(ApiRecords(m, unit)), if ApiError(m).Some? then Some(GmdsError(ApiError(m).value)) else None)
  }

  /** What the legacy writer's write() leaves: the saved file, or the lookup exception passing through. */
  function LegacyResult(m: Mesh, model: MeshModel, unit: real, fileName: string, compact: int): Outcome
    requires ValidMesh(m)
  {
    match LegacyOutcome(m, model, unit, fileName, compact)
    case Saved(file) => Outcome(Filed(file), None)
    case LookupFailed(name) => Outcome(Nothing, Some(LimaLookupError(name)))
  }

  /** Writers need the mesh they write to be valid; a refused format touches nothing. */
  predicate Writable(m: Mesh, format: Format)
  {
    RouteOf(format) != Refuse ==> ValidMesh(m)
  }

  function Dispatched(m: Mesh, format: Format, model: MeshModel, unit: real, fileName: string, compact: int): Outcome
    requires Writable(m, format)
  {
    match RouteOf(format)
    case Refuse => Outcome(Nothing, Some(GmdsError(MSG_UNKNOWN_EXTENSION)))
    case Chunked => ChunkedOutcome(m, unit)
    case Legacy => LegacyResult(m, model, unit, fileName, compact)
  }

  // ----- what the dispatch promises -----

  /**
   * write() refuses exactly the unknown suffixes, with the unknown-extension
   * message, and then nothing reaches Lima.
   */
  lemma RefusedExactlyUnknown(m: Mesh, format: Format, model: MeshModel, unit: real, fileName: string, compact: int)
    requires Writable(m, format)
    ensures var o := Dispatched(m, format, model, unit, fileName, compact);
      (o.raised == Some(GmdsError(MSG_UNKNOWN_EXTENSION)) && o.written == Nothing) <==> format in {SUFFIXE, INCONNU}
  {
    var o := Dispatched(m, format, model, unit, fileName, compact);
    if RouteOf(format) == Chunked {
      ApiCloses(m, unit);
      if ApiError(m).Some? {
        assert ApiError(m).value != MSG_UNKNOWN_EXTENSION by {
          ApiErrorMessages(m);
        }
      }
    }
  }

  /**
   * MALIPP2 goes to the chunked writer: the unit set last is the first call
   * it receives, and its exception comes back with the same message.
   */
  lemma ChunkedRoute(m: Mesh, model: MeshModel, unit: real, fileName: string, compact: int)
    requires ValidMesh(m)
    ensures var o := Dispatched(m, MALIPP2, model, unit, fileName, compact);
      && o.written.Streamed? && o.written.records[0] == LengthUnit(unit)
      && (o.raised.None? <==> ApiError(m).None?)
      && (o.raised.Some? ==> o.raised == Some(GmdsError(ApiError(m).value)))
      && (o.raised.None? <==> Close in o.written.records)
  {
    ApiCloses(m, unit);
  }

  /**
   * Any other known format goes to the legacy writer: a saved Maillage
   * carries the unit set last and the file name, and no GMDS exception is
   * raised.
   */
  lemma LegacyRoute(m: Mesh, format: Format, model: MeshModel, unit: real, fileName: string, compact: int)
    requires ValidMesh(m) && format !in {SUFFIXE, INCONNU, MALIPP2}
    ensures var o := Dispatched(m, format, model, unit, fileName, compact);
      && (o.written.Filed? <==> o.raised.None?)
      && (o.written.Filed? ==> o.written.file.content.unit == unit && o.written.file.name == fileName)
      && (o.raised.Some? ==> o.raised.value.LimaLookupError?)
  {
    ValidMeshFits(m);
    if LegacyOutcome(m, model, unit, fileName, compact).Saved? {
      LegacySaved(m, model, unit, fileName, compact);
    }
  }

  /** The exceptions the chunked writer raises: its face, region and volume messages. */
  lemma ApiErrorMessages(m: Mesh)
    requires ApiError(m).Some?
    ensures ApiError(m).value in {MSG_FACE_TOO_MANY, MSG_REGION_TOO_MANY, MSG_CELL_TYPE}
  {
    if FaceError(m.faces).None? && RegionError(m.regions).Some? {
      var b := FirstWhere(m.regions, RegionRejected);
      assert RegionRejection(m.regions[b]) in {MSG_REGION_TOO_MANY, MSG_CELL_TYPE};
    }
  }

  class GMDSCEAWriter {
    const mesh: Mesh
    /** lenghtUnit_: the unit handed to the chosen writer. */
    var lengthUnit: real

    constructor (mesh: Mesh)
      ensures this.mesh == mesh && lengthUnit == 1.0
    {
      this.mesh := mesh;
      lengthUnit := 1.0;
    }

    method SetLengthUnit(unit: real)
      modifies this
      ensures lengthUnit == unit
    {
      lengthUnit := unit;
    }

    /**
     * write: the format is what Lima detects from the file name.  The
     * chosen writer is built here, given the unit, and asked to write.
     */
    method Write(fileName: string, format: Format, model: MeshModel, compact: int) returns (o: Outcome)
      requires Writable(mesh, format)
      ensures o == Dispatched(mesh, format, model, lengthUnit, fileName, compact)
    {
      match RouteOf(format) {
        case Refuse =>
          o := Outcome(Nothing, Some(GmdsError(MSG_UNKNOWN_EXTENSION)));
        case Chunked =>
          var w := new LimaWriterAPI(mesh);
          w.SetLengthUnit(lengthUnit);
          var err := w.Write(fileName, model, compact);
          var raised := if err.Some? then Some(GmdsError(err.value)) else None;
          o := Outcome(Streamed(w.writer.records), raised);
        case Legacy =>
          var w := new LimaWriter(mesh);
          w.SetLengthUnit(lengthUnit);
          var out := w.Write(fileName, model, compact);
          match out {
            case Saved(file) => o := Outcome(Filed(file), None);
            case LookupFailed(name) => o := Outcome(Nothing, Some(LimaLookupError(name)));
          }
      }
    }
  }
}
