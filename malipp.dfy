/**
 * The chunked Lima writer (Lima::MaliPPWriter2) as a sink: each call the
 * codec makes on it is recorded, in order, as one Record.  Array
 * arguments are recorded as the prefix of the buffer Lima reads.
 */
module MaliPP {

  import opened LimaData

  datatype Record =
    | LengthUnit(unit: real)
    | Dimension(dim: Dim)
    | BeginWrite
    | NodesInfo(isContiguous: bool, count: nat, minID: int)
    | NodesData(count: nat, xs: seq<real>, ys: seq<real>, zs: seq<real>, ids: seq<int>)
    | EdgesInfo(isContiguous: bool, count: nat, minID: int)
    | EdgesData(count: nat, edge2nodes: seq<int>, ids: seq<int>)
    | FacesInfo(isContiguous: bool, count: nat, minID: int)
    | FacesData(count: nat, face2nodes: seq<int>, nbNodes: seq<nat>, ids: seq<int>)
    | RegionsInfo(isContiguous: bool, count: nat, minID: int)
    | RegionsData(count: nat, region2nodes: seq<int>, types: seq<PolyedreType>, ids: seq<int>)
    | NodeSetInfo(count: nat, names: seq<string>, sizes: seq<nat>)
    | NodeSetData(name: string, count: nat, ids: seq<int>)
    | EdgeSetInfo(count: nat, names: seq<string>, sizes: seq<nat>)
    | EdgeSetData(name: string, count: nat, ids: seq<int>)
    | FaceSetInfo(count: nat, names: seq<string>, sizes: seq<nat>)
    | FaceSetData(name: string, count: nat, ids: seq<int>, nbNodes: seq<nat>)
    | RegionSetInfo(count: nat, names: seq<string>, sizes: seq<nat>)
    | RegionSetData(name: string, count: nat, ids: seq<int>, types: seq<PolyedreType>)
    | Attributes(section: Section)
    | Close

  /** The sections whose attributes the writer is asked to store, in the order it is asked. */
  datatype Section = NodeAttrs | EdgeAttrs | FaceAttrs | RegionAttrs
                   | NodeSetAttrs | EdgeSetAttrs | FaceSetAttrs | RegionSetAttrs

  class MaliPPWriter2 {
    const fileName: string
    var records: seq<Record>

    constructor (fileName: string)
      ensures this.fileName == fileName && records == []
    {
      this.fileName := fileName;
      records := [];
    }

    /** One call on the Lima writer. */
    method Emit(r: Record)
      modifies this
      ensures records == old(records) + [r]
    {
      records := records + [r];
    }
  }
}
