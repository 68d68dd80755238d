/**
 * The shape tables: which GMDS cell type and node count each writer can
 * express in Lima, and which GMDS cell the reader builds from a Lima
 * vertex count.
 */
module Shapes {

  import opened Wrappers
  import opened GmdsMesh
  import opened LimaData

  /** Lima::MAX_NOEUDS as used by the chunked writer. */
  const MAX_NODES_PER_CELL: nat := 15

  /**
   * Legacy writer, faces: the number of nodes of the Lima::Polygone built
   * for a GMDS face of type t with n nodes; None when the face is skipped.
   */
  function LegacyFaceArity(t: CellType, n: nat): (a: Option<nat>)
    ensures a.Some? ==> 3 <= a.value <= 6
    ensures t == Polygon ==> (a.Some? <==> 3 <= n <= 6) && (a.Some? ==> a.value == n)
    ensures t !in {Triangle, Quad, Polygon} ==> a.None?
  {
    match t
    case Quad => Some(4)
    case Triangle => Some(3)
    case Polygon => if 3 <= n <= 6 then Some(n) else None
    case _ => None
  }

  /**
   * Legacy writer, regions: the number of nodes of the Lima::Polyedre built
   * for a GMDS region of type t with n nodes; None when the region is skipped.
   */
  function LegacyRegionArity(t: CellType, n: nat): (a: Option<nat>)
    ensures a.Some? ==> a.value in {4, 5, 6, 8, 10, 12}
    ensures t == Polyhedra ==> (a.Some? <==> n in {4, 5, 6, 8, 10, 12}) && (a.Some? ==> a.value == n)
    ensures t !in {Tetra, Pyramid, Prism3, Hex, Prism5, Prism6, Polyhedra} ==> a.None?
  {
    match t
    case Tetra => Some(4)
    case Hex => Some(8)
    case Pyramid => Some(5)
    case Prism3 => Some(6)
    case Prism5 => Some(10)
    case Prism6 => Some(12)
    case Polyhedra => if n in {4, 5, 6, 8, 10, 12} then Some(n) else None
    case _ => None
  }

  /** Chunked writer: the Lima polyhedron type of a GMDS region type, None when Lima cannot take it. */
  function ApiRegionType(t: CellType): (p: Option<PolyedreType>)
    ensures p.Some? <==> t in {Tetra, Pyramid, Prism3, Hex}
  {
    match t
    case Tetra => Some(TETRAEDRE)
    case Pyramid => Some(PYRAMIDE)
    case Prism3 => Some(PRISME)
    case Hex => Some(HEXAEDRE)
    case _ => None
  }

  /** The node count of each Lima polyhedron type. */
  function PolyedreNodeCount(p: PolyedreType): nat
  {
    match p
    case TETRAEDRE => 4
    case PYRAMIDE => 5
    case PRISME => 6
    case HEXAEDRE => 8
  }

  /** Reader, faces: the GMDS face built from a Lima polygon with n vertices; None stores a null face. */
  function ReadFaceType(n: nat): (t: Option<CellType>)
    ensures t.Some? <==> 3 <= n <= 6
    ensures t.Some? ==> t.value in {Triangle, Quad, Polygon}
  {
    if n == 3 then Some(Triangle)
    else if n == 4 then Some(Quad)
    else if n == 5 || n == 6 then Some(Polygon)
    else None
  }

  /** Outcome of the reader's vertex-count switch for one Lima polyhedron. */
  datatype RegionRead = Build(kind: CellType) | NullRegion | NotImplemented(msg: string)

  const MSG_PRISM5: string := "Prism5 type not yet implemented"
  const MSG_PRISM6: string := "Prism6 type not yet implemented"

  /** Reader, regions: the GMDS region built from a Lima polyhedron with n vertices. */
  function ReadRegionType(n: nat): (r: RegionRead)
  {
    if n == 4 then Build(Tetra)
    else if n == 5 then Build(Pyramid)
    else if n == 6 then Build(Prism3)
    else if n == 8 then Build(Hex)
    else if n == 10 then NotImplemented(MSG_PRISM5)
    else if n == 12 then NotImplemented(MSG_PRISM6)
    else NullRegion
  }

  /**
   * The reader builds a region for 4, 5, 6 and 8 vertices, throws for
   * 10 and 12, and stores a null region for any other count.
   */
  lemma ReadRegionTypeCases(n: nat)
    ensures ReadRegionType(n).Build? <==> n in {4, 5, 6, 8}
    ensures ReadRegionType(n).NotImplemented? <==> n in {10, 12}
    ensures ReadRegionType(n).NotImplemented? ==> ReadRegionType(n).msg == (if n == 10 then MSG_PRISM5 else MSG_PRISM6)
    ensures ReadRegionType(n).NullRegion? <==> n !in {4, 5, 6, 8, 10, 12}
  {
  }

  /** Every face the legacy writer emits is read back as a face (a 3- or 4-gon as a triangle or quad). */
  lemma LegacyFaceReadBack(c: Cell)
    requires ShapeConsistent(c) && LegacyFaceArity(c.kind, |c.nodes|).Some?
    ensures LegacyFaceArity(c.kind, |c.nodes|).value == |c.nodes|
    ensures ReadFaceType(|c.nodes|).Some?
    ensures c.kind in {Triangle, Quad} ==> ReadFaceType(|c.nodes|) == Some(c.kind)
  {
  }

  /**
   * A region the legacy writer emits is read back as a region unless it
   * has 10 or 12 nodes, in which case the reader fails.
   */
  lemma LegacyRegionReadBack(c: Cell)
    requires ShapeConsistent(c) && LegacyRegionArity(c.kind, |c.nodes|).Some?
    ensures LegacyRegionArity(c.kind, |c.nodes|).value == |c.nodes|
    ensures |c.nodes| in {4, 5, 6, 8} ==> ReadRegionType(|c.nodes|).Build?
    ensures |c.nodes| in {10, 12} ==> ReadRegionType(|c.nodes|).NotImplemented?
    ensures c.kind in {Tetra, Pyramid, Prism3, Hex} ==> ReadRegionType(|c.nodes|) == Build(c.kind)
  {
  }

  /** A region the chunked writer accepts has its type's node count and is read back with its own type. */
  lemma ApiRegionReadBack(c: Cell)
    requires ShapeConsistent(c) && ApiRegionType(c.kind).Some?
    ensures |c.nodes| == PolyedreNodeCount(ApiRegionType(c.kind).value)
    ensures ReadRegionType(|c.nodes|) == Build(c.kind)
  {
  }
}
