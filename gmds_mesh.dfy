/**
 * The GMDS in-memory mesh (IGMesh) as a value: cells of each kind in
 * iteration order, and the four kinds of named groups.  Identifiers are
 * 0-based and need be neither contiguous nor sorted.
 */
module GmdsMesh {

  import opened Wrappers

  /** GMDS cell types (ECellType) that the codec distinguishes. */
  datatype CellType =
    | GNode | GEdge
    | Triangle | Quad | Polygon
    | Tetra | Pyramid | Prism3 | Hex | Prism5 | Prism6 | Polyhedra

  /** Flags of a GMDS MeshModel: dimension, cell kinds and adjacencies. */
  datatype ModelFlag = DIM2 | DIM3 | N | E | F | R | E2N | F2N | R2N

  type MeshModel = set<ModelFlag>

  /** The identifier GMDS gives to a null (default-constructed) cell handle. */
  const NullID: int := -1

  datatype MeshNode = MeshNode(id: nat, x: real, y: real, z: real)

  /** An edge always joins exactly two nodes. */
  datatype MeshEdge = MeshEdge(id: nat, n1: nat, n2: nat)

  /** A face or a region: its id, its ordered node ids and its type. */
  datatype Cell = Cell(id: nat, nodes: seq<nat>, kind: CellType)

  /** A named group: cloud (nodes), line (edges), surface (faces) or volume (regions). */
  datatype Group = Group(name: string, cells: seq<int>)

  datatype Mesh = Mesh(
    model: MeshModel,
    dim: nat,
    nodes: seq<MeshNode>,
    edges: seq<MeshEdge>,
    faces: seq<Cell>,
    regions: seq<Cell>,
    clouds: seq<Group>,
    lines: seq<Group>,
    surfaces: seq<Group>,
    volumes: seq<Group>)

  function NodeIds(ns: seq<MeshNode>): (r: seq<nat>)
    ensures |r| == |ns| && forall k :: 0 <= k < |ns| ==> r[k] == ns[k].id
  {
    seq(|ns|, k requires 0 <= k < |ns| => ns[k].id)
  }

  function EdgeIds(es: seq<MeshEdge>): (r: seq<nat>)
    ensures |r| == |es| && forall k :: 0 <= k < |es| ==> r[k] == es[k].id
  {
    seq(|es|, k requires 0 <= k < |es| => es[k].id)
  }

  function CellIds(cs: seq<Cell>): (r: seq<nat>)
    ensures |r| == |cs| && forall k :: 0 <= k < |cs| ==> r[k] == cs[k].id
  {
    seq(|cs|, k requires 0 <= k < |cs| => cs[k].id)
  }

  /** The number of nodes a GMDS cell of a fixed shape always has. */
  predicate ShapeConsistent(c: Cell)
  {
    match c.kind
    case Triangle => |c.nodes| == 3
    case Quad => |c.nodes| == 4
    case Tetra => |c.nodes| == 4
    case Pyramid => |c.nodes| == 5
    case Prism3 => |c.nodes| == 6
    case Hex => |c.nodes| == 8
    case Prism5 => |c.nodes| == 10
    case Prism6 => |c.nodes| == 12
    case _ => true
  }

  predicate CellOver(c: Cell, nodeIds: seq<nat>)
  {
    ShapeConsistent(c) && forall n <- c.nodes :: n in nodeIds
  }

  predicate GroupOver(g: Group, ids: seq<nat>)
  {
    forall x <- g.cells :: x in ids
  }

  /**
   * What an IGMesh guarantees its clients: every connectivity and every
   * group member refers to a cell of the mesh, and fixed shapes have
   * their node count.
   */
  predicate ValidMesh(m: Mesh)
  {
    var nodeIds := NodeIds(m.nodes);
    && (forall e <- m.edges :: e.n1 in nodeIds && e.n2 in nodeIds)
    && (forall f <- m.faces :: CellOver(f, nodeIds))
    && (forall r <- m.regions :: CellOver(r, nodeIds))
    && (forall g <- m.clouds :: GroupOver(g, nodeIds))
    && (forall g <- m.lines :: GroupOver(g, EdgeIds(m.edges)))
    && (forall g <- m.surfaces :: GroupOver(g, CellIds(m.faces)))
    && (forall g <- m.volumes :: GroupOver(g, CellIds(m.regions)))
  }

  /** IGMesh::get<Face>/get<Region>: the first cell with the given id. */
  function FindCell(cs: seq<Cell>, id: int): (r: Option<Cell>)
    ensures r.Some? <==> id in CellIds(cs)
    ensures r.Some? ==> r.value in cs && r.value.id == id
  {
    if |cs| == 0 then None
    else if cs[0].id == id then Some(cs[0])
    else
      assert CellIds(cs) == [cs[0].id] + CellIds(cs[1..]);
      FindCell(cs[1..], id)
  }

  /** The empty mesh of a given model, as a reader starts from. */
  function EmptyMesh(model: MeshModel, dim: nat): (m: Mesh)
    ensures m.nodes == [] && m.edges == [] && m.faces == [] && m.regions == []
    ensures m.clouds == [] && m.lines == [] && m.surfaces == [] && m.volumes == []
  {
    Mesh(model, dim, [], [], [], [], [], [], [], [])
  }
}
