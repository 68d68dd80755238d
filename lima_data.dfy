/**
 * The Lima side of the codec as values: a Lima::Maillage (what a .mli
 * file holds once loaded) and the tags Lima uses.  Lima identifiers
 * are 1-based; element connectivity refers to nodes by Lima id.
 */
module LimaData {

  import opened Wrappers

  /** Lima::dim_t. */
  datatype Dim = D1 | D2 | D3

  /** Lima::Polyedre::PolyedreType values the chunked writer emits. */
  datatype PolyedreType = TETRAEDRE | PYRAMIDE | PRISME | HEXAEDRE

  /** Lima::format_t, as detected from a file name suffix. */
  datatype Format = SUFFIXE | INCONNU | MALIPP2 | MALIPP | MALI | IDEAS | MODULEF

  /** Lima::Noeud: a node with its Lima id and its coordinates. */
  datatype Noeud = Noeud(id: nat, x: real, y: real, z: real)

  /** Lima::Bras: an edge between two nodes, given by their Lima ids. */
  datatype Bras = Bras(id: nat, n1: nat, n2: nat)

  /** Lima::Polygone: a face whose node count is the length of its node list. */
  datatype Polygone = Polygone(id: nat, nodes: seq<nat>)

  /** Lima::Polyedre: a region whose node count is the length of its node list. */
  datatype Polyedre = Polyedre(id: nat, nodes: seq<nat>)

  /** Lima::Nuage, Ligne, Surface or Volume: a name and the Lima ids of its members. */
  datatype NamedSet = NamedSet(name: string, members: seq<int>)

  /** Lima::Maillage. `dim` is None while the dimension keeps Lima's default. */
  datatype Maillage = Maillage(
    unit: real,
    dim: Option<Dim>,
    noeuds: seq<Noeud>,
    bras: seq<Bras>,
    polygones: seq<Polygone>,
    polyedres: seq<Polyedre>,
    nuages: seq<NamedSet>,
    lignes: seq<NamedSet>,
    surfaces: seq<NamedSet>,
    volumes: seq<NamedSet>)

  function NoeudIds(ns: seq<Noeud>): (r: seq<nat>)
    ensures |r| == |ns| && forall k :: 0 <= k < |ns| ==> r[k] == ns[k].id
  {
    seq(|ns|, k requires 0 <= k < |ns| => ns[k].id)
  }

  function BrasIds(bs: seq<Bras>): (r: seq<nat>)
    ensures |r| == |bs| && forall k :: 0 <= k < |bs| ==> r[k] == bs[k].id
  {
    seq(|bs|, k requires 0 <= k < |bs| => bs[k].id)
  }

  function PolygoneIds(ps: seq<Polygone>): (r: seq<nat>)
    ensures |r| == |ps| && forall k :: 0 <= k < |ps| ==> r[k] == ps[k].id
  {
    seq(|ps|, k requires 0 <= k < |ps| => ps[k].id)
  }

  function PolyedreIds(ps: seq<Polyedre>): (r: seq<nat>)
    ensures |r| == |ps| && forall k :: 0 <= k < |ps| ==> r[k] == ps[k].id
  {
    seq(|ps|, k requires 0 <= k < |ps| => ps[k].id)
  }

  function SetSizes(gs: seq<NamedSet>): (r: seq<nat>)
    ensures |r| == |gs| && forall k :: 0 <= k < |gs| ==> r[k] == |gs[k].members|
  {
    seq(|gs|, k requires 0 <= k < |gs| => |gs[k].members|)
  }

  /** A freshly constructed Lima::Maillage whose length unit has been set. */
  function EmptyMaillage(unit: real): (m: Maillage)
    ensures m.unit == unit && m.dim.None?
    ensures m.noeuds == [] && m.bras == [] && m.polygones == [] && m.polyedres == []
    ensures m.nuages == [] && m.lignes == [] && m.surfaces == [] && m.volumes == []
  {
    Maillage(unit, None, [], [], [], [], [], [], [], [])
  }
}
