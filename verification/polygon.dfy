/** A planar polygon with holes (Polygon): an outer loop and any number of
    inner loops. Vertices are numbered through all loops in order, the outer
    loop first. */
module Polygon {
  import opened Errors
  import opened Math

  /** A vertex in the parameter plane. */
  type Point2 = (real, real)

  type Path = seq<Point2>

  datatype Polygon = Polygon(outerPath: Path, innerPaths: seq<Path>)

  /** All loops of the polygon, the outer one first. */
  function Loops(p: Polygon): (loops: seq<Path>)
    ensures |loops| == |p.innerPaths| + 1 && loops[0] == p.outerPath
    ensures forall l :: 1 <= l < |loops| ==> loops[l] == p.innerPaths[l - 1]
  {
    [p.outerPath] + p.innerPaths
  }

  /** The vertices of all loops in global order. */
  function Vertices(p: Polygon): seq<Point2>
  {
    Flatten(Loops(p))
  }

  /** Global index of the first vertex of loop l. */
  function Offset(p: Polygon, l: nat): nat
    requires l <= |p.innerPaths| + 1
  {
    |Flatten(Loops(p)[..l])|
  }

  /** nb_loops: the outer loop plus the inner ones. */
  function NbLoops(p: Polygon): (n: int)
    ensures n >= 1 && n == |Loops(p)|
  {
    |p.innerPaths| + 1
  }

  /** nb_vertices_of_loop: loop 0 is the outer loop. The index is not
      checked, so it must name a loop. */
  function NbVerticesOfLoop(p: Polygon, index: int): (n: int)
    requires 0 <= index < NbLoops(p)
    ensures n == |Loops(p)[index]|
  {
    if index == 0 then |p.outerPath| else |p.innerPaths[index - 1]|
  }

  /** vertex_of_loop: neither index is checked. */
  function VertexOfLoop(p: Polygon, loopIndex: int, vertexIndex: int): (v: Point2)
    requires 0 <= loopIndex < NbLoops(p) && 0 <= vertexIndex < NbVerticesOfLoop(p, loopIndex)
    ensures v == Loops(p)[loopIndex][vertexIndex]
  {
    if loopIndex == 0 then p.outerPath[vertexIndex] else p.innerPaths[loopIndex - 1][vertexIndex]
  }

  /** nb_vertices as written: the outer count plus each inner count in turn. */
  method NbVertices(p: Polygon) returns (n: int)
    ensures n == |Vertices(p)|
    ensures n == Offset(p, NbLoops(p))
  {
    var loops := Loops(p);
    n := |p.outerPath|;
    FlattenStep(loops, 0);
    assert loops[..0] == [];
    var k := 0;
    while k < |p.innerPaths|
      invariant 0 <= k <= |p.innerPaths|
      invariant n == |Flatten(loops[..k + 1])|
    {
      FlattenStep(loops, k + 1);
      n := n + |p.innerPaths[k]|;
      k := k + 1;
    }
    assert loops[..k + 1] == loops;
  }

  /** What vertex(index) returns: the vertex at that global position, or
      the bare exception when there is none. */
  function VertexAt(p: Polygon, index: int): (r: Result<Point2>)
    ensures r.Success? <==> 0 <= index < |Vertices(p)|
    ensures r.Failure? ==> r.error == GenericException
  {
    if 0 <= index < |Vertices(p)| then Success(Vertices(p)[index]) else Failure(GenericException)
  }

  /** vertex as written. Each comparison is between the signed index and an
      unsigned size, so a negative index never compares below a size and
      falls through to the exception. */
  method Vertex(p: Polygon, index: int) returns (r: Result<Point2>)
    ensures r == VertexAt(p, index)
  {
    var loops := Loops(p);
    FlattenStep(loops, 0);
    assert loops[..0] == [];
    if 0 <= index < |p.outerPath| {
      FlattenAt(loops, 0, index);
      return Success(p.outerPath[index]);
    }
    var offset := |p.outerPath|;
    var k := 0;
    while k < |p.innerPaths|
      invariant 0 <= k <= |p.innerPaths|
      invariant offset == |Flatten(loops[..k + 1])|
      invariant index < 0 || offset <= index
    {
      var path := p.innerPaths[k];
      if 0 <= index < offset + |path| {
        FlattenAt(loops, k + 1, index - offset);
        return Success(path[index - offset]);
      }
      FlattenStep(loops, k + 1);
      offset := offset + |path|;
      k := k + 1;
    }
    assert loops[..k + 1] == loops;
    r := Failure(GenericException);
  }

  /** Global numbering and per-loop numbering agree: vertex i of loop l is
      global vertex Offset(l) + i. */
  lemma VertexAtOffset(p: Polygon, l: nat, i: nat)
    requires l < NbLoops(p) && i < NbVerticesOfLoop(p, l)
    ensures VertexAt(p, Offset(p, l) + i) == Success(VertexOfLoop(p, l, i))
  {
    FlattenAt(Loops(p), l, i);
  }

  /** Every loop starts where the previous one ends. */
  lemma OffsetStep(p: Polygon, l: nat)
    requires l < NbLoops(p)
    ensures Offset(p, l + 1) == Offset(p, l) + NbVerticesOfLoop(p, l)
  {
    FlattenStep(Loops(p), l);
  }
}
