/** The entities of the winged half-edge structure (mesh_geometry.py):
    vertices, half-edges and triangles. Each is a record; every reference
    from one entity to another is an integer handle into the arena of the
    mesh that owns it (TriMesh.Mesh). */
module MeshGeometry {
  import opened Outcomes
  import opened Decimal

  /** A point or vector of the unseen `geometry` module. */
  datatype Point = Point(x: real, y: real, z: real)

  /** An RGB colour, the three-element list the program stores. */
  datatype Color = Color(r: real, g: real, b: real)

  /** A vertex object. Its `adj_tris` list lives in the mesh
      (`Mesh.adjTris`), beside the record, under the same handle. */
  datatype Vertex = Vertex(index: nat, loc: Point, color: Color, normal: Option<Point>, subdivided: bool)

  /** A half-edge: its two endpoints (vertex handles), the triangle that
      owns it, its pair across the edge, its successor in the triangle's
      3-cycle, and the two child half-edges a subdivision pass stores in
      its `subdivision` slot (handles into the NEXT mesh's arena). */
  datatype HalfEdge = HalfEdge(
    v0: nat, v1: nat,
    tri: Option<nat>, pair: Option<nat>, next: Option<nat>,
    sub0: Option<nat>, sub1: Option<nat>)

  /** A triangle: its index field, its three corners, the traversal flag
      and its three half-edges. */
  datatype Triangle = Triangle(index: nat, verts: seq<nat>, visited: bool, edge: seq<Option<nat>>)

  /** vertex.__init__: a fresh vertex is bright purple, has no normal and
      has not been subdivided. */
  function NewVertex(x: real, y: real, z: real, i: nat): (v: Vertex)
    ensures v.index == i && v.loc == Point(x, y, z)
    ensures v.color == Color(1.0, 0.0, 1.0) && v.normal == None && !v.subdivided
  {
    Vertex(i, Point(x, y, z), Color(1.0, 0.0, 1.0), None, false)
  }

  /** triangle.__init__ (apart from the adjacency registration, which
      changes the vertices and is done by Mesh.AddTriangle). */
  function NewTriangle(a: nat, b: nat, c: nat, i: nat): (t: Triangle)
    ensures t.index == i && t.verts == [a, b, c]
    ensures !t.visited && t.edge == [None, None, None]
  {
    Triangle(i, [a, b, c], false, [None, None, None])
  }

  /** edge.__init__: the endpoint with the lower index comes first, so
      that both half-edges of an undirected edge get the same key. */
  function NewEdge(vs: seq<Vertex>, a: nat, b: nat): (e: HalfEdge)
    requires a < |vs| && b < |vs|
    ensures e.v0 < |vs| && e.v1 < |vs| && vs[e.v0].index <= vs[e.v1].index
    ensures (e.v0, e.v1) == (if vs[a].index <= vs[b].index then (a, b) else (b, a))
    ensures e.tri == None && e.pair == None && e.next == None
    ensures e.sub0 == None && e.sub1 == None
  {
    if vs[a].index <= vs[b].index
    then HalfEdge(a, b, None, None, None, None, None)
    else HalfEdge(b, a, None, None, None, None, None)
  }

  predicate EndsIn(vs: seq<Vertex>, e: HalfEdge) {
    e.v0 < |vs| && e.v1 < |vs|
  }

  /** edge.containsVertex: vertices are compared by their index field. */
  predicate ContainsVertex(vs: seq<Vertex>, e: HalfEdge, v: nat)
    requires EndsIn(vs, e) && v < |vs|
  {
    vs[e.v0].index == vs[v].index || vs[e.v1].index == vs[v].index
  }

  /** edge.sharedVertex: the first endpoint of `e` whose index is also an
      endpoint index of `f`; None where the program returns False. */
  function SharedVertex(vs: seq<Vertex>, e: HalfEdge, f: HalfEdge): (r: Option<nat>)
    requires EndsIn(vs, e) && EndsIn(vs, f)
    ensures r.Some? ==> (r.value == e.v0 || r.value == e.v1) && ContainsVertex(vs, f, r.value)
    ensures r.None? <==> !ContainsVertex(vs, f, e.v0) && !ContainsVertex(vs, f, e.v1)
    ensures ContainsVertex(vs, f, e.v0) ==> r == Some(e.v0)
  {
    if vs[e.v0].index == vs[f.v0].index || vs[e.v0].index == vs[f.v1].index then Some(e.v0)
    else if vs[e.v1].index == vs[f.v0].index || vs[e.v1].index == vs[f.v1].index then Some(e.v1)
    else None
  }

  /** The text `repr(edge)` gives for endpoint indices i and j. */
  function KeyString(i: nat, j: nat): string {
    NatToString(i) + " " + NatToString(j)
  }

  /** The two endpoint indices of an edge, lower first: what its
      `__repr__` spells out. */
  function EdgeKey(vs: seq<Vertex>, e: HalfEdge): (nat, nat)
    requires EndsIn(vs, e)
  {
    (vs[e.v0].index, vs[e.v1].index)
  }

  /** edge.__repr__, the key of the mesh's edge dictionary. */
  function EdgeRepr(vs: seq<Vertex>, e: HalfEdge): (s: string)
    requires EndsIn(vs, e)
    ensures ParseKey(s) == Some(EdgeKey(vs, e))
  {
    KeyRoundTrip(EdgeKey(vs, e).0, EdgeKey(vs, e).1);
    KeyString(EdgeKey(vs, e).0, EdgeKey(vs, e).1)
  }

  /** The position of the first space in s at or after k (|s| if none). */
  function FirstSpace(s: string, k: nat): (p: nat)
    requires k <= |s|
    ensures k <= p <= |s|
    decreases |s| - k
  {
    if k == |s| || s[k] == ' ' then k else FirstSpace(s, k + 1)
  }

  /** Reads the two indices back out of a key. */
  function ParseKey(s: string): Option<(nat, nat)> {
    var p := FirstSpace(s, 0);
    if p < |s| && AllDigits(s[..p]) && AllDigits(s[p + 1..])
    then Some((StringToNat(s[..p]), StringToNat(s[p + 1..])))
    else None
  }

  lemma {:induction false} FirstSpaceAfterDigits(a: string, b: string, k: nat)
    requires AllDigits(a) && k <= |a|
    ensures FirstSpace(a + " " + b, k) == |a|
    decreases |a| - k
  {
    var s := a + " " + b;
    if k < |a| {
      assert s[k] == a[k];
      FirstSpaceAfterDigits(a, b, k + 1);
    } else {
      assert s[k] == ' ';
    }
  }

  /** A key determines the two indices it was written from. */
  lemma KeyRoundTrip(i: nat, j: nat)
    ensures ParseKey(KeyString(i, j)) == Some((i, j))
  {
    var a, b := NatToString(i), NatToString(j);
    var s := a + " " + b;
    FirstSpaceAfterDigits(a, b, 0);
    assert s[..|a|] == a;
    assert s[|a| + 1..] == b;
    NatStringRoundTrip(i);
    NatStringRoundTrip(j);
  }

  lemma KeyStringInjective(i: nat, j: nat, k: nat, l: nat)
    ensures KeyString(i, j) == KeyString(k, l) ==> i == k && j == l
  {
    KeyRoundTrip(i, j);
    KeyRoundTrip(k, l);
  }

  /** Two edges have the same `__repr__` exactly when they have the same
      endpoint indices, so a dictionary keyed by the text behaves as one
      keyed by the index pair. */
  lemma ReprFaithful(vs: seq<Vertex>, e: HalfEdge, f: HalfEdge)
    requires EndsIn(vs, e) && EndsIn(vs, f)
    ensures EdgeRepr(vs, e) == EdgeRepr(vs, f) <==> EdgeKey(vs, e) == EdgeKey(vs, f)
  {
    KeyStringInjective(EdgeKey(vs, e).0, EdgeKey(vs, e).1, EdgeKey(vs, f).0, EdgeKey(vs, f).1);
  }

  /** Two edges built over the same pair of vertices, in either order,
      get the same key: the lower index, a space, the higher index. */
  lemma NewEdgeKeyIsCanonical(vs: seq<Vertex>, a: nat, b: nat)
    requires a < |vs| && b < |vs|
    ensures EdgeRepr(vs, NewEdge(vs, a, b)) == EdgeRepr(vs, NewEdge(vs, b, a))
    ensures var lo, hi := vs[a].index, vs[b].index;
            EdgeRepr(vs, NewEdge(vs, a, b)) ==
              if lo <= hi then KeyString(lo, hi) else KeyString(hi, lo)
  {
  }

  /** Edges with equal keys have the same endpoint indices, so they agree
      on which vertices they contain. */
  lemma SameKeySameEnds(vs: seq<Vertex>, e: HalfEdge, f: HalfEdge)
    requires EndsIn(vs, e) && EndsIn(vs, f) && EdgeRepr(vs, e) == EdgeRepr(vs, f)
    ensures vs[e.v0].index == vs[f.v0].index && vs[e.v1].index == vs[f.v1].index
    ensures forall v :: 0 <= v < |vs| ==> (ContainsVertex(vs, e, v) <==> ContainsVertex(vs, f, v))
  {
    ReprFaithful(vs, e, f);
  }

  /** A new edge contains both vertices it was built from. */
  lemma NewEdgeContainsEnds(vs: seq<Vertex>, a: nat, b: nat)
    requires a < |vs| && b < |vs|
    ensures ContainsVertex(vs, NewEdge(vs, a, b), a) && ContainsVertex(vs, NewEdge(vs, a, b), b)
  {
  }

  // ---- well-formedness of handles, used by Mesh.Valid ----

  predicate Below(o: Option<nat>, n: nat) {
    o.Some? ==> o.value < n
  }

  predicate AllBelow(hs: seq<nat>, n: nat) {
    forall i :: 0 <= i < |hs| ==> hs[i] < n
  }

  predicate TriangleWired(t: Triangle, nv: nat, ne: nat) {
    |t.verts| == 3 && AllBelow(t.verts, nv) &&
    |t.edge| == 3 && Below(t.edge[0], ne) && Below(t.edge[1], ne) && Below(t.edge[2], ne)
  }

  predicate EdgeWired(e: HalfEdge, nv: nat, nt: nat, ne: nat) {
    e.v0 < nv && e.v1 < nv && Below(e.tri, nt) && Below(e.pair, ne) && Below(e.next, ne)
  }

  // ---- the traversal flag ----

  function VisitedSet(ts: seq<Triangle>): set<nat> {
    set t | 0 <= t < |ts| && ts[t].visited
  }

  function UnvisitedSet(ts: seq<Triangle>): set<nat> {
    set t | 0 <= t < |ts| && !ts[t].visited
  }

  /** Flags only ever go from false to true. */
  predicate VisitedGrows(before: seq<Triangle>, after: seq<Triangle>) {
    |before| == |after| && forall t :: 0 <= t < |before| && before[t].visited ==> after[t].visited
  }

  /** When flags only grow, fewer triangles are left unvisited. */
  lemma UnvisitedShrinks(before: seq<Triangle>, after: seq<Triangle>)
    requires VisitedGrows(before, after)
    ensures UnvisitedSet(after) <= UnvisitedSet(before)
    ensures |UnvisitedSet(after)| <= |UnvisitedSet(before)|
  {
    var a, b := UnvisitedSet(after), UnvisitedSet(before);
    assert a <= b;
    assert b == a + (b - a);
    assert a * (b - a) == {};
  }

  /** Marking one unvisited triangle moves exactly that triangle from the
      unvisited set to the visited set. */
  lemma MarkOneVisited(ts: seq<Triangle>, t: nat, x: Triangle)
    requires t < |ts| && !ts[t].visited && x.visited
    ensures VisitedSet(ts[t := x]) == VisitedSet(ts) + {t}
    ensures t !in VisitedSet(ts)
    ensures |VisitedSet(ts[t := x])| == |VisitedSet(ts)| + 1
    ensures UnvisitedSet(ts[t := x]) == UnvisitedSet(ts) - {t}
    ensures |UnvisitedSet(ts[t := x])| == |UnvisitedSet(ts)| - 1
  {
    var us := ts[t := x];
    assert VisitedSet(us) == VisitedSet(ts) + {t};
    assert UnvisitedSet(us) == UnvisitedSet(ts) - {t};
  }
}
