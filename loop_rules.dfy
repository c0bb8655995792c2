/** The weight rules of Loop subdivision (loop_subdivision.py:454-669):
    where a subdivided mesh puts the smoothed copy of an old vertex and the
    new vertex on an old edge. Every rule reads the old mesh only, through
    the values of its arenas. */
module LoopRules {
  import opened Outcomes
  import opened MeshGeometry
  import opened TriMesh
  import opened LoopWeights

  /** Every handle the rules follow names an entity of the old mesh. */
  predicate Wired(vs: seq<Vertex>, adj: seq<seq<nat>>, ts: seq<Triangle>, es: seq<HalfEdge>) {
    |adj| == |vs| &&
    (forall v :: 0 <= v < |adj| ==> AllBelow(adj[v], |ts|)) &&
    TrianglesWired(ts, |vs|, |es|) && EdgesWired(es, |vs|, |ts|)
  }

  lemma WiredTriangle(vs: seq<Vertex>, adj: seq<seq<nat>>, ts: seq<Triangle>, es: seq<HalfEdge>, t: nat)
    requires Wired(vs, adj, ts, es) && t < |ts|
    ensures TriangleWired(ts[t], |vs|, |es|)
  {
  }

  lemma WiredEdge(vs: seq<Vertex>, adj: seq<seq<nat>>, ts: seq<Triangle>, es: seq<HalfEdge>, e: nat)
    requires Wired(vs, adj, ts, es) && e < |es|
    ensures EdgeWired(es[e], |vs|, |ts|, |es|)
  {
  }

  // ---------------------------------------------------------------
  // The edge rule
  // ---------------------------------------------------------------

  /** The first corner in cs that is neither a nor b (vertex objects are
      compared by identity, i.e. by handle). */
  function Opposite(cs: seq<nat>, a: nat, b: nat): (r: Option<nat>)
    ensures r.Some? ==> r.value in cs && r.value != a && r.value != b
    ensures r.None? ==> forall i :: 0 <= i < |cs| ==> cs[i] == a || cs[i] == b
    ensures r.Some? ==> exists i :: 0 <= i < |cs| && cs[i] == r.value && forall j :: 0 <= j < i ==> cs[j] == a || cs[j] == b
  {
    if cs == [] then None
    else if cs[0] != a && cs[0] != b then Some(cs[0])
    else Opposite(cs[1..], a, b)
  }


  /** subdivide_edge: the new vertex on edge e (index 0, as vertex.__init__
      leaves it). A boundary edge (no pair) takes the midpoint of its
      ends; an interior edge also weighs the first corner of each of its
      two triangles that is not one of its ends. */
  function EdgeRule(vs: seq<Vertex>, ts: seq<Triangle>, es: seq<HalfEdge>, e: nat): (r: Result<Vertex>)
    requires TrianglesWired(ts, |vs|, |es|) && EdgesWired(es, |vs|, |ts|) && e < |es|
    ensures r.Ok? ==> r.value.index == 0 && r.value.color == Color(1.0, 0.0, 1.0)
    ensures es[e].pair.None? ==> r.Ok? && r.value.loc == BoundaryMidpoint(vs[es[e].v0].loc, vs[es[e].v1].loc)
    ensures r.Err? <==> es[e].pair.Some? && EdgeFault(vs, ts, es, e).Some?
    ensures r.Err? ==> r.fault == EdgeFault(vs, ts, es, e).value
    ensures es[e].pair.Some? && r.Ok? ==>
              var x := es[e];
              x.tri.Some? && x.tri.value < |ts| && x.pair.value < |es| &&
              var y := es[x.pair.value];
              y.tri.Some? && y.tri.value < |ts| &&
              var f0, f1 := Opposite(ts[x.tri.value].verts, x.v0, x.v1), Opposite(ts[y.tri.value].verts, x.v0, x.v1);
              f0.Some? && f1.Some? && f0.value < |vs| && f1.value < |vs| &&
              r.value.loc == InteriorMidpoint(vs[f0.value].loc, vs[x.v0].loc, vs[x.v1].loc, vs[f1.value].loc)
  {
    assert EdgeWired(es[e], |vs|, |ts|, |es|);
    var x := es[e];
    var p, q := vs[x.v0].loc, vs[x.v1].loc;
    if x.pair.None? then
      var m := BoundaryMidpoint(p, q);
      Ok(NewVertex(m.x, m.y, m.z, 0))
    else
      match EdgeFault(vs, ts, es, e)
      case Some(f) => Err(f)
      case None =>
        var y := es[x.pair.value];
        assert TriangleWired(ts[x.tri.value], |vs|, |es|);
        assert EdgeWired(y, |vs|, |ts|, |es|);
        assert TriangleWired(ts[y.tri.value], |vs|, |es|);
        var f0 := Opposite(ts[x.tri.value].verts, x.v0, x.v1).value;
        var f1 := Opposite(ts[y.tri.value].verts, x.v0, x.v1).value;
        assert f0 < |vs| && f1 < |vs|;
        var m := InteriorMidpoint(vs[f0].loc, p, q, vs[f1].loc);
        Ok(NewVertex(m.x, m.y, m.z, 0))
  }

  /** Why the interior edge rule raises on an edge with a pair: a missing
      triangle, or a triangle whose corners are all ends of the edge. */
  function EdgeFault(vs: seq<Vertex>, ts: seq<Triangle>, es: seq<HalfEdge>, e: nat): Option<Fault>
    requires TrianglesWired(ts, |vs|, |es|) && EdgesWired(es, |vs|, |ts|) && e < |es| && es[e].pair.Some?
  {
    var x := es[e];
    assert EdgeWired(x, |vs|, |ts|, |es|);
    assert EdgeWired(es[x.pair.value], |vs|, |ts|, |es|);
    if x.tri.None? then Some(MissingTriangle)
    else if Opposite(ts[x.tri.value].verts, x.v0, x.v1).None? then Some(NoOppositeVertex)
    else if es[x.pair.value].tri.None? then Some(MissingTriangle)
    else if Opposite(ts[es[x.pair.value].tri.value].verts, x.v0, x.v1).None? then Some(NoOppositeVertex)
    else None
  }

  /** Moving every vertex of the old mesh by d moves every new edge vertex
      by d, and a mesh whose vertices all sit at one point puts every new
      edge vertex there. */
  lemma EdgeRuleAffine(vs: seq<Vertex>, ws: seq<Vertex>, ts: seq<Triangle>, es: seq<HalfEdge>, e: nat, d: Point)
    requires TrianglesWired(ts, |vs|, |es|) && EdgesWired(es, |vs|, |ts|) && e < |es|
    requires |ws| == |vs| && forall v :: 0 <= v < |vs| ==> ws[v].loc == AddPoints(vs[v].loc, d)
    ensures TrianglesWired(ts, |ws|, |es|) && EdgesWired(es, |ws|, |ts|)
    ensures EdgeRule(ws, ts, es, e).Ok? == EdgeRule(vs, ts, es, e).Ok?
    ensures EdgeRule(vs, ts, es, e).Ok? ==>
              EdgeRule(ws, ts, es, e).value.loc == AddPoints(EdgeRule(vs, ts, es, e).value.loc, d)
  {
    var x := es[e];
    assert EdgeWired(x, |vs|, |ts|, |es|);
    if x.pair.Some? && EdgeFault(vs, ts, es, e).None? {
      var y := es[x.pair.value];
      assert TriangleWired(ts[x.tri.value], |vs|, |es|);
      assert EdgeWired(y, |vs|, |ts|, |es|);
      assert TriangleWired(ts[y.tri.value], |vs|, |es|);
      var f0 := Opposite(ts[x.tri.value].verts, x.v0, x.v1).value;
      var f1 := Opposite(ts[y.tri.value].verts, x.v0, x.v1).value;
      assert f0 < |vs| && f1 < |vs|;
      MidpointsAffine(vs[f0].loc, vs[x.v0].loc, vs[x.v1].loc, vs[f1].loc, d);
    } else if x.pair.None? {
      MidpointsAffine(vs[x.v0].loc, vs[x.v0].loc, vs[x.v1].loc, vs[x.v0].loc, d);
    }
  }

  lemma EdgeRuleKeepsPoint(vs: seq<Vertex>, ts: seq<Triangle>, es: seq<HalfEdge>, e: nat, p: Point)
    requires TrianglesWired(ts, |vs|, |es|) && EdgesWired(es, |vs|, |ts|) && e < |es|
    requires forall v :: 0 <= v < |vs| ==> vs[v].loc == p
    ensures EdgeRule(vs, ts, es, e).Ok? ==> EdgeRule(vs, ts, es, e).value.loc == p
  {
    var x := es[e];
    assert EdgeWired(x, |vs|, |ts|, |es|);
    MidpointsAffine(p, p, p, p, p);
    if x.pair.Some? && EdgeFault(vs, ts, es, e).None? {
      var y := es[x.pair.value];
      assert TriangleWired(ts[x.tri.value], |vs|, |es|);
      assert EdgeWired(y, |vs|, |ts|, |es|);
      assert TriangleWired(ts[y.tri.value], |vs|, |es|);
      var f0 := Opposite(ts[x.tri.value].verts, x.v0, x.v1).value;
      var f1 := Opposite(ts[y.tri.value].verts, x.v0, x.v1).value;
      assert f0 < |vs| && f1 < |vs|;
    }
  }
}
