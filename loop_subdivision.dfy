/** The Loop subdivision pass (loop_subdivision.py:30-448): a walk over the
    triangles of the old mesh that splits each one it reaches into four
    children in a new mesh, links the children to the children of the
    neighbours already split, and caches the two halves of every old edge
    in that edge's `subdivision` slot. */
module LoopSubdivision {
  import opened Outcomes
  import opened MeshGeometry
  import opened TriMesh
  import opened LoopWeights
  import opened LoopRules
  import opened LoopFan

  // ---------------------------------------------------------------
  // The quadrisection template
  // ---------------------------------------------------------------

  /** The corners of child j of a split triangle, from its six new
      vertices c: c0, c2, c4 at its corners and c1, c3, c5 on its sides
      (loop_subdivision.py:107-122, 344-359). */
  function Child(c: seq<nat>, j: nat): (r: seq<nat>)
    requires |c| == 6 && j < 4
    ensures |r| == 3
  {
    if j == 0 then [c[0], c[1], c[5]]
    else if j == 1 then [c[1], c[2], c[3]]
    else if j == 2 then [c[3], c[4], c[5]]
    else [c[1], c[3], c[5]]
  }

  /** Edge i of a triangle with corners cs: (cs0, cs1), (cs1, cs2), (cs0, cs2). */
  function ChildEdge(vs: seq<Vertex>, cs: seq<nat>, i: nat): (r: HalfEdge)
    requires |cs| == 3 && AllBelow(cs, |vs|) && i < 3
    ensures NoSlots(r)
  {
    if i == 0 then NewEdge(vs, cs[0], cs[1])
    else if i == 1 then NewEdge(vs, cs[1], cs[2])
    else NewEdge(vs, cs[0], cs[2])
  }

  /** The three corners of the centre child are the three side points, and
      each centre pairing joins two child edges over the same two corners. */
  lemma {:induction false} CentreTemplate(vs: seq<Vertex>, c: seq<nat>)
    requires |c| == 6 && AllBelow(c, |vs|)
    ensures Child(c, 3) == [c[1], c[3], c[5]]
    ensures ChildEdge(vs, Child(c, 0), 1) == ChildEdge(vs, Child(c, 3), 2)
    ensures ChildEdge(vs, Child(c, 1), 2) == ChildEdge(vs, Child(c, 3), 0)
    ensures ChildEdge(vs, Child(c, 2), 2) == ChildEdge(vs, Child(c, 3), 1)
  {
  }

  // ---------------------------------------------------------------
  // What a pass may change
  // ---------------------------------------------------------------

  /** fs is es with some `subdivision` slots changed and nothing else. */
  predicate SameButSubs(es: seq<HalfEdge>, fs: seq<HalfEdge>) {
    |es| == |fs| && forall e :: 0 <= e < |es| ==> fs[e] == es[e].(sub0 := fs[e].sub0, sub1 := fs[e].sub1)
  }

  /** Every `subdivision` slot that is set names an edge among the first n. */
  predicate SubsBelow(es: seq<HalfEdge>, n: nat) {
    forall e :: 0 <= e < |es| ==> Below(es[e].sub0, n) && Below(es[e].sub1, n)
  }

  /** The `subdivision` slot of x is empty. */
  predicate NoSlots(x: HalfEdge) {
    x.sub0.None? && x.sub1.None?
  }

  /** No `subdivision` slot is set: a mesh just loaded or just built by a pass. */
  predicate NoSubs(es: seq<HalfEdge>) {
    forall e :: 0 <= e < |es| ==> NoSlots(es[e])
  }

  /** The counters of a mesh built by a pass: `tindex` counts its
      triangles, `vindex` its `verts` entries, and every triangle's index
      field is its position. */
  ghost predicate Counted(m: Mesh)
    reads m
  {
    m.tindex == |m.tris| && m.vindex == |m.verts| &&
    forall t :: 0 <= t < |m.tris| ==> m.tris[t].index == t
  }

  /** Every triangle of the mesh has its half-edges linked in storage order. */
  ghost predicate AllForward(m: Mesh)
    reads m
    requires m.Layout()
  {
    forall t :: 0 <= t < |m.tris| ==> ForwardSpin(m.edges, t)
  }

  /** What holds between the steps of a pass from oldm into newm. */
  ghost predicate Pass(oldm: Mesh, newm: Mesh)
    reads oldm, newm
  {
    oldm != newm && oldm.Valid() && newm.Valid() && newm.Layout() && Counted(newm) && AllForward(newm) &&
    NoSubs(newm.edges) && SubsBelow(oldm.edges, |newm.edges|)
  }

  lemma ValidWired(m: Mesh)
    requires m.Valid()
    ensures Wired(m.vertices, m.adjTris, m.tris, m.edges)
  {
  }

  // ---------------------------------------------------------------
  // Single updates of the old mesh
  // ---------------------------------------------------------------

  /** tri.visited = True. */
  method MarkVisited(m: Mesh, t: nat)
    requires m.Valid() && t < |m.tris|
    modifies m`tris
    ensures m.Valid()
    ensures m.tris == old(m.tris[t := m.tris[t].(visited := true)])
  {
    m.tris := m.tris[t := m.tris[t].(visited := true)];
    assert forall u :: 0 <= u < |m.tris| ==> TriangleWired(m.tris[u], |m.vertices|, |m.edges|) by {
      forall u | 0 <= u < |m.tris| ensures TriangleWired(m.tris[u], |m.vertices|, |m.edges|) {
        assert TriangleWired(old(m.tris[u]), |m.vertices|, |m.edges|);
      }
    }
  }

  /** The loop of loop_subdivision.py:63-64: every old triangle unvisited. */
  method ResetVisited(m: Mesh)
    requires m.Valid()
    modifies m`tris
    ensures m.Valid()
    ensures |m.tris| == old(|m.tris|)
    ensures forall t :: 0 <= t < |m.tris| ==> m.tris[t] == old(m.tris[t]).(visited := false)
    ensures VisitedSet(m.tris) == {}
  {
    for t := 0 to |m.tris|
      invariant m.Valid() && |m.tris| == old(|m.tris|)
      invariant forall u :: 0 <= u < t ==> m.tris[u] == old(m.tris[u]).(visited := false)
      invariant forall u :: t <= u < |m.tris| ==> m.tris[u] == old(m.tris[u])
    {
      m.tris := m.tris[t := m.tris[t].(visited := false)];
      assert TriangleWired(old(m.tris[t]), |m.vertices|, |m.edges|);
    }
  }

  /** es with e.subdivision = [a, b]. */
  function SubsWrite(es: seq<HalfEdge>, e: nat, a: nat, b: nat): (fs: seq<HalfEdge>)
    requires e < |es|
    ensures SameButSubs(es, fs) && fs[e].sub0 == Some(a) && fs[e].sub1 == Some(b)
    ensures forall f :: 0 <= f < |es| && f != e ==> fs[f] == es[f]
  {
    es[e := es[e].(sub0 := Some(a), sub1 := Some(b))]
  }

  /** edge.subdivision = [a, b]. */
  method SetSubs(m: Mesh, e: nat, a: nat, b: nat)
    requires m.Valid() && e < |m.edges|
    modifies m`edges
    ensures m.Valid()
    ensures m.edges == SubsWrite(old(m.edges), e, a, b)
  {
    m.edges := m.edges[e := m.edges[e].(sub0 := Some(a), sub1 := Some(b))];
    assert forall f :: 0 <= f < |m.edges| ==> EdgeWired(m.edges[f], |m.vertices|, |m.tris|, |m.edges|) by {
      forall f | 0 <= f < |m.edges| ensures EdgeWired(m.edges[f], |m.vertices|, |m.tris|, |m.edges|) {
        assert EdgeWired(old(m.edges[f]), |m.vertices|, |m.tris|, |m.edges|);
      }
    }
  }

  // ---------------------------------------------------------------
  // Single updates of the new mesh
  // ---------------------------------------------------------------

  /** es with e.pair = p. */
  function PairWrite(es: seq<HalfEdge>, e: nat, p: nat): (fs: seq<HalfEdge>)
    requires e < |es|
    ensures |fs| == |es| && fs[e].pair == Some(p)
    ensures forall f :: 0 <= f < |es| ==> fs[f] == if f == e then es[f].(pair := Some(p)) else es[f]
  {
    es[e := es[e].(pair := Some(p))]
  }

  /** e.pair = p. */
  method SetPair(m: Mesh, e: nat, p: nat)
    requires m.Valid() && m.Layout() && e < |m.edges| && p < |m.edges|
    modifies m`edges
    ensures m.Valid() && m.Layout()
    ensures m.edges == PairWrite(old(m.edges), e, p)
  {
    m.edges := m.edges[e := m.edges[e].(pair := Some(p))];
    assert forall f :: 0 <= f < |m.edges| ==> EdgeWired(m.edges[f], |m.vertices|, |m.tris|, |m.edges|) by {
      forall f | 0 <= f < |m.edges| ensures EdgeWired(m.edges[f], |m.vertices|, |m.tris|, |m.edges|) {
        assert EdgeWired(old(m.edges[f]), |m.vertices|, |m.tris|, |m.edges|);
      }
    }
  }

  /** e.nextEdge = n. */
  method SetNext(m: Mesh, e: nat, n: nat)
    requires m.Valid() && m.Layout() && e < |m.edges| && n < |m.edges|
    modifies m`edges
    ensures m.Valid() && m.Layout()
    ensures m.edges == old(m.edges[e := m.edges[e].(next := Some(n))])
  {
    m.edges := m.edges[e := m.edges[e].(next := Some(n))];
    assert forall f :: 0 <= f < |m.edges| ==> EdgeWired(m.edges[f], |m.vertices|, |m.tris|, |m.edges|) by {
      forall f | 0 <= f < |m.edges| ensures EdgeWired(m.edges[f], |m.vertices|, |m.tris|, |m.edges|) {
        assert EdgeWired(old(m.edges[f]), |m.vertices|, |m.tris|, |m.edges|);
      }
    }
  }

  /** es with e.verts[k] = v. */
  function EndWrite(es: seq<HalfEdge>, e: nat, k: nat, v: nat): (fs: seq<HalfEdge>)
    requires e < |es| && k < 2
    ensures |fs| == |es| && fs[e] == if k == 0 then es[e].(v0 := v) else es[e].(v1 := v)
    ensures forall f :: 0 <= f < |es| && f != e ==> fs[f] == es[f]
  {
    es[e := if k == 0 then es[e].(v0 := v) else es[e].(v1 := v)]
  }

  /** e.verts[k] = v. */
  method SetEnd(m: Mesh, e: nat, k: nat, v: nat)
    requires m.Valid() && m.Layout() && e < |m.edges| && k < 2 && v < |m.vertices|
    modifies m`edges
    ensures m.Valid() && m.Layout()
    ensures m.edges == EndWrite(old(m.edges), e, k, v)
  {
    m.edges := m.edges[e := if k == 0 then m.edges[e].(v0 := v) else m.edges[e].(v1 := v)];
    assert forall f :: 0 <= f < |m.edges| ==> EdgeWired(m.edges[f], |m.vertices|, |m.tris|, |m.edges|) by {
      forall f | 0 <= f < |m.edges| ensures EdgeWired(m.edges[f], |m.vertices|, |m.tris|, |m.edges|) {
        assert EdgeWired(old(m.edges[f]), |m.vertices|, |m.tris|, |m.edges|);
      }
    }
  }

  /** v.adj_tris.append(t). */
  method AppendAdj(m: Mesh, v: nat, t: nat)
    requires m.Valid() && v < |m.vertices| && t < |m.tris|
    modifies m`adjTris
    ensures m.Valid()
    ensures m.adjTris == old(m.adjTris[v := m.adjTris[v] + [t]])
    ensures AdjGrows(old(m.adjTris), m.adjTris)
  {
    m.adjTris := m.adjTris[v := m.adjTris[v] + [t]];
    assert forall u :: 0 <= u < |m.adjTris| ==> AllBelow(m.adjTris[u], |m.tris|) by {
      forall u | 0 <= u < |m.adjTris| ensures AllBelow(m.adjTris[u], |m.tris|) {
        assert AllBelow(old(m.adjTris[u]), |m.tris|);
      }
    }
  }

  // ---------------------------------------------------------------
  // The new vertices of the sides of an old triangle
  // ---------------------------------------------------------------

  /** The two new vertices one side of an old triangle contributes: its
      tip (the repositioned tip vertex, keeping the tip's colour) and the
      new vertex on it (with the blended colour of its two ends). */
  datatype Side = Side(edge: nat, tip: Vertex, point: Vertex)

  /** The tip of side e: the end of e that its successor does not hold
      (the second end whenever the successor holds the first). */
  function Tip(es: seq<HalfEdge>, e: nat): (v: nat)
    requires e < |es| && es[e].next.Some? && es[e].next.value < |es|
    ensures v == es[e].v0 || v == es[e].v1
    ensures HasEnd(es[es[e].next.value], v) ==>
              HasEnd(es[es[e].next.value], es[e].v0) && HasEnd(es[es[e].next.value], es[e].v1)
  {
    var x := es[e];
    if HasEnd(es[x.next.value], x.v0) then x.v1 else x.v0
  }

  /** The new vertices of side e, in the order the program computes them:
      the successor check, the vertex rule on the tip, then the edge rule. */
  function SideAt(vs: seq<Vertex>, adj: seq<seq<nat>>, ts: seq<Triangle>, es: seq<HalfEdge>,
                  cosOf: nat -> real, e: nat): (r: Result<Side>)
    requires Wired(vs, adj, ts, es) && e < |es|
    ensures r.Ok? ==> r.value.edge == e && es[e].next.Some? && es[e].next.value < |es|
    ensures es[e].next.None? ==> r == Err(MissingNext)
    ensures r.Ok? ==> r.value.point.color == BlendColor(vs[es[e].v0].color, vs[es[e].v1].color)
    ensures r.Ok? ==> r.value.tip.color == vs[Tip(es, e)].color && r.value.tip.index == vs[Tip(es, e)].index
    ensures r.Ok? ==> var w := VertexRule(vs, adj, ts, es, cosOf, Tip(es, e));
                      w.Ok? && r.value.tip.loc == w.value.loc
    ensures r.Ok? ==> var p := EdgeRule(vs, ts, es, e);
                      p.Ok? && r.value.point.loc == p.value.loc && r.value.point.index == 0
    ensures es[e].next.Some? && es[e].next.value < |es| ==>
              var w, p := VertexRule(vs, adj, ts, es, cosOf, Tip(es, e)), EdgeRule(vs, ts, es, e);
              (w.Err? ==> r == Err(w.fault)) && (w.Ok? && p.Err? ==> r == Err(p.fault)) && (w.Ok? && p.Ok? ==> r.Ok?)
  {
    var x := es[e];
    assert EdgeWired(x, |vs|, |ts|, |es|);
    if x.next.None? then Err(MissingNext)
    else
      var tip := Tip(es, e);
      match VertexRule(vs, adj, ts, es, cosOf, tip)
      case Err(f) => Err(f)
      case Ok(w) =>
        match EdgeRule(vs, ts, es, e)
        case Err(f) => Err(f)
        case Ok(p) => Ok(Side(e, w.(color := vs[tip].color), p.(color := BlendColor(vs[x.v0].color, vs[x.v1].color))))
  }

  /** Side x in front of the sides r, or r's fault. */
  function Cons(x: Side, r: Result<seq<Side>>): (q: Result<seq<Side>>)
    ensures q.Ok? == r.Ok? && (r.Ok? ==> |q.value| == |r.value| + 1 && q.value[0] == x && q.value[1..] == r.value)
  {
    if r.Err? then r else Ok([x] + r.value)
  }

  /** The new vertices of k successive sides starting at edge e; the first
      fault wins. */
  function Sides(vs: seq<Vertex>, adj: seq<seq<nat>>, ts: seq<Triangle>, es: seq<HalfEdge>,
                 cosOf: nat -> real, e: nat, k: nat): (r: Result<seq<Side>>)
    requires Wired(vs, adj, ts, es) && e < |es|
    decreases k
  {
    if k == 0 then Ok([])
    else
      match SideAt(vs, adj, ts, es, cosOf, e)
      case Err(f) => Err(f)
      case Ok(s) => Cons(s, Sides(vs, adj, ts, es, cosOf, es[e].next.value, k - 1))
  }

  /** k sides in a row: the i-th starts at the successor of the (i-1)-th,
      and each is the side its edge gives on its own. */
  lemma {:induction false} SidesChain(vs: seq<Vertex>, adj: seq<seq<nat>>, ts: seq<Triangle>, es: seq<HalfEdge>,
                                      cosOf: nat -> real, e: nat, k: nat)
    requires Wired(vs, adj, ts, es) && e < |es|
    ensures var r := Sides(vs, adj, ts, es, cosOf, e, k);
            r.Ok? ==> |r.value| == k && (k > 0 ==> r.value[0].edge == e) &&
                      (forall i :: 0 <= i < k ==> r.value[i].edge < |es| && SideAt(vs, adj, ts, es, cosOf, r.value[i].edge) == Ok(r.value[i])) &&
                      (forall i :: 0 < i < k ==> es[r.value[i - 1].edge].next == Some(r.value[i].edge))
    decreases k
  {
    var here := SideAt(vs, adj, ts, es, cosOf, e);
    if k > 0 && here.Ok? {
      var n := es[e].next.value;
      SidesChain(vs, adj, ts, es, cosOf, n, k - 1);
      var rest, r := Sides(vs, adj, ts, es, cosOf, n, k - 1), Sides(vs, adj, ts, es, cosOf, e, k);
      assert r == Cons(here.value, rest);
      if r.Ok? {
        forall i | 0 < i < k ensures r.value[i] == rest.value[i - 1] {
          assert r.value[1..][i - 1] == rest.value[i - 1];
        }
      }
    }
  }

  /** acc followed by the sides of r, or r's fault. */
  function Then(acc: seq<Side>, r: Result<seq<Side>>): Result<seq<Side>> {
    if r.Err? then r else Ok(acc + r.value)
  }

  lemma ThenCons(acc: seq<Side>, x: Side, r: Result<seq<Side>>)
    ensures Then(acc, Cons(x, r)) == Then(acc + [x], r)
  {
    if r.Ok? {
      assert acc + ([x] + r.value) == (acc + [x]) + r.value;
    }
  }

  lemma ThenNothing(r: Result<seq<Side>>)
    ensures Then([], r) == r && (r.Ok? ==> Then(r.value, Ok([])) == r)
  {
    if r.Ok? {
      assert [] + r.value == r.value && r.value + [] == r.value;
    }
  }

  /** tab holds the side of every old edge. The link to SideAt fires only
      where a SideAt term is present, so a walk over tab is reasoned about
      without unfolding the weight rules at every step. */
  predicate Tabulates(vs: seq<Vertex>, adj: seq<seq<nat>>, ts: seq<Triangle>, es: seq<HalfEdge>,
                      cosOf: nat -> real, tab: seq<Result<Side>>)
    requires Wired(vs, adj, ts, es)
  {
    |tab| == |es| &&
    forall e {:trigger SideAt(vs, adj, ts, es, cosOf, e)} :: 0 <= e < |es| ==> tab[e] == SideAt(vs, adj, ts, es, cosOf, e)
  }

  /** Every side in tab has a successor edge. */
  predicate Chained(tab: seq<Result<Side>>, es: seq<HalfEdge>) {
    |tab| == |es| && forall e :: 0 <= e < |tab| && tab[e].Ok? ==> es[e].next.Some? && es[e].next.value < |es|
  }

  lemma TabulatesChained(vs: seq<Vertex>, adj: seq<seq<nat>>, ts: seq<Triangle>, es: seq<HalfEdge>,
                         cosOf: nat -> real, tab: seq<Result<Side>>)
    requires Wired(vs, adj, ts, es) && Tabulates(vs, adj, ts, es, cosOf, tab)
    ensures Chained(tab, es)
  {
    forall e | 0 <= e < |tab| && tab[e].Ok? ensures es[e].next.Some? && es[e].next.value < |es| {
      assert tab[e] == SideAt(vs, adj, ts, es, cosOf, e);
    }
  }

  /** Sides, read from a table. */
  function Walk(tab: seq<Result<Side>>, es: seq<HalfEdge>, e: nat, k: nat): Result<seq<Side>>
    requires Chained(tab, es) && e < |es|
    decreases k
  {
    if k == 0 then Ok([])
    else
      match tab[e]
      case Err(f) => Err(f)
      case Ok(s) => Cons(s, Walk(tab, es, es[e].next.value, k - 1))
  }

  /** The first step of Sides. */
  lemma SidesUnfold(vs: seq<Vertex>, adj: seq<seq<nat>>, ts: seq<Triangle>, es: seq<HalfEdge>,
                    cosOf: nat -> real, e: nat, k: nat, x: Result<Side>)
    requires Wired(vs, adj, ts, es) && e < |es| && k > 0 && x == SideAt(vs, adj, ts, es, cosOf, e)
    ensures x.Err? ==> Sides(vs, adj, ts, es, cosOf, e, k) == Err(x.fault)
    ensures x.Ok? ==> x.value.edge == e && es[e].next.Some? && es[e].next.value < |es|
    ensures x.Ok? ==> Sides(vs, adj, ts, es, cosOf, e, k) == Cons(x.value, Sides(vs, adj, ts, es, cosOf, es[e].next.value, k - 1))
  {
  }

  /** Walking a table of the sides is walking the sides. */
  lemma {:induction false} WalkSides(vs: seq<Vertex>, adj: seq<seq<nat>>, ts: seq<Triangle>, es: seq<HalfEdge>,
                                     cosOf: nat -> real, tab: seq<Result<Side>>, e: nat, k: nat)
    requires Wired(vs, adj, ts, es) && Tabulates(vs, adj, ts, es, cosOf, tab) && Chained(tab, es) && e < |es|
    ensures Walk(tab, es, e, k) == Sides(vs, adj, ts, es, cosOf, e, k)
    decreases k
  {
    if k > 0 {
      SidesUnfold(vs, adj, ts, es, cosOf, e, k, tab[e]);
      if tab[e].Ok? {
        WalkSides(vs, adj, ts, es, cosOf, tab, es[e].next.value, k - 1);
      }
    }
  }

  /** One more side moves from the rest of the walk to what is done. */
  lemma WalkStep(tab: seq<Result<Side>>, es: seq<HalfEdge>, acc: seq<Side>, cur: nat, n: nat)
    requires Chained(tab, es) && cur < |es| && n > 0 && tab[cur].Ok?
    ensures Then(acc, Walk(tab, es, cur, n)) == Then(acc + [tab[cur].value], Walk(tab, es, es[cur].next.value, n - 1))
  {
    ThenCons(acc, tab[cur].value, Walk(tab, es, es[cur].next.value, n - 1));
  }

  /** One step of the side loops: subdivide_vertex on the tip, then
      subdivide_edge and blendColor on the side. */
  method SplitSide(vs: seq<Vertex>, adj: seq<seq<nat>>, ts: seq<Triangle>, es: seq<HalfEdge>,
                   cosOf: nat -> real, e: nat) returns (r: Result<Side>)
    requires Wired(vs, adj, ts, es) && e < |es|
    ensures r == SideAt(vs, adj, ts, es, cosOf, e)
  {
    var x := es[e];
    assert EdgeWired(x, |vs|, |ts|, |es|);
    if x.next.None? {
      return Err(MissingNext);
    }
    var tip := Tip(es, e);
    var w := SubdivideVertex(vs, adj, ts, es, cosOf, tip);
    if w.Err? {
      return Err(w.fault);
    }
    var p := EdgeRule(vs, ts, es, e);
    if p.Err? {
      return Err(p.fault);
    }
    return Ok(Side(e, w.value.(color := vs[tip].color), p.value.(color := BlendColor(vs[x.v0].color, vs[x.v1].color))));
  }

  /** SplitSide, with its result read against the table. */
  method SplitTabled(vs: seq<Vertex>, adj: seq<seq<nat>>, ts: seq<Triangle>, es: seq<HalfEdge>,
                     cosOf: nat -> real, ghost tab: seq<Result<Side>>, e: nat) returns (r: Result<Side>)
    requires Wired(vs, adj, ts, es) && Tabulates(vs, adj, ts, es, cosOf, tab) && e < |es|
    ensures r == tab[e]
  {
    r := SplitSide(vs, adj, ts, es, cosOf, e);
  }

  /** The side loop of loop_subdivision.py:77-97: k sides in turn, from
      edge e, each from the successor of the side before; the first fault
      ends the loop. */
  method SplitWalk(vs: seq<Vertex>, adj: seq<seq<nat>>, ts: seq<Triangle>, es: seq<HalfEdge>,
                   cosOf: nat -> real, ghost tab: seq<Result<Side>>, e: nat, k: nat) returns (r: Result<seq<Side>>)
    requires Wired(vs, adj, ts, es) && Tabulates(vs, adj, ts, es, cosOf, tab) && Chained(tab, es) && e < |es|
    ensures r == Walk(tab, es, e, k)
  {
    var acc: seq<Side> := [];
    var cur: nat := e;
    ghost var goal := Walk(tab, es, e, k);
    ThenNothing(goal);
    var n := k;
    while n > 0
      invariant cur < |es|
      invariant goal == Then(acc, Walk(tab, es, cur, n))
    {
      var s := SplitTabled(vs, adj, ts, es, cosOf, tab, cur);
      if s.Err? {
        return Err(s.fault);
      }
      WalkStep(tab, es, acc, cur, n);
      acc := acc + [s.value];
      cur := es[cur].next.value;
      n := n - 1;
    }
    ThenNothing(Ok(acc));
    return Ok(acc);
  }

  /** The side loop, stated against Sides. */
  method SplitSides(vs: seq<Vertex>, adj: seq<seq<nat>>, ts: seq<Triangle>, es: seq<HalfEdge>,
                    cosOf: nat -> real, e: nat, k: nat) returns (r: Result<seq<Side>>)
    requires Wired(vs, adj, ts, es) && e < |es|
    ensures r == Sides(vs, adj, ts, es, cosOf, e, k)
  {
    ghost var tab := seq(|es|, c requires 0 <= c < |es| => SideAt(vs, adj, ts, es, cosOf, c));
    assert Tabulates(vs, adj, ts, es, cosOf, tab);
    TabulatesChained(vs, adj, ts, es, cosOf, tab);
    r := SplitWalk(vs, adj, ts, es, cosOf, tab, e, k);
    WalkSides(vs, adj, ts, es, cosOf, tab, e, k);
  }

  // ---------------------------------------------------------------
  // Placing the new vertices
  // ---------------------------------------------------------------

  /** An entry of new_v: a vertex the pass has just computed, or a vertex
      of the new mesh imported from a neighbour already split. */
  datatype Slot = Fresh(v: Vertex) | Existing(h: nat)

  /** One turn of the loops of loop_subdivision.py:100-103 and 337-340:
      the entry is appended to `verts` and takes the next vertex index. */
  method Place(m: Mesh, s: Slot) returns (h: nat)
    requires m.Valid() && (s.Existing? ==> s.h < |m.vertices|)
    modifies m`vertices, m`adjTris, m`verts, m`vindex
    ensures m.Valid()
    ensures m.verts == old(m.verts) + [h] && m.vindex == old(m.vindex) + 1
    ensures s.Fresh? ==> h == old(|m.vertices|) && m.vertices == old(m.vertices) + [s.v.(index := old(m.vindex))] &&
                         m.adjTris == old(m.adjTris) + [[]]
    ensures s.Existing? ==> h == s.h && m.vertices == old(m.vertices[s.h := m.vertices[s.h].(index := m.vindex)]) &&
                            m.adjTris == old(m.adjTris)
  {
    match s {
      case Fresh(v) =>
        h := m.AppendVertex(v.(index := m.vindex));
      case Existing(x) =>
        h := x;
        m.verts := m.verts + [h];
        m.vertices := m.vertices[h := m.vertices[h].(index := m.vindex)];
    }
    m.vindex := m.vindex + 1;
    assert forall t :: 0 <= t < |m.tris| ==> TriangleWired(m.tris[t], |m.vertices|, |m.edges|) by {
      forall t | 0 <= t < |m.tris| ensures TriangleWired(m.tris[t], |m.vertices|, |m.edges|) {
        assert TriangleWired(m.tris[t], old(|m.vertices|), |m.edges|);
      }
    }
    assert forall e :: 0 <= e < |m.edges| ==> EdgeWired(m.edges[e], |m.vertices|, |m.tris|, |m.edges|) by {
      forall e | 0 <= e < |m.edges| ensures EdgeWired(m.edges[e], |m.vertices|, |m.tris|, |m.edges|) {
        assert EdgeWired(m.edges[e], old(|m.vertices|), |m.tris|, |m.edges|);
      }
    }
  }

  /** The whole loop: every entry placed in turn. A computed vertex takes
      the index of its turn; an imported one keeps its handle. */
  method PlaceAll(m: Mesh, slots: seq<Slot>) returns (hs: seq<nat>)
    requires m.Valid()
    requires forall j :: 0 <= j < |slots| && slots[j].Existing? ==> slots[j].h < |m.vertices|
    modifies m`vertices, m`adjTris, m`verts, m`vindex
    ensures m.Valid()
    ensures |hs| == |slots| && m.verts == old(m.verts) + hs && m.vindex == old(m.vindex) + |slots|
    ensures |m.vertices| >= old(|m.vertices|) && AllBelow(hs, |m.vertices|)
    ensures forall j :: 0 <= j < |slots| && slots[j].Existing? ==> hs[j] == slots[j].h
    ensures forall j :: 0 <= j < |slots| && slots[j].Fresh? ==>
              old(|m.vertices|) <= hs[j] && m.vertices[hs[j]] == slots[j].v.(index := old(m.vindex) + j)
    ensures forall h :: 0 <= h < old(|m.vertices|) ==> m.vertices[h] == old(m.vertices[h]).(index := m.vertices[h].index)
    ensures forall h :: 0 <= h < old(|m.adjTris|) ==> m.adjTris[h] == old(m.adjTris[h])
  {
    hs := [];
    for j := 0 to |slots|
      invariant m.Valid()
      invariant |hs| == j && m.verts == old(m.verts) + hs && m.vindex == old(m.vindex) + j
      invariant |m.vertices| >= old(|m.vertices|) && AllBelow(hs, |m.vertices|)
      invariant forall i :: 0 <= i < j && slots[i].Existing? ==> hs[i] == slots[i].h
      invariant forall i :: 0 <= i < j && slots[i].Fresh? ==>
                  old(|m.vertices|) <= hs[i] && m.vertices[hs[i]] == slots[i].v.(index := old(m.vindex) + i)
      invariant forall h :: 0 <= h < old(|m.vertices|) ==> m.vertices[h] == old(m.vertices[h]).(index := m.vertices[h].index)
      invariant forall h :: 0 <= h < old(|m.adjTris|) ==> m.adjTris[h] == old(m.adjTris[h])
    {
      var h := Place(m, slots[j]);
      hs := hs + [h];
    }
  }

  // ---------------------------------------------------------------
  // The four children
  // ---------------------------------------------------------------

  /** The dictionary steps for the first n edges of child t with corners
      cs: with `pairByKey` a known key pairs the new edge with the stored
      one (loop_subdivision.py:376-381); without it, as for the seed
      (loop_subdivision.py:139-140), a known key is left alone. */
  function ChildEdges(vs: seq<Vertex>, es: seq<HalfEdge>, em: map<(nat, nat), nat>,
                      cs: seq<nat>, t: nat, pairByKey: bool, n: nat): (r: (seq<HalfEdge>, map<(nat, nat), nat>))
    requires |cs| == 3 && AllBelow(cs, |vs|) && n <= 3 && MapBelow(em, |es|)
    ensures |r.0| == |es| + n && MapBelow(r.1, |r.0|)
    decreases n
  {
    if n == 0 then (es, em)
    else
      var (fs, fm) := ChildEdges(vs, es, em, cs, t, pairByKey, n - 1);
      var x := ChildEdge(vs, cs, n - 1).(tri := Some(t));
      if pairByKey then InsertEdge(vs, fs, fm, x) else RegisterEdge(vs, fs, fm, x)
  }

  /** Edges 3t, 3t+1, 3t+2 are the template edges of a child with corners
      cs, owned by t; only their `pair` is left open. */
  ghost predicate ChildEdgesAt(vs: seq<Vertex>, es: seq<HalfEdge>, cs: seq<nat>, t: nat)
    requires |cs| == 3 && AllBelow(cs, |vs|) && 3 * t + 2 < |es|
  {
    forall i :: 0 <= i < 3 ==> es[3 * t + i] == ChildEdge(vs, cs, i).(tri := Some(t), pair := es[3 * t + i].pair)
  }

  /** fs is es with some `pair` fields changed and nothing else. */
  predicate SameButPairs(es: seq<HalfEdge>, fs: seq<HalfEdge>) {
    |es| <= |fs| && forall e :: 0 <= e < |es| ==> fs[e] == es[e].(pair := fs[e].pair)
  }

  /** The map only gains entries. */
  predicate MapGrows(em: map<(nat, nat), nat>, fm: map<(nat, nat), nat>) {
    forall k :: k in em ==> k in fm && fm[k] == em[k]
  }

  /** One dictionary step: earlier edges change only in their pair (not
      at all by a registering step), x is appended with only its pair
      possibly set, stored keys stay, and x's key is stored. */
  lemma EdgeStepShape(vs: seq<Vertex>, fs: seq<HalfEdge>, fm: map<(nat, nat), nat>, x: HalfEdge, pairByKey: bool)
    requires EndsIn(vs, x) && MapBelow(fm, |fs|)
    ensures var (gs, gm) := if pairByKey then InsertEdge(vs, fs, fm, x) else RegisterEdge(vs, fs, fm, x);
            |gs| == |fs| + 1 && SameButPairs(fs, gs) && gs[|fs|] == x.(pair := gs[|fs|].pair) &&
            (!pairByKey ==> gs == fs + [x]) && MapGrows(fm, gm) && EdgeKey(vs, x) in gm
  {
  }

  /** What the dictionary steps of a child do to the edges: earlier edges
      change only in their pair (and not at all without `pairByKey`), and
      the new edges are the child's template edges (unpaired without
      `pairByKey`). */
  lemma {:induction false} ChildEdgesFrame(vs: seq<Vertex>, es: seq<HalfEdge>, em: map<(nat, nat), nat>,
                                           cs: seq<nat>, t: nat, pairByKey: bool, n: nat)
    requires |cs| == 3 && AllBelow(cs, |vs|) && n <= 3 && MapBelow(em, |es|)
    ensures var fs := ChildEdges(vs, es, em, cs, t, pairByKey, n).0;
            SameButPairs(es, fs) && (!pairByKey ==> fs[..|es|] == es) &&
            (forall i :: 0 <= i < n ==> fs[|es| + i] == ChildEdge(vs, cs, i).(tri := Some(t), pair := fs[|es| + i].pair)) &&
            (!pairByKey ==> forall e :: |es| <= e < |fs| ==> fs[e].pair.None?)
    decreases n
  {
    if n > 0 {
      ChildEdgesFrame(vs, es, em, cs, t, pairByKey, n - 1);
      var (fs, fm) := ChildEdges(vs, es, em, cs, t, pairByKey, n - 1);
      var x := ChildEdge(vs, cs, n - 1).(tri := Some(t));
      EdgeStepShape(vs, fs, fm, x, pairByKey);
    }
  }

  /** ... and to the dictionary: stored keys stay, and every new edge's
      key is stored. */
  lemma {:induction false} ChildEdgesKeys(vs: seq<Vertex>, es: seq<HalfEdge>, em: map<(nat, nat), nat>,
                                          cs: seq<nat>, t: nat, pairByKey: bool, n: nat)
    requires |cs| == 3 && AllBelow(cs, |vs|) && n <= 3 && MapBelow(em, |es|)
    ensures var (fs, fm) := ChildEdges(vs, es, em, cs, t, pairByKey, n);
            MapGrows(em, fm) && forall e :: |es| <= e < |fs| ==> EndsIn(vs, fs[e]) && EdgeKey(vs, fs[e]) in fm && NoSlots(fs[e])
    decreases n
  {
    if n > 0 {
      ChildEdgesKeys(vs, es, em, cs, t, pairByKey, n - 1);
      var (fs, fm) := ChildEdges(vs, es, em, cs, t, pairByKey, n - 1);
      var x := ChildEdge(vs, cs, n - 1).(tri := Some(t));
      EdgeStepShape(vs, fs, fm, x, pairByKey);
      var (gs, gm) := ChildEdges(vs, es, em, cs, t, pairByKey, n);
      forall e | |es| <= e < |gs| ensures EndsIn(vs, gs[e]) && EdgeKey(vs, gs[e]) in gm && NoSlots(gs[e]) {
        if e < |fs| {
          assert gs[e] == fs[e].(pair := gs[e].pair);
        }
      }
    }
  }

  /** One child: loop_subdivision.py:344-359 / 107-122 for its triangle,
      then 361-381 / 124-140 for its three edges, each stored as edge[i]. */
  method AddChild(m: Mesh, cs: seq<nat>, pairByKey: bool) returns (t: nat)
    requires m.Valid() && m.Layout() && |cs| == 3 && AllBelow(cs, |m.vertices|)
    modifies m`tris, m`adjTris, m`edges, m`edgeMap, m`tindex
    ensures m.Valid() && m.Layout()
    ensures t == old(|m.tris|) && m.tindex == old(m.tindex) + 1
    ensures m.tris == old(m.tris) + [Triangle(old(m.tindex), cs, false, [Some(3 * t), Some(3 * t + 1), Some(3 * t + 2)])]
    ensures |m.adjTris| == old(|m.adjTris|)
    ensures forall v :: 0 <= v < |m.adjTris| ==> m.adjTris[v] == old(m.adjTris[v]) + Hits(t, cs, v)
    ensures |m.edges| == old(|m.edges|) + 3
    ensures Spawned(m.vertices, old(m.edges), old(m.edgeMap), m.edges, m.edgeMap, pairByKey)
    ensures ChildEdgesAt(m.vertices, m.edges, cs, t)
  {
    t := m.AddTriangle(cs[0], cs[1], cs[2], m.tindex);
    assert [cs[0], cs[1], cs[2]] == cs;
    FinishChild(m, cs, t, pairByKey);
    m.tindex := m.tindex + 1;
  }

  /** The edges of a child whose triangle has just been appended. */
  method FinishChild(m: Mesh, cs: seq<nat>, t: nat, pairByKey: bool)
    requires m.Valid() && |cs| == 3 && AllBelow(cs, |m.vertices|)
    requires |m.tris| == t + 1 && m.tris[t].edge == [None, None, None] && InOrder(m.tris[..t], m.edges)
    modifies m`tris, m`edges, m`edgeMap
    ensures m.Valid() && m.Layout()
    ensures m.tris == old(m.tris[t := m.tris[t].(edge := [Some(3 * t), Some(3 * t + 1), Some(3 * t + 2)])])
    ensures |m.edges| == old(|m.edges|) + 3
    ensures Spawned(m.vertices, old(m.edges), old(m.edgeMap), m.edges, m.edgeMap, pairByKey)
    ensures ChildEdgesAt(m.vertices, m.edges, cs, t)
  {
    StoreChildEdges(m, cs, t, pairByKey);
    ChildEdgesSpawn(m.vertices, old(m.edges), old(m.edgeMap), cs, t, pairByKey);
    assert FaceSlots(t, 3) == [Some(3 * t), Some(3 * t + 1), Some(3 * t + 2)];
    LayoutAppend(old(m.tris[..t]), old(m.edges), m.tris, m.edges, t);
  }

  /** Appending a triangle and its three edges keeps the storage layout. */
  lemma LayoutAppend(ts: seq<Triangle>, es: seq<HalfEdge>, us: seq<Triangle>, fs: seq<HalfEdge>, t: nat)
    requires InOrder(ts, es) && |ts| == t && |us| == t + 1 && us[..t] == ts
    requires us[t].edge == [Some(3 * t), Some(3 * t + 1), Some(3 * t + 2)]
    requires |fs| == 3 * t + 3 && forall e :: 0 <= e < |es| ==> fs[e].tri == es[e].tri
    requires fs[3 * t].tri == Some(t) && fs[3 * t + 1].tri == Some(t) && fs[3 * t + 2].tri == Some(t)
    ensures InOrder(us, fs)
  {
    FaceLayout(es, fs, t);
    forall u | 0 <= u < |us| ensures us[u].edge == [Some(3 * u), Some(3 * u + 1), Some(3 * u + 2)] {
      if u < t {
        assert us[u] == ts[u];
      }
    }
  }

  /** The loop over the three edges of child t. */
  method StoreChildEdges(m: Mesh, cs: seq<nat>, t: nat, pairByKey: bool)
    requires m.Valid() && |cs| == 3 && AllBelow(cs, |m.vertices|) && |m.edges| == 3 * t
    requires |m.tris| == t + 1 && m.tris[t].edge == [None, None, None]
    modifies m`tris, m`edges, m`edgeMap
    ensures m.Valid()
    ensures m.tris == old(m.tris[t := m.tris[t].(edge := FaceSlots(t, 3))])
    ensures (m.edges, m.edgeMap) == ChildEdges(m.vertices, old(m.edges), old(m.edgeMap), cs, t, pairByKey, 3)
  {
    for i := 0 to 3
      invariant m.Valid() && |m.edges| == 3 * t + i
      invariant m.tris == old(m.tris[t := m.tris[t].(edge := FaceSlots(t, i))])
      invariant (m.edges, m.edgeMap) == ChildEdges(m.vertices, old(m.edges), old(m.edgeMap), cs, t, pairByKey, i)
    {
      var a := if i == 1 then cs[1] else cs[0];
      var b := if i == 0 then cs[1] else cs[2];
      var h := m.AddEdge(a, b, t, pairByKey);
      assert FaceSlots(t, i)[i := Some(h)] == FaceSlots(t, i + 1);
      m.SetTriEdge(t, i, h);
    }
  }

  /** What creating children does to the edge arena and the dictionary:
      earlier edges change only in their pair (not at all, and the new ones
      stay unpaired, without `pairByKey`), stored keys stay, and every new
      edge's key is stored. */
  predicate Spawned(vs: seq<Vertex>, es: seq<HalfEdge>, em: map<(nat, nat), nat>,
                    fs: seq<HalfEdge>, fm: map<(nat, nat), nat>, pairByKey: bool) {
    SameButPairs(es, fs) &&
    (!pairByKey ==> fs[..|es|] == es && forall e :: |es| <= e < |fs| ==> fs[e].pair.None?) &&
    MapGrows(em, fm) && forall e :: |es| <= e < |fs| ==> EndsIn(vs, fs[e]) && EdgeKey(vs, fs[e]) in fm && NoSlots(fs[e])
  }

  lemma SpawnedTrans(vs: seq<Vertex>, es: seq<HalfEdge>, em: map<(nat, nat), nat>, fs: seq<HalfEdge>,
                     fm: map<(nat, nat), nat>, gs: seq<HalfEdge>, gm: map<(nat, nat), nat>, pairByKey: bool)
    requires Spawned(vs, es, em, fs, fm, pairByKey) && Spawned(vs, fs, fm, gs, gm, pairByKey)
    ensures Spawned(vs, es, em, gs, gm, pairByKey)
  {
    forall e | |es| <= e < |gs| ensures EndsIn(vs, gs[e]) && EdgeKey(vs, gs[e]) in gm && NoSlots(gs[e]) {
      if e < |fs| {
        assert gs[e] == fs[e].(pair := gs[e].pair);
      }
    }
    if !pairByKey {
      assert gs[..|es|] == gs[..|fs|][..|es|];
    }
  }

  /** A child's template edges keep their shape when only pairs change. */
  lemma ChildEdgesAtKept(vs: seq<Vertex>, es: seq<HalfEdge>, fs: seq<HalfEdge>, cs: seq<nat>, t: nat)
    requires |cs| == 3 && AllBelow(cs, |vs|) && 3 * t + 2 < |es|
    requires SameButPairs(es, fs) && ChildEdgesAt(vs, es, cs, t)
    ensures ChildEdgesAt(vs, fs, cs, t)
  {
    forall i | 0 <= i < 3
      ensures fs[3 * t + i] == ChildEdge(vs, cs, i).(tri := Some(t), pair := fs[3 * t + i].pair)
    {
      assert fs[3 * t + i] == es[3 * t + i].(pair := fs[3 * t + i].pair);
    }
  }

  /** The dictionary steps of one child, summed up. */
  lemma ChildEdgesSpawn(vs: seq<Vertex>, es: seq<HalfEdge>, em: map<(nat, nat), nat>,
                        cs: seq<nat>, t: nat, pairByKey: bool)
    requires |cs| == 3 && AllBelow(cs, |vs|) && MapBelow(em, |es|) && |es| == 3 * t
    ensures var (fs, fm) := ChildEdges(vs, es, em, cs, t, pairByKey, 3);
            Spawned(vs, es, em, fs, fm, pairByKey) && ChildEdgesAt(vs, fs, cs, t)
  {
    ChildEdgesFrame(vs, es, em, cs, t, pairByKey, 3);
    ChildEdgesKeys(vs, es, em, cs, t, pairByKey, 3);
  }

  /** The four children of a split triangle with new vertices c, created
      in the order 0..3 with consecutive indices. */
  method Quadrisect(m: Mesh, c: seq<nat>, pairByKey: bool) returns (t0: nat)
    requires m.Valid() && m.Layout() && |c| == 6 && AllBelow(c, |m.vertices|)
    modifies m`tris, m`adjTris, m`edges, m`edgeMap, m`tindex
    ensures m.Valid() && m.Layout()
    ensures t0 == old(|m.tris|) && |m.tris| == t0 + 4 && m.tris[..t0] == old(m.tris) && m.tindex == old(m.tindex) + 4
    ensures forall j :: 0 <= j < 4 ==>
              m.tris[t0 + j] == Triangle(old(m.tindex) + j, Child(c, j), false, [Some(3 * (t0 + j)), Some(3 * (t0 + j) + 1), Some(3 * (t0 + j) + 2)])
    ensures |m.adjTris| == old(|m.adjTris|)
    ensures forall v :: 0 <= v < |m.adjTris| ==>
              m.adjTris[v] == old(m.adjTris[v]) + Hits(t0, Child(c, 0), v) + Hits(t0 + 1, Child(c, 1), v) +
                                                  Hits(t0 + 2, Child(c, 2), v) + Hits(t0 + 3, Child(c, 3), v)
    ensures Spawned(m.vertices, old(m.edges), old(m.edgeMap), m.edges, m.edgeMap, pairByKey)
    ensures forall j :: 0 <= j < 4 ==> ChildEdgesAt(m.vertices, m.edges, Child(c, j), t0 + j)
  {
    ghost var es0, em0, adj0 := m.edges, m.edgeMap, m.adjTris;
    t0 := AddChild(m, Child(c, 0), pairByKey);
    ghost var es1, em1, adj1 := m.edges, m.edgeMap, m.adjTris;
    var t1 := AddChild(m, Child(c, 1), pairByKey);
    SpawnedTrans(m.vertices, es0, em0, es1, em1, m.edges, m.edgeMap, pairByKey);
    ChildEdgesAtKept(m.vertices, es1, m.edges, Child(c, 0), t0);
    ghost var es2, em2, adj2 := m.edges, m.edgeMap, m.adjTris;
    var t2 := AddChild(m, Child(c, 2), pairByKey);
    SpawnedTrans(m.vertices, es0, em0, es2, em2, m.edges, m.edgeMap, pairByKey);
    ChildEdgesAtKept(m.vertices, es2, m.edges, Child(c, 0), t0);
    ChildEdgesAtKept(m.vertices, es2, m.edges, Child(c, 1), t1);
    ghost var es3, em3, adj3 := m.edges, m.edgeMap, m.adjTris;
    var t3 := AddChild(m, Child(c, 3), pairByKey);
    SpawnedTrans(m.vertices, es0, em0, es3, em3, m.edges, m.edgeMap, pairByKey);
    ChildEdgesAtKept(m.vertices, es3, m.edges, Child(c, 0), t0);
    ChildEdgesAtKept(m.vertices, es3, m.edges, Child(c, 1), t1);
    ChildEdgesAtKept(m.vertices, es3, m.edges, Child(c, 2), t2);
    assert m.tris[..t0] == old(m.tris);
  }

  // ---------------------------------------------------------------
  // Linking the children
  // ---------------------------------------------------------------

  /** The centre pairings of the children at t0: edge 1 of child 0 with
      edge 2 of child 3, edge 2 of child 1 with edge 0 of child 3, and
      edge 2 of child 2 with edge 1 of child 3. */
  function CentreMate(t0: nat, e: nat): (r: Option<nat>)
    ensures r.Some? ==> 3 * t0 <= r.value < 3 * t0 + 12 && r.value != e
  {
    if e == 3 * t0 + 1 then Some(3 * t0 + 11)
    else if e == 3 * t0 + 11 then Some(3 * t0 + 1)
    else if e == 3 * t0 + 5 then Some(3 * t0 + 9)
    else if e == 3 * t0 + 9 then Some(3 * t0 + 5)
    else if e == 3 * t0 + 8 then Some(3 * t0 + 10)
    else if e == 3 * t0 + 10 then Some(3 * t0 + 8)
    else None
  }

  /** The centre pairings are symmetric. */
  lemma CentreMatesPair(t0: nat, e: nat)
    requires CentreMate(t0, e).Some?
    ensures CentreMate(t0, CentreMate(t0, e).value) == Some(e)
  {
  }

  /** loop_subdivision.py:400-407 / 148-155: the centre pairings. */
  method PairCentre(m: Mesh, t0: nat)
    requires m.Valid() && m.Layout() && t0 + 4 <= |m.tris|
    modifies m`edges
    ensures m.Valid() && m.Layout() && |m.edges| == old(|m.edges|)
    ensures forall e :: 0 <= e < |m.edges| ==>
              m.edges[e] == if CentreMate(t0, e).Some? then old(m.edges[e]).(pair := CentreMate(t0, e)) else old(m.edges[e])
  {
    m.edges := m.edges[3 * t0 + 1 := m.edges[3 * t0 + 1].(pair := Some(3 * t0 + 11))];
    m.edges := m.edges[3 * t0 + 11 := m.edges[3 * t0 + 11].(pair := Some(3 * t0 + 1))];
    m.edges := m.edges[3 * t0 + 5 := m.edges[3 * t0 + 5].(pair := Some(3 * t0 + 9))];
    m.edges := m.edges[3 * t0 + 9 := m.edges[3 * t0 + 9].(pair := Some(3 * t0 + 5))];
    m.edges := m.edges[3 * t0 + 8 := m.edges[3 * t0 + 8].(pair := Some(3 * t0 + 10))];
    m.edges := m.edges[3 * t0 + 10 := m.edges[3 * t0 + 10].(pair := Some(3 * t0 + 8))];
    forall e | 0 <= e < |m.edges|
      ensures m.edges[e] == if CentreMate(t0, e).Some? then old(m.edges[e]).(pair := CentreMate(t0, e)) else old(m.edges[e])
      ensures EdgeWired(m.edges[e], |m.vertices|, |m.tris|, |m.edges|)
    {
      assert EdgeWired(old(m.edges[e]), |m.vertices|, |m.tris|, |m.edges|);
    }
  }

  /** One turn of the loop of loop_subdivision.py:412-415 / 160-163:
      the edges of triangle t linked 0 -> 1 -> 2 -> 0. */
  method SpinChild(m: Mesh, t: nat)
    requires m.Valid() && m.Layout() && t < |m.tris|
    modifies m`edges
    ensures m.Valid() && m.Layout() && |m.edges| == old(|m.edges|)
    ensures forall e :: 0 <= e < |m.edges| ==>
              m.edges[e] == if 3 * t <= e < 3 * t + 3 then old(m.edges[e]).(next := m.edges[e].next) else old(m.edges[e])
    ensures ForwardSpin(m.edges, t)
  {
    SetNext(m, 3 * t, 3 * t + 1);
    SetNext(m, 3 * t + 1, 3 * t + 2);
    SetNext(m, 3 * t + 2, 3 * t);
  }

  /** A spin survives changes to other edges. */
  lemma SpinKept(es: seq<HalfEdge>, fs: seq<HalfEdge>, t: nat)
    requires 3 * t + 2 < |es| && |fs| == |es| && ForwardSpin(es, t)
    requires es[3 * t] == fs[3 * t] && es[3 * t + 1] == fs[3 * t + 1] && es[3 * t + 2] == fs[3 * t + 2]
    ensures ForwardSpin(fs, t)
  {
  }

  /** The whole loop over the four children at t0. */
  method SpinChildren(m: Mesh, t0: nat)
    requires m.Valid() && m.Layout() && t0 + 4 <= |m.tris|
    modifies m`edges
    ensures m.Valid() && m.Layout() && |m.edges| == old(|m.edges|)
    ensures forall e :: 0 <= e < |m.edges| && !(3 * t0 <= e < 3 * t0 + 12) ==> m.edges[e] == old(m.edges[e])
    ensures forall e :: 3 * t0 <= e < 3 * t0 + 12 ==> m.edges[e] == old(m.edges[e]).(next := m.edges[e].next)
    ensures forall t :: t0 <= t < t0 + 4 ==> ForwardSpin(m.edges, t)
  {
    for j := 0 to 4
      invariant m.Valid() && m.Layout() && |m.edges| == old(|m.edges|)
      invariant forall e :: 0 <= e < |m.edges| && !(3 * t0 <= e < 3 * (t0 + j)) ==> m.edges[e] == old(m.edges[e])
      invariant forall e :: 3 * t0 <= e < 3 * (t0 + j) ==> m.edges[e] == old(m.edges[e]).(next := m.edges[e].next)
      invariant forall t :: t0 <= t < t0 + j ==> ForwardSpin(m.edges, t)
    {
      ghost var es := m.edges;
      SpinChild(m, t0 + j);
      forall t | t0 <= t < t0 + j ensures ForwardSpin(m.edges, t) {
        SpinKept(es, m.edges, t);
      }
    }
  }

  /** loop_subdivision.py:383-388: the first side edge of child 0 and of
      child 1 paired with the two halves e1 and e0 the previous triangle
      passed in. */
  method LinkOuter(m: Mesh, t0: nat, e0: nat, e1: nat)
    requires m.Valid() && m.Layout() && t0 + 4 <= |m.tris| && e0 < |m.edges| && e1 < |m.edges|
    modifies m`edges
    ensures m.Valid() && m.Layout()
    ensures m.edges == PairWrite(PairWrite(PairWrite(PairWrite(old(m.edges), 3 * t0, e1), e1, 3 * t0), 3 * t0 + 3, e0), e0, 3 * t0 + 3)
    ensures SameButPairs(old(m.edges), m.edges) && |m.edges| == old(|m.edges|)
    ensures e0 != e1 && e0 < 3 * t0 && e1 < 3 * t0 ==>
              m.edges[3 * t0].pair == Some(e1) && m.edges[e1].pair == Some(3 * t0) &&
              m.edges[3 * t0 + 3].pair == Some(e0) && m.edges[e0].pair == Some(3 * t0 + 3)
  {
    SetPair(m, 3 * t0, e1);
    SetPair(m, e1, 3 * t0);
    SetPair(m, 3 * t0 + 3, e0);
    SetPair(m, e0, 3 * t0 + 3);
  }

  /** loop_subdivision.py:422-433 / 170-181: the two halves of each side
      of the split triangle, stored in the side's `subdivision` slot: side
      s gets edge 0 of children 0 and 1, side n1 edge 1 of child 1 and edge
      0 of child 2, side n2 edge 1 of child 2 and edge 2 of child 0. A later
      write to the same side wins. */
  function CachedHalves(es: seq<HalfEdge>, s: nat, n1: nat, n2: nat, t0: nat): (fs: seq<HalfEdge>)
    requires s < |es| && n1 < |es| && n2 < |es|
    ensures SameButSubs(es, fs)
    ensures forall e :: 0 <= e < |fs| && e != s && e != n1 && e != n2 ==> fs[e] == es[e]
    ensures fs[n2].sub0 == Some(3 * t0 + 7) && fs[n2].sub1 == Some(3 * t0 + 2)
    ensures n1 != n2 ==> fs[n1].sub0 == Some(3 * t0 + 4) && fs[n1].sub1 == Some(3 * t0 + 6)
    ensures s != n1 && s != n2 ==> fs[s].sub0 == Some(3 * t0) && fs[s].sub1 == Some(3 * t0 + 3)
  {
    SubsWrite(SubsWrite(SubsWrite(es, s, 3 * t0, 3 * t0 + 3), n1, 3 * t0 + 4, 3 * t0 + 6), n2, 3 * t0 + 7, 3 * t0 + 2)
  }

  /** The three `subdivision` writes of loop_subdivision.py:422-433. */
  method StoreSplits(m: Mesh, s: nat, n1: nat, n2: nat, t0: nat)
    requires m.Valid() && s < |m.edges| && n1 < |m.edges| && n2 < |m.edges|
    modifies m`edges
    ensures m.Valid() && SameButSubs(old(m.edges), m.edges)
    ensures m.edges == CachedHalves(old(m.edges), s, n1, n2, t0)
    ensures forall e :: 0 <= e < |m.edges| && e != s && e != n1 && e != n2 ==> m.edges[e] == old(m.edges[e])
    ensures m.edges[n2].sub0 == Some(3 * t0 + 7) && m.edges[n2].sub1 == Some(3 * t0 + 2)
    ensures n1 != n2 ==> m.edges[n1].sub0 == Some(3 * t0 + 4) && m.edges[n1].sub1 == Some(3 * t0 + 6)
    ensures s != n1 && s != n2 ==> m.edges[s].sub0 == Some(3 * t0) && m.edges[s].sub1 == Some(3 * t0 + 3)
  {
    SetSubs(m, s, 3 * t0, 3 * t0 + 3);
    SetSubs(m, n1, 3 * t0 + 4, 3 * t0 + 6);
    SetSubs(m, n2, 3 * t0 + 7, 3 * t0 + 2);
  }

  // ---------------------------------------------------------------
  // Linking back to a neighbour already split
  // ---------------------------------------------------------------

  /** v.color = [0.0, 1.0, 1.0]. */
  method PaintVertex(m: Mesh, v: nat)
    requires m.Valid() && v < |m.vertices|
    modifies m`vertices
    ensures m.Valid()
    ensures m.vertices == Paint(old(m.vertices), v)
  {
    m.vertices := m.vertices[v := m.vertices[v].(color := Cyan)];
    assert forall t :: 0 <= t < |m.tris| ==> TriangleWired(m.tris[t], |m.vertices|, |m.edges|) by {
      forall t | 0 <= t < |m.tris| ensures TriangleWired(m.tris[t], |m.vertices|, |m.edges|) {
        assert TriangleWired(m.tris[t], old(|m.vertices|), |m.edges|);
      }
    }
    assert forall e :: 0 <= e < |m.edges| ==> EdgeWired(m.edges[e], |m.vertices|, |m.tris|, |m.edges|) by {
      forall e | 0 <= e < |m.edges| ensures EdgeWired(m.edges[e], |m.vertices|, |m.tris|, |m.edges|) {
        assert EdgeWired(m.edges[e], old(|m.vertices|), |m.tris|, |m.edges|);
      }
    }
  }

  /** loop_subdivision.py:245-248: e0 and the second stored half b paired,
      then e1 and the first stored half a. */
  method PairBack(m: Mesh, a: nat, b: nat, e0: nat, e1: nat)
    requires m.Valid() && m.Layout() && a < |m.edges| && b < |m.edges| && e0 < |m.edges| && e1 < |m.edges|
    modifies m`edges
    ensures m.Valid() && m.Layout()
    ensures m.edges == PairWrite(PairWrite(PairWrite(PairWrite(old(m.edges), e0, b), b, e0), e1, a), a, e1)
  {
    SetPair(m, e0, b);
    SetPair(m, b, e0);
    SetPair(m, e1, a);
    SetPair(m, a, e1);
  }

  /** The triangle on the far side of edge e in the new mesh (the
      triangle of its pair, which the storage layout determines). */
  function FarTriangle(m: Mesh, e: nat): (t: nat)
    reads m
    requires m.Valid() && m.Layout() && e < |m.edges| && m.edges[e].pair.Some?
    ensures t < |m.tris| && t == m.edges[e].pair.value / 3
  {
    var p := m.edges[e].pair.value;
    assert EdgeWired(m.edges[e], |m.vertices|, |m.tris|, |m.edges|);
    assert m.edges[p].tri == Some(p / 3);
    m.edges[p].tri.value
  }

  /** adj with t appended to the list of v. */
  function AdjWrite(adj: seq<seq<nat>>, v: nat, t: nat): (r: seq<seq<nat>>)
    requires v < |adj|
    ensures |r| == |adj| && r[v] == adj[v] + [t]
    ensures forall u :: 0 <= u < |adj| && u != v ==> r[u] == adj[u]
  {
    adj[v := adj[v] + [t]]
  }

  /** Every adjacency list only grows at its end. */
  predicate AdjGrows(adj: seq<seq<nat>>, bdj: seq<seq<nat>>) {
    |adj| == |bdj| && forall v :: 0 <= v < |adj| ==> adj[v] <= bdj[v]
  }

  /** loop_subdivision.py:252-254: each end of each stored half gets the
      triangle across that half. */
  method ShareTriangles(m: Mesh, a: nat, b: nat)
    requires m.Valid() && m.Layout() && a < |m.edges| && b < |m.edges|
    requires m.edges[a].pair.Some? && m.edges[b].pair.Some?
    modifies m`adjTris
    ensures m.Valid() && AdjGrows(old(m.adjTris), m.adjTris)
    ensures var x, y, ta, tb := m.edges[a], m.edges[b], FarTriangle(m, a), FarTriangle(m, b);
            m.adjTris == AdjWrite(AdjWrite(AdjWrite(AdjWrite(old(m.adjTris), x.v0, ta), x.v1, ta), y.v0, tb), y.v1, tb)
  {
    assert EdgeWired(m.edges[a], |m.vertices|, |m.tris|, |m.edges|);
    assert EdgeWired(m.edges[b], |m.vertices|, |m.tris|, |m.edges|);
    var ta, tb := FarTriangle(m, a), FarTriangle(m, b);
    AppendAdj(m, m.edges[a].v0, ta);
    AppendAdj(m, m.edges[a].v1, ta);
    AppendAdj(m, m.edges[b].v0, tb);
    AppendAdj(m, m.edges[b].v1, tb);
  }

  /** loop_subdivision.py:261-267: the end of a that b also holds (its
      second end if b holds it, else its first) is the split midpoint, and
      gets the triangle across the successor of e0. */
  method ShareCentre(m: Mesh, a: nat, b: nat, e0: nat) returns (r: Outcome)
    requires m.Valid() && m.Layout() && a < |m.edges| && b < |m.edges| && e0 < |m.edges|
    modifies m`adjTris
    ensures m.Valid() && AdjGrows(old(m.adjTris), m.adjTris)
    ensures m.edges[e0].next.None? ==> r == Failed(MissingNext)
    ensures m.edges[e0].next.Some? && m.edges[m.edges[e0].next.value].pair.None? ==> r == Failed(MissingPair)
    ensures r.Done? ==>
              var mp := if HasEnd(m.edges[b], m.edges[a].v1) then m.edges[a].v1 else m.edges[a].v0;
              m.edges[e0].next.Some? && mp < |m.adjTris| &&
              m.adjTris == AdjWrite(old(m.adjTris), mp, FarTriangle(m, m.edges[e0].next.value))
    ensures r.Failed? ==> m.adjTris == old(m.adjTris) && (r.fault == MissingNext || r.fault == MissingPair)
  {
    assert EdgeWired(m.edges[a], |m.vertices|, |m.tris|, |m.edges|);
    assert EdgeWired(m.edges[e0], |m.vertices|, |m.tris|, |m.edges|);
    var mp := if HasEnd(m.edges[b], m.edges[a].v1) then m.edges[a].v1 else m.edges[a].v0;
    var n := m.edges[e0].next;
    if n.None? {
      return Failed(MissingNext);
    }
    if m.edges[n.value].pair.None? {
      return Failed(MissingPair);
    }
    AppendAdj(m, mp, FarTriangle(m, n.value));
    r := Done;
  }

  /** es with the ends of e set to u and w. */
  function EndsWrite(es: seq<HalfEdge>, e: nat, u: nat, w: nat): (fs: seq<HalfEdge>)
    requires e < |es|
    ensures |fs| == |es| && fs[e] == es[e].(v0 := u, v1 := w)
    ensures forall f :: 0 <= f < |es| && f != e ==> fs[f] == es[f]
  {
    es[e := es[e].(v0 := u, v1 := w)]
  }

  /** The four writes of loop_subdivision.py:273-277 in turn, each read
      seeing the writes before it: e0 takes the ends of b and e1 the ends
      of a, each reversed. */
  function ImportedEnds(es: seq<HalfEdge>, a: nat, b: nat, e0: nat, e1: nat): (fs: seq<HalfEdge>)
    requires a < |es| && b < |es| && e0 < |es| && e1 < |es|
    ensures |fs| == |es|
  {
    var s1 := EndWrite(es, e0, 0, es[b].v1);
    var s2 := EndWrite(s1, e0, 1, s1[b].v0);
    var s3 := EndWrite(s2, e1, 0, s2[a].v1);
    EndWrite(s3, e1, 1, s3[a].v0)
  }

  /** Only ends change; when no target is a source and the targets
      differ, e0 holds b's ends reversed, e1 a's ends reversed, and every
      other edge is as it was. */
  lemma ImportedEndsMeaning(es: seq<HalfEdge>, a: nat, b: nat, e0: nat, e1: nat)
    requires a < |es| && b < |es| && e0 < |es| && e1 < |es|
    ensures var fs := ImportedEnds(es, a, b, e0, e1);
            (forall e :: 0 <= e < |es| ==> fs[e] == es[e].(v0 := fs[e].v0, v1 := fs[e].v1)) &&
            (e0 != b && e0 != a && e1 != a && e0 != e1 ==>
               fs[e0] == es[e0].(v0 := es[b].v1, v1 := es[b].v0) &&
               fs[e1] == es[e1].(v0 := es[a].v1, v1 := es[a].v0) &&
               forall e :: 0 <= e < |es| && e != e0 && e != e1 ==> fs[e] == es[e])
  {
    var s1 := EndWrite(es, e0, 0, es[b].v1);
    var s2 := EndWrite(s1, e0, 1, s1[b].v0);
    var s3 := EndWrite(s2, e1, 0, s2[a].v1);
    var fs := EndWrite(s3, e1, 1, s3[a].v0);
    assert fs == ImportedEnds(es, a, b, e0, e1);
  }

  /** The writes themselves. */
  method ImportEnds(m: Mesh, a: nat, b: nat, e0: nat, e1: nat)
    requires m.Valid() && m.Layout() && a < |m.edges| && b < |m.edges| && e0 < |m.edges| && e1 < |m.edges|
    modifies m`edges
    ensures m.Valid() && m.Layout()
    ensures m.edges == ImportedEnds(old(m.edges), a, b, e0, e1)
  {
    assert EdgeWired(m.edges[b], |m.vertices|, |m.tris|, |m.edges|);
    SetEnd(m, e0, 0, m.edges[b].v1);
    assert EdgeWired(m.edges[b], |m.vertices|, |m.tris|, |m.edges|);
    SetEnd(m, e0, 1, m.edges[b].v0);
    assert EdgeWired(m.edges[a], |m.vertices|, |m.tris|, |m.edges|);
    SetEnd(m, e1, 0, m.edges[a].v1);
    assert EdgeWired(m.edges[a], |m.vertices|, |m.tris|, |m.edges|);
    SetEnd(m, e1, 1, m.edges[a].v0);
  }

  /** The colour loop of loop_subdivision.py:280-282. */
  const Cyan := Color(0.0, 1.0, 1.0)

  /** vs with vertex v cyan. */
  function Paint(vs: seq<Vertex>, v: nat): (ws: seq<Vertex>)
    requires v < |vs|
    ensures |ws| == |vs| && ws[v] == vs[v].(color := Cyan)
    ensures forall u :: 0 <= u < |vs| ==> ws[u] == vs[u].(color := ws[u].color)
    ensures forall u :: 0 <= u < |vs| && u != v ==> ws[u] == vs[u]
  {
    vs[v := vs[v].(color := Cyan)]
  }

  /** loop_subdivision.py:280-282: each end of the two stored halves turns cyan. */
  method Recolour(m: Mesh, a: nat, b: nat)
    requires m.Valid() && a < |m.edges| && b < |m.edges|
    modifies m`vertices
    ensures m.Valid() && |m.vertices| == old(|m.vertices|)
    ensures var x, y := m.edges[a], m.edges[b];
            m.vertices == Paint(Paint(Paint(Paint(old(m.vertices), x.v0), x.v1), y.v0), y.v1)
  {
    assert EdgeWired(m.edges[a], |m.vertices|, |m.tris|, |m.edges|);
    assert EdgeWired(m.edges[b], |m.vertices|, |m.tris|, |m.edges|);
    PaintVertex(m, m.edges[a].v0);
    PaintVertex(m, m.edges[a].v1);
    PaintVertex(m, m.edges[b].v0);
    PaintVertex(m, m.edges[b].v1);
  }

  /** The four pair writes of loop_subdivision.py:245-248. */
  function PairedBack(es: seq<HalfEdge>, a: nat, b: nat, e0: nat, e1: nat): (fs: seq<HalfEdge>)
    requires a < |es| && b < |es| && e0 < |es| && e1 < |es|
    ensures |fs| == |es|
  {
    PairWrite(PairWrite(PairWrite(PairWrite(es, e0, b), b, e0), e1, a), a, e1)
  }

  /** The pair writes change pairs only, and leave all four edges paired. */
  lemma PairedBackShape(es: seq<HalfEdge>, a: nat, b: nat, e0: nat, e1: nat)
    requires a < |es| && b < |es| && e0 < |es| && e1 < |es|
    ensures var fs := PairedBack(es, a, b, e0, e1);
            SameButEndsAndPairs(es, fs) && fs[a].pair.Some? && fs[b].pair.Some? && fs[e0].pair.Some? && fs[e1].pair.Some?
  {
  }

  /** fs is es with some ends and pairs changed and nothing else. */
  predicate SameButEndsAndPairs(es: seq<HalfEdge>, fs: seq<HalfEdge>) {
    |es| == |fs| && forall e :: 0 <= e < |es| ==> fs[e] == es[e].(v0 := fs[e].v0, v1 := fs[e].v1, pair := fs[e].pair)
  }

  /** What linking back does to the edges: only ends and pairs change,
      and when the four edges are distinct, e0 and b become pairs, e1 and a
      become pairs, e0 takes b's ends reversed and e1 a's ends reversed. */
  lemma LinkBackMeaning(es: seq<HalfEdge>, a: nat, b: nat, e0: nat, e1: nat)
    requires a < |es| && b < |es| && e0 < |es| && e1 < |es|
    ensures var fs := ImportedEnds(PairedBack(es, a, b, e0, e1), a, b, e0, e1);
            SameButEndsAndPairs(es, fs) &&
            (e0 != e1 && e0 != a && e0 != b && e1 != a && e1 != b && a != b ==>
               fs[e0] == es[e0].(pair := Some(b), v0 := es[b].v1, v1 := es[b].v0) &&
               fs[e1] == es[e1].(pair := Some(a), v0 := es[a].v1, v1 := es[a].v0) &&
               fs[a] == es[a].(pair := Some(e1)) && fs[b] == es[b].(pair := Some(e0)) &&
               forall e :: 0 <= e < |es| && e != e0 && e != e1 && e != a && e != b ==> fs[e] == es[e])
  {
    var ps := PairedBack(es, a, b, e0, e1);
    ImportedEndsMeaning(ps, a, b, e0, e1);
  }

  /** The visited case of recursive_subdivide (loop_subdivision.py:236-285):
      nothing to do when e0 and e1 are both paired; otherwise the two halves
      a, b stored in the entry edge's `subdivision` slot are linked to e1 and
      e0, adjacency lists are shared, the halves' ends are imported into
      e0 and e1, and the halves' ends are painted cyan. */
  method LinkBack(m: Mesh, o0: Option<nat>, o1: Option<nat>, e0: nat, e1: nat) returns (r: Outcome)
    requires m.Valid() && m.Layout() && e0 < |m.edges| && e1 < |m.edges| && Below(o0, |m.edges|) && Below(o1, |m.edges|)
    modifies m`edges, m`adjTris, m`vertices
    ensures m.Valid() && m.Layout() && |m.vertices| == old(|m.vertices|)
    ensures SameButEndsAndPairs(old(m.edges), m.edges) && AdjGrows(old(m.adjTris), m.adjTris)
    ensures old(m.edges[e0].pair.Some? && m.edges[e1].pair.Some?) ==>
              r == Done && m.edges == old(m.edges) && m.adjTris == old(m.adjTris) && m.vertices == old(m.vertices)
    ensures old(m.edges[e0].pair.None? || m.edges[e1].pair.None?) && (o0.None? || o1.None?) ==>
              r == Failed(MissingSubdivision)
    ensures r.Failed? ==> r.fault == MissingSubdivision || r.fault == MissingNext || r.fault == MissingPair
    ensures r.Done? && old(m.edges[e0].pair.None? || m.edges[e1].pair.None?) ==>
              o0.Some? && o1.Some? &&
              m.edges == ImportedEnds(PairedBack(old(m.edges), o0.value, o1.value, e0, e1), o0.value, o1.value, e0, e1) &&
              var x, y := m.edges[o0.value], m.edges[o1.value];
              m.vertices == Paint(Paint(Paint(Paint(old(m.vertices), x.v0), x.v1), y.v0), y.v1)
  {
    if m.edges[e0].pair.Some? && m.edges[e1].pair.Some? {
      return Done;
    }
    if o0.None? || o1.None? {
      return Failed(MissingSubdivision);
    }
    r := Relink(m, o0.value, o1.value, e0, e1);
  }

  /** loop_subdivision.py:245-282, once both halves a and b are known. */
  method Relink(m: Mesh, a: nat, b: nat, e0: nat, e1: nat) returns (r: Outcome)
    requires m.Valid() && m.Layout() && e0 < |m.edges| && e1 < |m.edges| && a < |m.edges| && b < |m.edges|
    modifies m`edges, m`adjTris, m`vertices
    ensures m.Valid() && m.Layout() && |m.vertices| == old(|m.vertices|)
    ensures SameButEndsAndPairs(old(m.edges), m.edges) && AdjGrows(old(m.adjTris), m.adjTris)
    ensures r.Failed? ==> r.fault == MissingNext || r.fault == MissingPair
    ensures r.Done? ==>
              m.edges == ImportedEnds(PairedBack(old(m.edges), a, b, e0, e1), a, b, e0, e1) &&
              var x, y := m.edges[a], m.edges[b];
              m.vertices == Paint(Paint(Paint(Paint(old(m.vertices), x.v0), x.v1), y.v0), y.v1)
  {
    r := RelinkPairs(m, a, b, e0, e1);
    if r.Failed? {
      return;
    }
    LinkBackMeaning(old(m.edges), a, b, e0, e1);
    ImportEnds(m, a, b, e0, e1);
    Recolour(m, a, b);
  }

  /** loop_subdivision.py:245-267: the pairs and the adjacency lists. */
  method RelinkPairs(m: Mesh, a: nat, b: nat, e0: nat, e1: nat) returns (r: Outcome)
    requires m.Valid() && m.Layout() && e0 < |m.edges| && e1 < |m.edges| && a < |m.edges| && b < |m.edges|
    modifies m`edges, m`adjTris
    ensures m.Valid() && m.Layout()
    ensures m.edges == PairedBack(old(m.edges), a, b, e0, e1) && SameButEndsAndPairs(old(m.edges), m.edges)
    ensures AdjGrows(old(m.adjTris), m.adjTris)
    ensures r.Failed? ==> r.fault == MissingNext || r.fault == MissingPair
  {
    PairBack(m, a, b, e0, e1);
    PairedBackShape(old(m.edges), a, b, e0, e1);
    ghost var adj0 := m.adjTris;
    ShareTriangles(m, a, b);
    ghost var adj1 := m.adjTris;
    r := ShareCentre(m, a, b, e0);
    assert AdjGrows(old(m.adjTris), m.adjTris) by {
      forall v | 0 <= v < |m.adjTris| ensures old(m.adjTris)[v] <= m.adjTris[v] {
        assert adj0[v] <= adj1[v] <= m.adjTris[v];
      }
    }
  }

  // ---------------------------------------------------------------
  // The far sides of a triangle entered across a split edge
  // ---------------------------------------------------------------

  /** What the loop of loop_subdivision.py:299-334 finds for a triangle
      entered through edge s: the two further sides n1 and n2 (in `nextEdge`
      order) and the entries 3..5 of new_v: the point on n1, then either the
      two ends of the first half of n2's mate, when the triangle across n2
      has already been split, or n2's repositioned tip and its point. */
  datatype Far = Far(n1: nat, n2: nat, slots: seq<Slot>)

  /** The two entries the side n2 gives at i = 2: the halves' ends
      imported from the mate's triangle when it is already split, else the
      tip and the point of n2; the first fault wins. */
  function FarPair(vs: seq<Vertex>, adj: seq<seq<nat>>, ts: seq<Triangle>, es: seq<HalfEdge>,
                   ns: seq<HalfEdge>, cosOf: nat -> real, n2: nat): (r: Result<seq<Slot>>)
    requires Wired(vs, adj, ts, es) && n2 < |es| && SubsBelow(es, |ns|)
    ensures r.Ok? ==> |r.value| == 2 && (r.value[0].Existing? <==> r.value[1].Existing?)
    ensures r.Ok? && r.value[0].Existing? ==>
              es[n2].pair.Some? && es[es[n2].pair.value].sub0.Some? &&
              var o := es[es[n2].pair.value].sub0.value;
              r.value[0].h == ns[o].v0 && r.value[1].h == ns[o].v1
    ensures r.Ok? && r.value[0].Fresh? ==> SideAt(vs, adj, ts, es, cosOf, n2) == Ok(Side(n2, r.value[0].v, r.value[1].v))
  {
    var z := es[n2];
    assert EdgeWired(z, |vs|, |ts|, |es|);
    if z.pair.Some? && es[z.pair.value].tri.None? then Err(MissingTriangle)
    else if z.pair.Some? && (assert EdgeWired(es[z.pair.value], |vs|, |ts|, |es|); ts[es[z.pair.value].tri.value].visited) then
      var o := es[z.pair.value].sub0;
      if o.None? then Err(MissingSubdivision)
      else Ok([Existing(ns[o.value].v0), Existing(ns[o.value].v1)])
    else
      match SideAt(vs, adj, ts, es, cosOf, n2)
      case Err(f) => Err(f)
      case Ok(sd) => Ok([Fresh(sd.tip), Fresh(sd.point)])
  }

  /** The far sides of the triangle entered through s, read from the old
      mesh (vs, adj, ts, es) and, for halves already made, from the new
      mesh's edges ns; the first fault wins. */
  function FarSides(vs: seq<Vertex>, adj: seq<seq<nat>>, ts: seq<Triangle>, es: seq<HalfEdge>,
                    ns: seq<HalfEdge>, cosOf: nat -> real, s: nat): (r: Result<Far>)
    requires Wired(vs, adj, ts, es) && s < |es| && SubsBelow(es, |ns|)
    ensures es[s].next.None? ==> r == Err(MissingNext)
    ensures r.Ok? ==>
              var f := r.value;
              es[s].next == Some(f.n1) && f.n1 < |es| && es[f.n1].next == Some(f.n2) && f.n2 < |es| &&
              |f.slots| == 3 && f.slots[0].Fresh? && (f.slots[1].Existing? <==> f.slots[2].Existing?) &&
              EdgeRule(vs, ts, es, f.n1).Ok? && f.slots[0].v.loc == EdgeRule(vs, ts, es, f.n1).value.loc &&
              f.slots[0].v.color == BlendColor(vs[es[f.n1].v0].color, vs[es[f.n1].v1].color)
    ensures r.Ok? && r.value.slots[1].Existing? ==>
              var f := r.value;
              es[f.n2].pair.Some? && es[es[f.n2].pair.value].sub0.Some? &&
              var o := es[es[f.n2].pair.value].sub0.value;
              f.slots[1].h == ns[o].v0 && f.slots[2].h == ns[o].v1
    ensures r.Ok? && r.value.slots[1].Fresh? ==>
              var f := r.value;
              SideAt(vs, adj, ts, es, cosOf, f.n2) == Ok(Side(f.n2, f.slots[1].v, f.slots[2].v))
  {
    assert EdgeWired(es[s], |vs|, |ts|, |es|);
    if es[s].next.None? then Err(MissingNext)
    else
      var n1 := es[s].next.value;
      var y := es[n1];
      assert EdgeWired(y, |vs|, |ts|, |es|);
      if y.pair.Some? && es[y.pair.value].tri.None? then Err(MissingTriangle)
      else match EdgeRule(vs, ts, es, n1)
        case Err(f) => Err(f)
        case Ok(p) =>
          var p3 := Fresh(p.(color := BlendColor(vs[y.v0].color, vs[y.v1].color)));
          if y.next.None? then Err(MissingNext)
          else
            match FarPair(vs, adj, ts, es, ns, cosOf, y.next.value)
            case Err(f) => Err(f)
            case Ok(ps) => Ok(Far(n1, y.next.value, [p3, ps[0], ps[1]]))
  }

  /** Step i = 2 of the loop. */
  method BorderPair(vs: seq<Vertex>, adj: seq<seq<nat>>, ts: seq<Triangle>, es: seq<HalfEdge>,
                    ns: seq<HalfEdge>, cosOf: nat -> real, n2: nat) returns (r: Result<seq<Slot>>)
    requires Wired(vs, adj, ts, es) && n2 < |es| && SubsBelow(es, |ns|)
    ensures r == FarPair(vs, adj, ts, es, ns, cosOf, n2)
  {
    var z := es[n2];
    assert EdgeWired(z, |vs|, |ts|, |es|);
    if z.pair.Some? && es[z.pair.value].tri.None? {
      return Err(MissingTriangle);
    }
    if z.pair.Some? {
      assert EdgeWired(es[z.pair.value], |vs|, |ts|, |es|);
      if ts[es[z.pair.value].tri.value].visited {
        var o := es[z.pair.value].sub0;
        if o.None? {
          return Err(MissingSubdivision);
        }
        return Ok([Existing(ns[o.value].v0), Existing(ns[o.value].v1)]);
      }
    }
    var sd := SplitSide(vs, adj, ts, es, cosOf, n2);
    if sd.Err? {
      return Err(sd.fault);
    }
    return Ok([Fresh(sd.value.tip), Fresh(sd.value.point)]);
  }

  /** The loop itself, unrolled: at i = 1 only the edge rule runs on n1;
      at i = 2 the mate's halves are imported or n2 is split. */
  method BorderVertices(vs: seq<Vertex>, adj: seq<seq<nat>>, ts: seq<Triangle>, es: seq<HalfEdge>,
                        ns: seq<HalfEdge>, cosOf: nat -> real, s: nat) returns (r: Result<Far>)
    requires Wired(vs, adj, ts, es) && s < |es| && SubsBelow(es, |ns|)
    ensures r == FarSides(vs, adj, ts, es, ns, cosOf, s)
  {
    assert EdgeWired(es[s], |vs|, |ts|, |es|);
    var next := es[s].next;
    if next.None? {
      return Err(MissingNext);
    }
    var n1 := next.value;
    var y := es[n1];
    assert EdgeWired(y, |vs|, |ts|, |es|);
    if y.pair.Some? && es[y.pair.value].tri.None? {
      return Err(MissingTriangle);
    }
    var p := EdgeRule(vs, ts, es, n1);
    if p.Err? {
      return Err(p.fault);
    }
    var p3 := Fresh(p.value.(color := BlendColor(vs[y.v0].color, vs[y.v1].color)));
    if y.next.None? {
      return Err(MissingNext);
    }
    var ps := BorderPair(vs, adj, ts, es, ns, cosOf, y.next.value);
    if ps.Err? {
      return Err(ps.fault);
    }
    return Ok(Far(n1, y.next.value, [p3, ps.value[0], ps.value[1]]));
  }

  // ---------------------------------------------------------------
  // Moving the old mesh moves the new vertices
  // ---------------------------------------------------------------

  /** Moving every old vertex by d moves the tip and the point of a side
      by d, and changes no outcome. */
  lemma SideAtTranslates(vs: seq<Vertex>, ws: seq<Vertex>, adj: seq<seq<nat>>, ts: seq<Triangle>,
                         es: seq<HalfEdge>, cosOf: nat -> real, e: nat, d: Point)
    requires Wired(vs, adj, ts, es) && e < |es|
    requires |ws| == |vs| && forall u :: 0 <= u < |vs| ==> ws[u].loc == AddPoints(vs[u].loc, d)
    ensures Wired(ws, adj, ts, es)
    ensures SideAt(ws, adj, ts, es, cosOf, e).Ok? == SideAt(vs, adj, ts, es, cosOf, e).Ok?
    ensures SideAt(vs, adj, ts, es, cosOf, e).Ok? ==>
              SideAt(ws, adj, ts, es, cosOf, e).value.tip.loc == AddPoints(SideAt(vs, adj, ts, es, cosOf, e).value.tip.loc, d) &&
              SideAt(ws, adj, ts, es, cosOf, e).value.point.loc == AddPoints(SideAt(vs, adj, ts, es, cosOf, e).value.point.loc, d)
  {
    assert EdgeWired(es[e], |vs|, |ts|, |es|);
    EdgeRuleAffine(vs, ws, ts, es, e, d);
    if es[e].next.Some? {
      VertexRuleTranslates(vs, ws, adj, ts, es, cosOf, Tip(es, e), d);
    }
  }

  /** The sides q are the sides r moved by d, over the same edges, and
      both or neither are faults. */
  predicate SidesMoved(r: Result<seq<Side>>, q: Result<seq<Side>>, d: Point) {
    q.Ok? == r.Ok? &&
    (r.Ok? ==>
       |q.value| == |r.value| &&
       forall i :: 0 <= i < |r.value| ==>
         q.value[i].edge == r.value[i].edge &&
         q.value[i].tip.loc == AddPoints(r.value[i].tip.loc, d) &&
         q.value[i].point.loc == AddPoints(r.value[i].point.loc, d))
  }

  lemma ConsMoved(a: Side, b: Side, r: Result<seq<Side>>, q: Result<seq<Side>>, d: Point)
    requires b.edge == a.edge && b.tip.loc == AddPoints(a.tip.loc, d) && b.point.loc == AddPoints(a.point.loc, d)
    requires SidesMoved(r, q, d)
    ensures SidesMoved(Cons(a, r), Cons(b, q), d)
  {
    if r.Ok? {
      var x, y := Cons(a, r).value, Cons(b, q).value;
      forall i | 0 <= i < |x|
        ensures y[i].edge == x[i].edge && y[i].tip.loc == AddPoints(x[i].tip.loc, d) && y[i].point.loc == AddPoints(x[i].point.loc, d)
      {
        if i > 0 {
          assert x[i] == r.value[i - 1] && y[i] == q.value[i - 1];
        }
      }
    }
  }

  /** ... and so of k sides in a row. */
  lemma {:induction false} SidesTranslate(vs: seq<Vertex>, ws: seq<Vertex>, adj: seq<seq<nat>>, ts: seq<Triangle>,
                                          es: seq<HalfEdge>, cosOf: nat -> real, e: nat, k: nat, d: Point)
    requires Wired(vs, adj, ts, es) && e < |es|
    requires |ws| == |vs| && forall u :: 0 <= u < |vs| ==> ws[u].loc == AddPoints(vs[u].loc, d)
    ensures Wired(ws, adj, ts, es)
    ensures SidesMoved(Sides(vs, adj, ts, es, cosOf, e, k), Sides(ws, adj, ts, es, cosOf, e, k), d)
    decreases k
  {
    SideAtTranslates(vs, ws, adj, ts, es, cosOf, e, d);
    if k > 0 && SideAt(vs, adj, ts, es, cosOf, e).Ok? {
      var n := es[e].next.value;
      SidesTranslate(vs, ws, adj, ts, es, cosOf, n, k - 1, d);
      ConsMoved(SideAt(vs, adj, ts, es, cosOf, e).value, SideAt(ws, adj, ts, es, cosOf, e).value,
                Sides(vs, adj, ts, es, cosOf, n, k - 1), Sides(ws, adj, ts, es, cosOf, n, k - 1), d);
    }
  }

  /** Slot b is slot a moved by d: a computed vertex moved, an imported
      one the same. */
  predicate Moved(a: Slot, b: Slot, d: Point) {
    a.Fresh? == b.Fresh? &&
    (a.Existing? ==> b == a) &&
    (a.Fresh? ==> b.v.loc == AddPoints(a.v.loc, d))
  }

  /** Moving every old vertex by d moves the two entries of side n2 as
      Moved says, and changes no outcome. */
  lemma FarPairTranslates(vs: seq<Vertex>, ws: seq<Vertex>, adj: seq<seq<nat>>, ts: seq<Triangle>,
                          es: seq<HalfEdge>, ns: seq<HalfEdge>, cosOf: nat -> real, n2: nat, d: Point)
    requires Wired(vs, adj, ts, es) && n2 < |es| && SubsBelow(es, |ns|)
    requires |ws| == |vs| && forall u :: 0 <= u < |vs| ==> ws[u].loc == AddPoints(vs[u].loc, d)
    ensures Wired(ws, adj, ts, es)
    ensures var r, q := FarPair(vs, adj, ts, es, ns, cosOf, n2), FarPair(ws, adj, ts, es, ns, cosOf, n2);
            q.Ok? == r.Ok? && (r.Ok? ==> Moved(r.value[0], q.value[0], d) && Moved(r.value[1], q.value[1], d))
  {
    assert EdgeWired(es[n2], |vs|, |ts|, |es|);
    SideAtTranslates(vs, ws, adj, ts, es, cosOf, n2, d);
  }

  /** Moving every old vertex by d moves every computed entry of the far
      sides by d, leaves the imported ones alone, and changes no outcome. */
  lemma FarSidesTranslate(vs: seq<Vertex>, ws: seq<Vertex>, adj: seq<seq<nat>>, ts: seq<Triangle>,
                          es: seq<HalfEdge>, ns: seq<HalfEdge>, cosOf: nat -> real, s: nat, d: Point)
    requires Wired(vs, adj, ts, es) && s < |es| && SubsBelow(es, |ns|)
    requires |ws| == |vs| && forall u :: 0 <= u < |vs| ==> ws[u].loc == AddPoints(vs[u].loc, d)
    ensures Wired(ws, adj, ts, es)
    ensures var r, q := FarSides(vs, adj, ts, es, ns, cosOf, s), FarSides(ws, adj, ts, es, ns, cosOf, s);
            q.Ok? == r.Ok? &&
            (r.Ok? ==>
               q.value.n1 == r.value.n1 && q.value.n2 == r.value.n2 &&
               Moved(r.value.slots[0], q.value.slots[0], d) &&
               Moved(r.value.slots[1], q.value.slots[1], d) &&
               Moved(r.value.slots[2], q.value.slots[2], d))
  {
    assert EdgeWired(es[s], |vs|, |ts|, |es|);
    if es[s].next.Some? {
      var n1 := es[s].next.value;
      var y := es[n1];
      assert EdgeWired(y, |vs|, |ts|, |es|);
      EdgeRuleAffine(vs, ws, ts, es, n1, d);
      if y.next.Some? {
        FarPairTranslates(vs, ws, adj, ts, es, ns, cosOf, y.next.value, d);
      }
    }
  }

  // ---------------------------------------------------------------
  // Splitting one triangle
  // ---------------------------------------------------------------

  lemma SameButPairsTrans(es: seq<HalfEdge>, fs: seq<HalfEdge>, gs: seq<HalfEdge>)
    requires SameButPairs(es, fs) && SameButPairs(fs, gs)
    ensures SameButPairs(es, gs)
  {
    forall e | 0 <= e < |es| ensures gs[e] == es[e].(pair := gs[e].pair) {
      assert fs[e] == es[e].(pair := fs[e].pair);
    }
  }

  /** The spins of the first n triangles survive changes that keep the
      `nextEdge` links of their edges. */
  lemma ForwardKept(es: seq<HalfEdge>, fs: seq<HalfEdge>, n: nat)
    requires 3 * n <= |es| && 3 * n <= |fs|
    requires forall e :: 0 <= e < 3 * n ==> fs[e].next == es[e].next
    requires forall t :: 0 <= t < n ==> ForwardSpin(es, t)
    ensures forall t :: 0 <= t < n ==> ForwardSpin(fs, t)
  {
    forall t | 0 <= t < n ensures ForwardSpin(fs, t) {
      assert ForwardSpin(es, t);
      assert fs[3 * t].next == es[3 * t].next && fs[3 * t + 1].next == es[3 * t + 1].next && fs[3 * t + 2].next == es[3 * t + 2].next;
    }
  }

  /** The centre pairings and the spins of the four children at t0
      (loop_subdivision.py:400-415 / 148-163), which leave every triangle
      of the new mesh linked in storage order. */
  method Settle(m: Mesh, t0: nat)
    requires m.Valid() && m.Layout() && |m.tris| == t0 + 4 && NoSubs(m.edges)
    requires forall t :: 0 <= t < t0 ==> ForwardSpin(m.edges, t)
    modifies m`edges
    ensures m.Valid() && m.Layout() && AllForward(m) && NoSubs(m.edges)
    ensures |m.edges| == old(|m.edges|) && forall e :: 0 <= e < 3 * t0 ==> m.edges[e] == old(m.edges[e])
    ensures forall e :: 3 * t0 <= e < 3 * t0 + 12 ==>
              m.edges[e] == old(m.edges[e]).(pair := if CentreMate(t0, e).Some? then CentreMate(t0, e) else old(m.edges[e].pair),
                                             next := m.edges[e].next)
  {
    PairCentre(m, t0);
    ghost var es := m.edges;
    SpinChildren(m, t0);
    ForwardKept(old(m.edges), m.edges, t0);
    assert forall e :: 3 * t0 <= e < 3 * t0 + 12 ==> m.edges[e] == es[e].(next := m.edges[e].next);
    assert NoSubs(m.edges) by {
      forall e | 0 <= e < |m.edges| ensures NoSlots(m.edges[e]) {
        assert NoSlots(old(m.edges[e]));
      }
    }
  }

  /** Changing pairs only keeps every `subdivision` slot empty. */
  lemma NoSubsKept(es: seq<HalfEdge>, fs: seq<HalfEdge>)
    requires NoSubs(es) && SameButPairs(es, fs) && |fs| == |es|
    ensures NoSubs(fs)
  {
    forall e | 0 <= e < |fs| ensures NoSlots(fs[e]) {
      assert fs[e] == es[e].(pair := fs[e].pair);
    }
  }

  /** The four children created (Quadrisect) in a mesh built by a pass:
      the counters still count, no slot is set, and the triangles before
      them keep their spins. */
  method Children(m: Mesh, c: seq<nat>, pairByKey: bool) returns (t0: nat)
    requires m.Valid() && m.Layout() && Counted(m) && AllForward(m) && NoSubs(m.edges)
    requires |c| == 6 && AllBelow(c, |m.vertices|)
    modifies m`tris, m`adjTris, m`edges, m`edgeMap, m`tindex
    ensures m.Valid() && m.Layout() && Counted(m) && NoSubs(m.edges)
    ensures t0 == old(|m.tris|) && |m.tris| == t0 + 4 && m.tris[..t0] == old(m.tris)
    ensures forall j :: 0 <= j < 4 ==> m.tris[t0 + j].verts == Child(c, j)
    ensures SameButPairs(old(m.edges), m.edges) && (!pairByKey ==> m.edges[..3 * t0] == old(m.edges))
    ensures forall t :: 0 <= t < t0 ==> ForwardSpin(m.edges, t)
  {
    t0 := Quadrisect(m, c, pairByKey);
    ForwardKept(old(m.edges), m.edges, t0);
    assert NoSubs(m.edges) by {
      forall e | 0 <= e < |m.edges| ensures NoSlots(m.edges[e]) {
        if e < old(|m.edges|) {
          assert m.edges[e] == old(m.edges[e]).(pair := m.edges[e].pair);
        }
      }
    }
    assert Counted(m) by {
      forall t | 0 <= t < |m.tris| ensures m.tris[t].index == t {
        if t < t0 {
          assert m.tris[t] == m.tris[..t0][t];
        } else {
          var j := t - t0;
          assert m.tris[t0 + j].verts == Child(c, j);
        }
      }
    }
  }

  /** The children of a triangle entered across the halves e0 and e1 of
      its first side (loop_subdivision.py:344-415): created with pairing by
      key, their first side edges paired with e1 and e0, then settled. */
  method Carve(m: Mesh, c: seq<nat>, e0: nat, e1: nat) returns (t0: nat)
    requires m.Valid() && m.Layout() && Counted(m) && AllForward(m) && NoSubs(m.edges)
    requires |c| == 6 && AllBelow(c, |m.vertices|) && e0 < |m.edges| && e1 < |m.edges|
    modifies m`tris, m`adjTris, m`edges, m`edgeMap, m`tindex
    ensures m.Valid() && m.Layout() && Counted(m) && AllForward(m) && NoSubs(m.edges)
    ensures t0 == old(|m.tris|) && |m.tris| == t0 + 4 && m.tris[..t0] == old(m.tris)
    ensures forall j :: 0 <= j < 4 ==> m.tris[t0 + j].verts == Child(c, j)
    ensures SameButPairs(old(m.edges), m.edges)
    ensures e0 != e1 ==>
              m.edges[3 * t0].pair == Some(e1) && m.edges[e1].pair == Some(3 * t0) &&
              m.edges[3 * t0 + 3].pair == Some(e0) && m.edges[e0].pair == Some(3 * t0 + 3)
    ensures forall e :: 3 * t0 <= e < 3 * t0 + 12 && CentreMate(t0, e).Some? ==> m.edges[e].pair == CentreMate(t0, e)
  {
    ghost var es0 := m.edges;
    t0 := Children(m, c, true);
    ghost var es1 := m.edges;
    LinkOuter(m, t0, e0, e1);
    SameButPairsTrans(es0, es1, m.edges);
    NoSubsKept(es1, m.edges);
    ForwardKept(es1, m.edges, t0);
    ghost var es2 := m.edges;
    Settle(m, t0);
    assert SameButPairs(old(m.edges), m.edges) by {
      forall e | 0 <= e < |es0| ensures m.edges[e] == es0[e].(pair := m.edges[e].pair) {
        assert m.edges[e] == es2[e];
      }
    }
  }

  /** What splitting an entered triangle leaves for the recursion: its
      two further sides and the first child and six corners of its split. */
  datatype Split = Split(n1: nat, n2: nat, t0: nat, c: seq<nat>)

  /** Writing the halves of the three sides keeps every slot below n once
      the four children's edges are below n. */
  lemma SplitsBelow(es: seq<HalfEdge>, s: nat, n1: nat, n2: nat, t0: nat, n: nat)
    requires s < |es| && n1 < |es| && n2 < |es| && SubsBelow(es, n) && 3 * t0 + 8 < n
    ensures SubsBelow(SubsWrite(SubsWrite(SubsWrite(es, s, 3 * t0, 3 * t0 + 3), n1, 3 * t0 + 4, 3 * t0 + 6), n2, 3 * t0 + 7, 3 * t0 + 2), n)
  {
    var fs := SubsWrite(es, s, 3 * t0, 3 * t0 + 3);
    assert SubsBelow(fs, n);
    var gs := SubsWrite(fs, n1, 3 * t0 + 4, 3 * t0 + 6);
    assert SubsBelow(gs, n);
  }

  /** loop_subdivision.py:294-415 in the new mesh: the far entries
      placed after the three shared ones (v1, mid, v0), then the children
      carved. */
  method Build(m: Mesh, slots: seq<Slot>, e0: nat, e1: nat, v0: nat, v1: nat, mid: nat) returns (t0: nat, c: seq<nat>)
    requires m.Valid() && m.Layout() && Counted(m) && AllForward(m) && NoSubs(m.edges)
    requires |slots| == 3 && forall j :: 0 <= j < 3 && slots[j].Existing? ==> slots[j].h < |m.vertices|
    requires e0 < |m.edges| && e1 < |m.edges| && v0 < |m.vertices| && v1 < |m.vertices| && mid < |m.vertices|
    modifies m
    ensures m.Valid() && m.Layout() && Counted(m) && AllForward(m) && NoSubs(m.edges)
    ensures old(|m.vertices|) <= |m.vertices| && old(|m.edges|) <= |m.edges|
    ensures t0 == old(|m.tris|) && |m.tris| == t0 + 4 && m.tris[..t0] == old(m.tris) && 3 * t0 + 12 == |m.edges|
    ensures |c| == 6 && AllBelow(c, |m.vertices|) && c[0] == v1 && c[1] == mid && c[2] == v0
    ensures m.verts == old(m.verts) + c[3..]
    ensures forall j :: 0 <= j < 4 ==> m.tris[t0 + j].verts == Child(c, j)
    ensures forall j :: 0 <= j < 3 && slots[j].Existing? ==> c[3 + j] == slots[j].h
    ensures forall j :: 0 <= j < 3 && slots[j].Fresh? ==> m.vertices[c[3 + j]] == slots[j].v.(index := old(m.vindex) + j)
  {
    var hs := PlaceAll(m, slots);
    c := [v1, mid, v0, hs[0], hs[1], hs[2]];
    assert c[3..] == hs;
    t0 := Carve(m, c, e0, e1);
  }

  /** loop_subdivision.py:287-334 in the old mesh: the triangle marked,
      then its far sides found. */
  method Enter(oldm: Mesh, ns: seq<HalfEdge>, nvs: seq<Vertex>, cosOf: nat -> real, s: nat) returns (r: Result<Far>)
    requires oldm.Valid() && s < |oldm.edges| && SubsBelow(oldm.edges, |ns|) && AllEndsIn(nvs, ns)
    requires oldm.edges[s].tri.Some? && oldm.edges[s].tri.value < |oldm.tris|
    modifies oldm`tris
    ensures oldm.Valid()
    ensures var t := oldm.edges[s].tri.value; oldm.tris == old(oldm.tris[t := oldm.tris[t].(visited := true)])
    ensures Wired(oldm.vertices, oldm.adjTris, oldm.tris, oldm.edges)
    ensures r == FarSides(oldm.vertices, oldm.adjTris, oldm.tris, oldm.edges, ns, cosOf, s)
    ensures r.Ok? ==> forall j :: 0 <= j < 3 && r.value.slots[j].Existing? ==> r.value.slots[j].h < |nvs|
  {
    MarkVisited(oldm, oldm.edges[s].tri.value);
    ValidWired(oldm);
    r := BorderVertices(oldm.vertices, oldm.adjTris, oldm.tris, oldm.edges, ns, cosOf, s);
    if r.Ok? && r.value.slots[1].Existing? {
      var o := oldm.edges[oldm.edges[r.value.n2].pair.value].sub0.value;
      assert EndsIn(nvs, ns[o]);
    }
  }

  /** loop_subdivision.py:287-433 for the unvisited triangle across the
      old edge s, entered from a neighbour whose split left the halves e0
      and e1 and the vertices v0, v1 and mid on the shared side: the
      triangle is marked, the far sides found, the new vertices placed,
      the children carved and the halves of the three sides stored. A
      fault leaves the new mesh as it was. */
  method SplitEntered(oldm: Mesh, newm: Mesh, cosOf: nat -> real, s: nat,
                      e0: nat, e1: nat, v0: nat, v1: nat, mid: nat) returns (r: Result<Split>)
    requires Pass(oldm, newm) && s < |oldm.edges|
    requires oldm.edges[s].tri.Some? && oldm.edges[s].tri.value < |oldm.tris| && !oldm.tris[oldm.edges[s].tri.value].visited
    requires e0 < |newm.edges| && e1 < |newm.edges| && v0 < |newm.vertices| && v1 < |newm.vertices| && mid < |newm.vertices|
    modifies oldm`tris, oldm`edges, newm
    ensures Pass(oldm, newm)
    ensures var t := old(oldm.edges[s].tri.value); oldm.tris == old(oldm.tris[t := oldm.tris[t].(visited := true)])
    ensures SameButSubs(old(oldm.edges), oldm.edges)
    ensures old(|newm.vertices|) <= |newm.vertices| && old(|newm.edges|) <= |newm.edges| && old(|newm.tris|) <= |newm.tris|
    ensures r.Err? ==> newm.tris == old(newm.tris) && newm.verts == old(newm.verts)
    ensures r.Ok? ==>
              var x := r.value;
              |newm.tris| == old(|newm.tris|) + 4 && |newm.verts| == old(|newm.verts|) + 3 &&
              x.t0 == old(|newm.tris|) && 3 * x.t0 + 12 == |newm.edges| &&
              oldm.edges[s].next == Some(x.n1) && x.n1 < |oldm.edges| &&
              oldm.edges[x.n1].next == Some(x.n2) && x.n2 < |oldm.edges| &&
              |x.c| == 6 && AllBelow(x.c, |newm.vertices|) && x.c[0] == v1 && x.c[1] == mid && x.c[2] == v0 &&
              newm.verts == old(newm.verts) + x.c[3..]
    ensures r.Ok? ==> oldm.edges == CachedHalves(old(oldm.edges), s, r.value.n1, r.value.n2, r.value.t0)
  {
    newm.ValidEnds();
    var far := Enter(oldm, newm.edges, newm.vertices, cosOf, s);
    if far.Err? {
      return Err(far.fault);
    }
    var f := far.value;
    var t0, c := Build(newm, f.slots, e0, e1, v0, v1, mid);
    SplitsBelow(oldm.edges, s, f.n1, f.n2, t0, |newm.edges|);
    StoreSplits(oldm, s, f.n1, f.n2, t0);
    return Ok(Split(f.n1, f.n2, t0, c));
  }

  // ---------------------------------------------------------------
  // The walk
  // ---------------------------------------------------------------

  /** What a pass does to the old mesh: it sets `visited` flags (never
      clears them) and `subdivision` slots, and changes nothing else. */
  predicate OldKept(ts0: seq<Triangle>, es0: seq<HalfEdge>, ts: seq<Triangle>, es: seq<HalfEdge>) {
    SameButVisited(ts0, ts) && VisitedGrows(ts0, ts) && SameButSubs(es0, es)
  }

  lemma OldKeptTrans(ts0: seq<Triangle>, es0: seq<HalfEdge>, ts1: seq<Triangle>, es1: seq<HalfEdge>,
                     ts: seq<Triangle>, es: seq<HalfEdge>)
    requires OldKept(ts0, es0, ts1, es1) && OldKept(ts1, es1, ts, es)
    ensures OldKept(ts0, es0, ts, es)
  {
    forall t | 0 <= t < |ts0| ensures ts[t] == ts0[t].(visited := ts[t].visited) {
      assert ts1[t] == ts0[t].(visited := ts1[t].visited);
    }
    forall e | 0 <= e < |es0| ensures es[e] == es0[e].(sub0 := es[e].sub0, sub1 := es[e].sub1) {
      assert es1[e] == es0[e].(sub0 := es1[e].sub0, sub1 := es1[e].sub1);
    }
  }

  /** Marking one triangle is such a change. */
  lemma MarkKept(ts: seq<Triangle>, es0: seq<HalfEdge>, es: seq<HalfEdge>, t: nat)
    requires t < |ts| && SameButSubs(es0, es)
    ensures OldKept(ts, es0, ts[t := ts[t].(visited := true)], es)
  {
  }

  /** The counts of a walk that split k - k0 more old triangles: four new
      triangles and three new `verts` entries for each. */
  predicate Tally(k0: int, k: int, t0: int, t: int, w0: int, w: int) {
    t == t0 + 4 * (k - k0) && w == w0 + 3 * (k - k0)
  }

  /** loop_subdivision.py:232-285: the triangle across s is already split,
      so at most it is linked back. */
  method Revisit(oldm: Mesh, newm: Mesh, s: nat, e0: nat, e1: nat) returns (r: Outcome)
    requires Pass(oldm, newm) && s < |oldm.edges| && e0 < |newm.edges| && e1 < |newm.edges|
    modifies newm`edges, newm`adjTris, newm`vertices
    ensures Pass(oldm, newm)
    ensures |newm.vertices| == old(|newm.vertices|) && |newm.edges| == old(|newm.edges|)
    ensures SameButEndsAndPairs(old(newm.edges), newm.edges)
    ensures old(newm.edges[e0].pair.Some? && newm.edges[e1].pair.Some?) ==>
              r == Done && newm.edges == old(newm.edges) && newm.adjTris == old(newm.adjTris) && newm.vertices == old(newm.vertices)
    ensures old(newm.edges[e0].pair.None? || newm.edges[e1].pair.None?) && (oldm.edges[s].sub0.None? || oldm.edges[s].sub1.None?) ==>
              r == Failed(MissingSubdivision)
    ensures r.Done? && old(newm.edges[e0].pair.None? || newm.edges[e1].pair.None?) ==>
              var o0, o1 := oldm.edges[s].sub0, oldm.edges[s].sub1;
              o0.Some? && o1.Some? &&
              newm.edges == ImportedEnds(PairedBack(old(newm.edges), o0.value, o1.value, e0, e1), o0.value, o1.value, e0, e1) &&
              var x, y := newm.edges[o0.value], newm.edges[o1.value];
              newm.vertices == Paint(Paint(Paint(Paint(old(newm.vertices), x.v0), x.v1), y.v0), y.v1)
  {
    r := LinkBack(newm, oldm.edges[s].sub0, oldm.edges[s].sub1, e0, e1);
    ForwardKept(old(newm.edges), newm.edges, |newm.tris|);
  }

  /** recursive_subdivide (loop_subdivision.py:212-448): from the old edge
      `start` (if any) into the triangle it belongs to, entered from a
      neighbour whose split left the halves e0 and e1 and the vertices v0,
      v1 and mid on the shared side. An unvisited triangle is split and the
      walk goes on across its three sides in turn; a visited one is only
      linked back. Every triangle split adds four triangles and three
      `verts` entries to the new mesh. */
  method RecursiveSubdivide(oldm: Mesh, newm: Mesh, cosOf: nat -> real, start: Option<nat>,
                            e0: nat, e1: nat, v0: nat, v1: nat, mid: nat) returns (r: Outcome)
    requires Pass(oldm, newm) && Below(start, |oldm.edges|)
    requires e0 < |newm.edges| && e1 < |newm.edges| && v0 < |newm.vertices| && v1 < |newm.vertices| && mid < |newm.vertices|
    modifies oldm`tris, oldm`edges, newm
    ensures Pass(oldm, newm)
    ensures OldKept(old(oldm.tris), old(oldm.edges), oldm.tris, oldm.edges)
    ensures old(|newm.vertices|) <= |newm.vertices| && old(|newm.edges|) <= |newm.edges|
    ensures r.Done? ==> Tally(old(|VisitedSet(oldm.tris)|), |VisitedSet(oldm.tris)|,
                              old(|newm.tris|), |newm.tris|, old(|newm.verts|), |newm.verts|)
    ensures start.None? || old(oldm.edges[start.value].tri).None? ==>
              r == Done && oldm.tris == old(oldm.tris) && oldm.edges == old(oldm.edges) &&
              newm.tris == old(newm.tris) && newm.verts == old(newm.verts) && newm.edges == old(newm.edges) &&
              newm.vertices == old(newm.vertices) && newm.adjTris == old(newm.adjTris)
    ensures start.Some? && old(oldm.edges[start.value].tri).Some? && old(oldm.tris[oldm.edges[start.value].tri.value].visited) ==>
              oldm.tris == old(oldm.tris) && oldm.edges == old(oldm.edges) &&
              newm.tris == old(newm.tris) && newm.verts == old(newm.verts) &&
              |newm.vertices| == old(|newm.vertices|) && |newm.edges| == old(|newm.edges|) &&
              SameButEndsAndPairs(old(newm.edges), newm.edges)
    ensures start.Some? && old(oldm.edges[start.value].tri).Some? && old(oldm.tris[oldm.edges[start.value].tri.value].visited) ==>
              var o0, o1 := old(oldm.edges[start.value].sub0), old(oldm.edges[start.value].sub1);
              var linked := old(newm.edges[e0].pair.Some? && newm.edges[e1].pair.Some?);
              (linked ==> r == Done && newm.edges == old(newm.edges) && newm.adjTris == old(newm.adjTris) && newm.vertices == old(newm.vertices)) &&
              (!linked && (o0.None? || o1.None?) ==> r == Failed(MissingSubdivision)) &&
              (r.Done? && !linked ==>
                 o0.Some? && o1.Some? &&
                 newm.edges == ImportedEnds(PairedBack(old(newm.edges), o0.value, o1.value, e0, e1), o0.value, o1.value, e0, e1) &&
                 var x, y := newm.edges[o0.value], newm.edges[o1.value];
                 newm.vertices == Paint(Paint(Paint(Paint(old(newm.vertices), x.v0), x.v1), y.v0), y.v1))
    decreases |UnvisitedSet(oldm.tris)|, 1
  {
    if start.None? {
      return Done;
    }
    var s := start.value;
    assert EdgeWired(oldm.edges[s], |oldm.vertices|, |oldm.tris|, |oldm.edges|);
    var tri := oldm.edges[s].tri;
    if tri.None? {
      return Done;
    }
    if oldm.tris[tri.value].visited {
      r := Revisit(oldm, newm, s, e0, e1);
      return;
    }
    ghost var ts0 := oldm.tris;
    var sp := SplitEntered(oldm, newm, cosOf, s, e0, e1, v0, v1, mid);
    MarkOneVisited(ts0, tri.value, ts0[tri.value].(visited := true));
    MarkKept(ts0, old(oldm.edges), oldm.edges, tri.value);
    if sp.Err? {
      return Failed(sp.fault);
    }
    ghost var ts1, es1 := oldm.tris, oldm.edges;
    r := Descend(oldm, newm, cosOf, s, sp.value, |UnvisitedSet(ts0)|);
    OldKeptTrans(old(oldm.tris), old(oldm.edges), ts1, es1, oldm.tris, oldm.edges);
  }

  /** loop_subdivision.py:438-448: after the split x of the triangle
      entered through s, the walk goes on across its three sides in turn,
      with the halves and the vertices of each side; a fault stops it. */
  method Descend(oldm: Mesh, newm: Mesh, cosOf: nat -> real, s: nat, x: Split, ghost bound: nat) returns (r: Outcome)
    requires Pass(oldm, newm) && s < |oldm.edges| && x.n1 < |oldm.edges| && x.n2 < |oldm.edges|
    requires |x.c| == 6 && AllBelow(x.c, |newm.vertices|) && 3 * x.t0 + 12 <= |newm.edges|
    requires |UnvisitedSet(oldm.tris)| < bound
    modifies oldm`tris, oldm`edges, newm
    ensures Pass(oldm, newm)
    ensures OldKept(old(oldm.tris), old(oldm.edges), oldm.tris, oldm.edges)
    ensures old(|newm.vertices|) <= |newm.vertices| && old(|newm.edges|) <= |newm.edges|
    ensures r.Done? ==> Tally(old(|VisitedSet(oldm.tris)|), |VisitedSet(oldm.tris)|,
                              old(|newm.tris|), |newm.tris|, old(|newm.verts|), |newm.verts|)
    decreases bound, 0
  {
    r := RecursiveSubdivide(oldm, newm, cosOf, oldm.edges[s].pair, 3 * x.t0, 3 * x.t0 + 3, x.c[0], x.c[2], x.c[1]);
    if r.Failed? {
      return;
    }
    ghost var ts2, es2 := oldm.tris, oldm.edges;
    UnvisitedShrinks(old(oldm.tris), ts2);
    r := RecursiveSubdivide(oldm, newm, cosOf, oldm.edges[x.n1].pair, 3 * x.t0 + 4, 3 * x.t0 + 6, x.c[2], x.c[4], x.c[3]);
    OldKeptTrans(old(oldm.tris), old(oldm.edges), ts2, es2, oldm.tris, oldm.edges);
    if r.Failed? {
      return;
    }
    ghost var ts3, es3 := oldm.tris, oldm.edges;
    UnvisitedShrinks(old(oldm.tris), ts3);
    r := RecursiveSubdivide(oldm, newm, cosOf, oldm.edges[x.n2].pair, 3 * x.t0 + 7, 3 * x.t0 + 2, x.c[4], x.c[0], x.c[5]);
    OldKeptTrans(old(oldm.tris), old(oldm.edges), ts3, es3, oldm.tris, oldm.edges);
  }

  // ---------------------------------------------------------------
  // The seed and the pass
  // ---------------------------------------------------------------

  /** A pass started from a reset old mesh keeps its triangles but for
      their flags and its edges but for their slots. */
  lemma ResetKept(ts0: seq<Triangle>, es0: seq<HalfEdge>, ts1: seq<Triangle>, es1: seq<HalfEdge>,
                  ts: seq<Triangle>, es: seq<HalfEdge>)
    requires SameButVisited(ts0, ts1) && SameButSubs(es0, es1) && OldKept(ts1, es1, ts, es)
    ensures SameButVisited(ts0, ts) && SameButSubs(es0, es)
  {
    forall t | 0 <= t < |ts0| ensures ts[t] == ts0[t].(visited := ts[t].visited) {
      assert ts1[t] == ts0[t].(visited := ts1[t].visited);
    }
    forall e | 0 <= e < |es0| ensures es[e] == es0[e].(sub0 := es[e].sub0, sub1 := es[e].sub1) {
      assert es1[e] == es0[e].(sub0 := es1[e].sub0, sub1 := es1[e].sub1);
    }
  }

  /** loop_subdivision.py:63-97 in the old mesh: every triangle reset,
      the first one marked, and its three sides split in turn from its
      first edge. */
  method SeedSides(oldm: Mesh, cosOf: nat -> real) returns (r: Result<seq<Side>>)
    requires oldm.Valid()
    modifies oldm`tris
    ensures oldm.Valid() && SameButVisited(old(oldm.tris), oldm.tris)
    ensures old(|oldm.tris|) == 0 ==> r == Err(NoTriangles)
    ensures r.Ok? ==>
              |oldm.tris| > 0 && oldm.tris[0].visited && |VisitedSet(oldm.tris)| == 1 &&
              oldm.tris[0].edge[0].Some? && oldm.tris[0].edge[0].value < |oldm.edges| &&
              Wired(oldm.vertices, oldm.adjTris, oldm.tris, oldm.edges) &&
              r == Sides(oldm.vertices, oldm.adjTris, oldm.tris, oldm.edges, cosOf, oldm.tris[0].edge[0].value, 3) &&
              |r.value| == 3 && forall i :: 0 <= i < 3 ==> r.value[i].edge < |oldm.edges|
  {
    ResetVisited(oldm);
    if |oldm.tris| == 0 {
      return Err(NoTriangles);
    }
    ghost var ts0 := oldm.tris;
    MarkVisited(oldm, 0);
    MarkOneVisited(ts0, 0, ts0[0].(visited := true));
    assert SameButVisited(old(oldm.tris), oldm.tris) by {
      forall t | 0 <= t < |oldm.tris| ensures oldm.tris[t] == old(oldm.tris[t]).(visited := oldm.tris[t].visited) {
        assert ts0[t] == old(oldm.tris[t]).(visited := false);
      }
    }
    var first := oldm.tris[0].edge[0];
    if first.None? {
      return Err(MissingEdge);
    }
    assert TriangleWired(oldm.tris[0], |oldm.vertices|, |oldm.edges|);
    ValidWired(oldm);
    r := SplitSides(oldm.vertices, oldm.adjTris, oldm.tris, oldm.edges, cosOf, first.value, 3);
    SidesChain(oldm.vertices, oldm.adjTris, oldm.tris, oldm.edges, cosOf, first.value, 3);
  }

  /** new_v of the seed: the tip and the side point of each side in turn. */
  function SeedSlots(sd: seq<Side>): (r: seq<Slot>)
    requires |sd| == 3
    ensures |r| == 6 && forall j :: 0 <= j < 6 ==> r[j].Fresh?
    ensures forall i :: 0 <= i < 3 ==> r[2 * i].v == sd[i].tip && r[2 * i + 1].v == sd[i].point
  {
    [Fresh(sd[0].tip), Fresh(sd[0].point), Fresh(sd[1].tip),
     Fresh(sd[1].point), Fresh(sd[2].tip), Fresh(sd[2].point)]
  }

  /** loop_subdivision.py:100-163 in the empty new mesh: the entries of
      new_v placed in turn, each taking the index of its turn, then the
      four children created (pairing only the centre) and settled. */
  method SeedChildren(newm: Mesh, sd: seq<Side>) returns (c: seq<nat>)
    requires newm.IsEmpty() && |sd| == 3
    modifies newm
    ensures newm.Valid() && newm.Layout() && Counted(newm) && AllForward(newm) && NoSubs(newm.edges)
    ensures |newm.tris| == 4 && |newm.edges| == 12 && |c| == 6 && AllBelow(c, |newm.vertices|) && newm.verts == c
    ensures forall j :: 0 <= j < 4 ==> newm.tris[j].verts == Child(c, j)
    ensures forall j :: 0 <= j < 6 ==> newm.vertices[c[j]] == SeedSlots(sd)[j].v.(index := j)
  {
    c := PlaceAll(newm, SeedSlots(sd));
    ghost var vs := newm.vertices;
    var t0 := Children(newm, c, false);
    Settle(newm, t0);
    assert newm.vertices == vs;
  }

  /** The seed of loop_subdivision.py:63-181: the old triangle split, its
      children built, and the halves of its sides stored. */
  method Seed(oldm: Mesh, newm: Mesh, cosOf: nat -> real) returns (r: Result<seq<nat>>)
    requires oldm != newm && oldm.Valid() && NoSubs(oldm.edges) && newm.IsEmpty()
    modifies oldm`tris, oldm`edges, newm
    ensures oldm.Valid() && SameButVisited(old(oldm.tris), oldm.tris) && SameButSubs(old(oldm.edges), oldm.edges)
    ensures old(|oldm.tris|) == 0 ==> r == Err(NoTriangles)
    ensures r.Ok? ==>
              Pass(oldm, newm) && |VisitedSet(oldm.tris)| == 1 && |oldm.tris| > 0 && oldm.tris[0].visited &&
              oldm.tris[0].edge[0].Some? &&
              |newm.tris| == 4 && |newm.verts| == 6 && |newm.edges| == 12 &&
              |r.value| == 6 && AllBelow(r.value, |newm.vertices|)
    ensures r.Ok? ==> |oldm.tris| > 0 && oldm.tris[0].edge[0].Some? &&
                      SeedCached(old(oldm.edges), oldm.edges, oldm.tris[0].edge[0].value)
  {
    var sides := SeedSides(oldm, cosOf);
    if sides.Err? {
      return Err(sides.fault);
    }
    var sd := sides.value;
    SidesChain(oldm.vertices, oldm.adjTris, oldm.tris, oldm.edges, cosOf, oldm.tris[0].edge[0].value, 3);
    var c := SeedChildren(newm, sd);
    SeedSplits(oldm, sd[0].edge, sd[1].edge, sd[2].edge);
    return Ok(c);
  }

  /** es is es0 with the seed's halves cached (loop_subdivision.py:170-181):
      s is the first triangle's edge[0], n1 and n2 the next two edges along
      `nextEdge`, and the three writes are those of a split with t0 = 0. */
  ghost predicate SeedCached(es0: seq<HalfEdge>, es: seq<HalfEdge>, s: nat) {
    s < |es0| && es0[s].next.Some? && es0[s].next.value < |es0| &&
    var n1 := es0[s].next.value;
    es0[n1].next.Some? && es0[n1].next.value < |es0| &&
    es == CachedHalves(es0, s, n1, es0[n1].next.value, 0)
  }

  /** loop_subdivision.py:170-181: the halves of the seed's three sides
      stored, all among the seed's twelve new edges. */
  method SeedSplits(oldm: Mesh, s: nat, n1: nat, n2: nat)
    requires oldm.Valid() && NoSubs(oldm.edges) && s < |oldm.edges| && n1 < |oldm.edges| && n2 < |oldm.edges|
    modifies oldm`edges
    ensures oldm.Valid() && SameButSubs(old(oldm.edges), oldm.edges) && SubsBelow(oldm.edges, 12)
    ensures oldm.edges == CachedHalves(old(oldm.edges), s, n1, n2, 0)
  {
    assert SubsBelow(oldm.edges, 12) by {
      forall e | 0 <= e < |oldm.edges| ensures Below(oldm.edges[e].sub0, 12) && Below(oldm.edges[e].sub1, 12) {
        assert NoSlots(oldm.edges[e]);
      }
    }
    SplitsBelow(oldm.edges, s, n1, n2, 0, 12);
    StoreSplits(oldm, s, n1, n2, 0);
  }

  /** One of the three walks of loop_subdivision.py:193-203: from side k
      of the first old triangle, read after the walks before it, into the
      neighbour across it. A missing edge is a fault. */
  method Across(oldm: Mesh, newm: Mesh, cosOf: nat -> real, k: nat, e0: nat, e1: nat, v0: nat, v1: nat, mid: nat)
      returns (r: Outcome)
    requires Pass(oldm, newm) && |oldm.tris| > 0 && k < 3
    requires e0 < |newm.edges| && e1 < |newm.edges| && v0 < |newm.vertices| && v1 < |newm.vertices| && mid < |newm.vertices|
    modifies oldm`tris, oldm`edges, newm
    ensures Pass(oldm, newm)
    ensures OldKept(old(oldm.tris), old(oldm.edges), oldm.tris, oldm.edges)
    ensures old(|newm.vertices|) <= |newm.vertices| && old(|newm.edges|) <= |newm.edges|
    ensures old(oldm.tris[0].edge[k]).None? ==> r == Failed(MissingEdge)
    ensures r.Done? ==> Tally(old(|VisitedSet(oldm.tris)|), |VisitedSet(oldm.tris)|,
                              old(|newm.tris|), |newm.tris|, old(|newm.verts|), |newm.verts|)
  {
    var o := oldm.tris[0].edge[k];
    if o.None? {
      return Failed(MissingEdge);
    }
    assert TriangleWired(oldm.tris[0], |oldm.vertices|, |oldm.edges|);
    assert EdgeWired(oldm.edges[o.value], |oldm.vertices|, |oldm.tris|, |oldm.edges|);
    r := RecursiveSubdivide(oldm, newm, cosOf, oldm.edges[o.value].pair, e0, e1, v0, v1, mid);
  }

  /** subdivideTriangles (loop_subdivision.py:57-207): the seed, then the
      walk across the three sides of the first old triangle. When the
      walk completes, the new mesh holds four triangles for every old
      triangle it split and three `verts` entries for each besides the
      seed's first three. */
  method SubdivideTriangles(oldm: Mesh, newm: Mesh, cosOf: nat -> real) returns (r: Outcome)
    requires oldm != newm && oldm.Valid() && NoSubs(oldm.edges) && newm.IsEmpty()
    modifies oldm`tris, oldm`edges, newm
    ensures oldm.Valid() && SameButVisited(old(oldm.tris), oldm.tris) && SameButSubs(old(oldm.edges), oldm.edges)
    ensures old(|oldm.tris|) == 0 ==> r == Failed(NoTriangles)
    ensures r.Done? ==>
              Pass(oldm, newm) && |oldm.tris| > 0 && oldm.tris[0].visited &&
              |newm.tris| == 4 * |VisitedSet(oldm.tris)| && |newm.verts| == 3 * |VisitedSet(oldm.tris)| + 3
  {
    var seed := Seed(oldm, newm, cosOf);
    if seed.Err? {
      return Failed(seed.fault);
    }
    var c := seed.value;
    ghost var ts1, es1 := oldm.tris, oldm.edges;
    r := Across(oldm, newm, cosOf, 0, 0, 3, c[0], c[2], c[1]);
    ResetKept(old(oldm.tris), old(oldm.edges), ts1, es1, oldm.tris, oldm.edges);
    if r.Failed? {
      return;
    }
    ghost var ts2, es2 := oldm.tris, oldm.edges;
    r := Across(oldm, newm, cosOf, 1, 4, 6, c[2], c[4], c[3]);
    ResetKept(old(oldm.tris), old(oldm.edges), ts2, es2, oldm.tris, oldm.edges);
    if r.Failed? {
      return;
    }
    ghost var ts3, es3 := oldm.tris, oldm.edges;
    r := Across(oldm, newm, cosOf, 2, 7, 2, c[4], c[0], c[5]);
    ResetKept(old(oldm.tris), old(oldm.edges), ts3, es3, oldm.tris, oldm.edges);
  }

  /** subdivide (loop_subdivision.py:30-55): a pass into a fresh mesh.
      When it completes, the new mesh is valid and has every `subdivision`
      slot empty, so it can be subdivided in turn. */
  method Subdivide(oldm: Mesh, cosOf: nat -> real) returns (newm: Mesh, r: Outcome)
    requires oldm.Valid() && NoSubs(oldm.edges)
    modifies oldm`tris, oldm`edges
    ensures fresh(newm)
    ensures oldm.Valid() && SameButVisited(old(oldm.tris), oldm.tris) && SameButSubs(old(oldm.edges), oldm.edges)
    ensures old(|oldm.tris|) == 0 ==> r == Failed(NoTriangles)
    ensures r.Done? ==>
              newm.Valid() && newm.Layout() && NoSubs(newm.edges) && AllForward(newm) &&
              |newm.tris| == 4 * |VisitedSet(oldm.tris)| && |newm.verts| == 3 * |VisitedSet(oldm.tris)| + 3
  {
    newm := new Mesh();
    r := SubdivideTriangles(oldm, newm, cosOf);
  }
}
