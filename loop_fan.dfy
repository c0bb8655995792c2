/** The vertex rule of Loop subdivision (loop_subdivision.py:454-650): the
    smoothed copy of an old vertex, found by walking the fan of triangles
    around it, and the two fan queries beside it. Vertex objects are
    compared by identity, which in the arena is equality of handles. */
module LoopFan {
  import opened Outcomes
  import opened MeshGeometry
  import opened TriMesh
  import opened LoopWeights
  import opened LoopRules

  // ---------------------------------------------------------------
  // What the fan functions may follow
  // ---------------------------------------------------------------

  /** Every pair and next link of the edge arena names an edge. */
  predicate Linked(es: seq<HalfEdge>) {
    forall e :: 0 <= e < |es| ==> Below(es[e].pair, |es|) && Below(es[e].next, |es|)
  }

  /** Every edge slot of a triangle names an edge. */
  predicate SlotsBelow(slots: seq<Option<nat>>, ne: nat) {
    forall i :: 0 <= i < |slots| ==> Below(slots[i], ne)
  }

  /** Every triangle has three edge slots, each naming an edge. */
  predicate Owned(ts: seq<Triangle>, ne: nat) {
    forall t :: 0 <= t < |ts| ==> |ts[t].edge| == 3 && SlotsBelow(ts[t].edge, ne)
  }

  /** The old mesh seen by the rules satisfies both. */
  lemma WiredLinks(vs: seq<Vertex>, adj: seq<seq<nat>>, ts: seq<Triangle>, es: seq<HalfEdge>)
    requires Wired(vs, adj, ts, es)
    ensures Linked(es) && Owned(ts, |es|)
  {
    forall e | 0 <= e < |es| ensures Below(es[e].pair, |es|) && Below(es[e].next, |es|) {
      WiredEdge(vs, adj, ts, es, e);
    }
    forall t | 0 <= t < |ts| ensures |ts[t].edge| == 3 && SlotsBelow(ts[t].edge, |es|) {
      WiredTriangle(vs, adj, ts, es, t);
    }
  }

  /** v is one of the two ends of x (`v in x.verts`). */
  predicate HasEnd(x: HalfEdge, v: nat) {
    x.v0 == v || x.v1 == v
  }

  /** Edge e lies on the boundary of the fan around v: it has no pair and
      v is one of its ends. */
  predicate BoundaryAt(es: seq<HalfEdge>, e: nat, v: nat)
    requires e < |es|
  {
    es[e].pair.None? && HasEnd(es[e], v)
  }

  // ---------------------------------------------------------------
  // Boundary test of subdivide_vertex
  // ---------------------------------------------------------------

  /** The scan of one triangle's edge slots for a boundary edge at v: true
      at the first one, a fault at a slot read before it that is None. */
  function TriScan(es: seq<HalfEdge>, v: nat, slots: seq<Option<nat>>): (r: Result<bool>)
    requires SlotsBelow(slots, |es|)
    ensures r == Ok(true) ==> exists i :: 0 <= i < |slots| && slots[i].Some? && BoundaryAt(es, slots[i].value, v)
    ensures r == Ok(false) ==> forall i :: 0 <= i < |slots| ==> slots[i].Some? && !BoundaryAt(es, slots[i].value, v)
    ensures r.Err? ==> r.fault == MissingEdge && exists i :: 0 <= i < |slots| && slots[i].None?
  {
    if slots == [] then Ok(false)
    else if slots[0].None? then Err(MissingEdge)
    else if BoundaryAt(es, slots[0].value, v) then Ok(true)
    else
      var r := TriScan(es, v, slots[1..]);
      assert forall i :: 1 <= i < |slots| ==> slots[i] == slots[1..][i - 1];
      r
  }

  /** Go on to the rest of the scan only when the first part found nothing. */
  function Continue(first: Result<bool>, rest: Result<bool>): Result<bool> {
    match first
    case Err(f) => Err(f)
    case Ok(found) => if found then Ok(true) else rest
  }

  /** The scan of every adjacent triangle in order: true when one of them
      has a boundary edge at v. */
  function FanScan(ts: seq<Triangle>, es: seq<HalfEdge>, v: nat, tl: seq<nat>): (r: Result<bool>)
    requires Owned(ts, |es|) && AllBelow(tl, |ts|)
    ensures r == Ok(true) ==> exists j, i :: (0 <= j < |tl| && 0 <= i < 3 &&
              ts[tl[j]].edge[i].Some? && BoundaryAt(es, ts[tl[j]].edge[i].value, v))
    ensures r == Ok(false) ==> forall j, i :: 0 <= j < |tl| && 0 <= i < 3 ==>
              ts[tl[j]].edge[i].Some? && !BoundaryAt(es, ts[tl[j]].edge[i].value, v)
    ensures r.Err? ==> r.fault == MissingEdge && exists j, i :: (0 <= j < |tl| && 0 <= i < 3 &&
              ts[tl[j]].edge[i].None?)
  {
    if tl == [] then Ok(false)
    else
      assert tl[0] < |ts|;
      var first := TriScan(es, v, ts[tl[0]].edge);
      var rest := FanScan(ts, es, v, tl[1..]);
      assert forall j :: 1 <= j < |tl| ==> tl[j] == tl[1..][j - 1];
      Continue(first, rest)
  }

  // ---------------------------------------------------------------
  // The interior vertex rule
  // ---------------------------------------------------------------

  /** The edge the ring walk starts from: in the given slots, the first
      edge with v as an end whose next edge does not have v as an end. */
  function FanStart(es: seq<HalfEdge>, v: nat, slots: seq<Option<nat>>): (r: Result<nat>)
    requires Linked(es) && SlotsBelow(slots, |es|)
    ensures r.Ok? ==> (r.value < |es| && HasEnd(es[r.value], v) && es[r.value].next.Some? &&
              !HasEnd(es[es[r.value].next.value], v) &&
              exists i :: 0 <= i < |slots| && slots[i] == Some(r.value))
    ensures r == Err(NoFanStart) ==> forall i :: 0 <= i < |slots| ==> (slots[i].Some? &&
              (HasEnd(es[slots[i].value], v) ==>
                 (es[slots[i].value].next.Some? && HasEnd(es[es[slots[i].value].next.value], v))))
    ensures r.Err? ==> r.fault in {NoFanStart, MissingEdge, MissingNext}
  {
    if slots == [] then Err(NoFanStart)
    else if slots[0].None? then Err(MissingEdge)
    else
      var e := slots[0].value;
      if HasEnd(es[e], v) && es[e].next.None? then Err(MissingNext)
      else if HasEnd(es[e], v) && !HasEnd(es[es[e].next.value], v) then Ok(e)
      else
        var r := FanStart(es, v, slots[1..]);
        assert forall i :: 1 <= i < |slots| ==> slots[i] == slots[1..][i - 1];
        r
  }

  /** The end of x that is not v (the first end when neither is). */
  function OtherEnd(x: HalfEdge, v: nat): nat {
    if x.v0 == v then x.v1 else x.v0
  }

  /** The first k steps of the ring walk from edge cur: each step records
      the far end of the current edge and moves on to the next edge of
      its pair. The result holds the ring so far and the edge reached. */
  function Walk(es: seq<HalfEdge>, v: nat, cur: Option<nat>, k: nat): (r: Result<(seq<nat>, Option<nat>)>)
    requires Linked(es) && Below(cur, |es|)
    ensures r.Ok? ==> |r.value.0| == k && Below(r.value.1, |es|)
    ensures r.Err? ==> k > 0 && r.fault in {MissingNext, MissingPair}
  {
    if k == 0 then Ok(([], cur))
    else
      match Walk(es, v, cur, k - 1)
      case Err(f) => Err(f)
      case Ok(w) =>
        var (ring, c) := w;
        if c.None? then Err(MissingNext)
        else
          var x := es[c.value];
          if x.pair.None? then Err(MissingPair)
          else Ok((ring + [OtherEnd(x, v)], es[x.pair.value].next))
  }

  /** A fault on the walk stays a fault however far it is asked to go. */
  lemma {:induction false} WalkErrSticks(es: seq<HalfEdge>, v: nat, cur: Option<nat>, i: nat, k: nat)
    requires Linked(es) && Below(cur, |es|) && i <= k
    requires Walk(es, v, cur, i).Err?
    ensures Walk(es, v, cur, k) == Walk(es, v, cur, i)
    decreases k - i
  {
    if i < k {
      WalkErrSticks(es, v, cur, i, k - 1);
    }
  }

  /** Every vertex on the ring is an end of an edge, so a handle of the
      vertex arena when the edges' ends are. */
  lemma {:induction false} WalkBelow(es: seq<HalfEdge>, v: nat, cur: Option<nat>, k: nat, nv: nat)
    requires Linked(es) && Below(cur, |es|)
    requires forall e :: 0 <= e < |es| ==> es[e].v0 < nv && es[e].v1 < nv
    ensures Walk(es, v, cur, k).Ok? ==> AllBelow(Walk(es, v, cur, k).value.0, nv)
  {
    if k > 0 {
      WalkBelow(es, v, cur, k - 1, nv);
    }
  }

  /** The sum of the positions of the ring vertices. */
  function SumLocs(vs: seq<Vertex>, ring: seq<nat>): Point
    requires AllBelow(ring, |vs|)
  {
    if ring == [] then Point(0.0, 0.0, 0.0)
    else AddPoints(SumLocs(vs, ring[..|ring| - 1]), vs[ring[|ring| - 1]].loc)
  }

  /** A ring whose vertices all sit at p sums to n times p. */
  lemma {:induction false} SumLocsConstant(vs: seq<Vertex>, ring: seq<nat>, p: Point)
    requires AllBelow(ring, |vs|)
    requires forall i :: 0 <= i < |ring| ==> vs[ring[i]].loc == p
    ensures SumLocs(vs, ring) == ScalePoint(p, |ring| as real)
  {
    if ring != [] {
      var m := |ring| - 1;
      SumLocsConstant(vs, ring[..m], p);
      ScaleStep(p, m);
    }
  }

  /** Shifting every vertex by d shifts the sum of n ring vertices by n
      times d. */
  lemma {:induction false} SumLocsShift(vs: seq<Vertex>, ws: seq<Vertex>, ring: seq<nat>, d: Point)
    requires AllBelow(ring, |vs|) && |ws| == |vs|
    requires forall u :: 0 <= u < |vs| ==> ws[u].loc == AddPoints(vs[u].loc, d)
    ensures SumLocs(ws, ring) == AddPoints(SumLocs(vs, ring), ScalePoint(d, |ring| as real))
  {
    if ring != [] {
      var m := |ring| - 1;
      SumLocsShift(vs, ws, ring[..m], d);
      ScaleStep(d, m);
    }
  }

  /** n + 1 copies of d are n copies and one more. */
  lemma ScaleStep(d: Point, m: nat)
    ensures ScalePoint(d, (m + 1) as real) == AddPoints(ScalePoint(d, m as real), d)
  {
    assert (m as real + 1.0) * d.x == (m as real) * d.x + d.x;
    assert (m as real + 1.0) * d.y == (m as real) * d.y + d.y;
    assert (m as real + 1.0) * d.z == (m as real) * d.z + d.z;
  }

  /** Every edge's ends are handles below nv. */
  predicate EndsBelow(es: seq<HalfEdge>, nv: nat) {
    forall e :: 0 <= e < |es| ==> es[e].v0 < nv && es[e].v1 < nv
  }

  /** The ring of n vertices around v: walk n steps from the start edge
      found in the given slots. */
  function FanRing(es: seq<HalfEdge>, nv: nat, v: nat, slots: seq<Option<nat>>, n: nat): (r: Result<seq<nat>>)
    requires Linked(es) && EndsBelow(es, nv) && SlotsBelow(slots, |es|)
    ensures r.Ok? ==> |r.value| == n && AllBelow(r.value, nv)
  {
    match FanStart(es, v, slots)
    case Err(f) => Err(f)
    case Ok(s) =>
      match Walk(es, v, Some(s), n)
      case Err(f) => Err(f)
      case Ok(w) =>
        WalkBelow(es, v, Some(s), n, nv);
        Ok(w.0)
  }

  /** The repositioned copy of v for a given ring and weight b: the centre
      keeps 1 - |ring| * b, and the old index is kept. */
  function Smoothed(vs: seq<Vertex>, v: nat, ring: seq<nat>, b: real): (w: Vertex)
    requires v < |vs| && AllBelow(ring, |vs|)
    ensures w.index == vs[v].index && w.color == Color(1.0, 0.0, 1.0)
    ensures w.loc == Reposition(vs[v].loc, SumLocs(vs, ring), b, 1.0 - |ring| as real * b)
  {
    var p := Reposition(vs[v].loc, SumLocs(vs, ring), b, 1.0 - |ring| as real * b);
    NewVertex(p.x, p.y, p.z, vs[v].index)
  }

  /** subdivide_interior_fan_vertex: with n adjacent triangles, walk n
      steps around the fan from the first adjacent triangle's start edge
      and combine the ring with the centre by Beta(n), where cosOf(n)
      stands for cos(2*pi/n). */
  function InteriorRule(vs: seq<Vertex>, adj: seq<seq<nat>>, ts: seq<Triangle>, es: seq<HalfEdge>,
                        cosOf: nat -> real, v: nat): (r: Result<Vertex>)
    requires Wired(vs, adj, ts, es) && v < |vs|
    ensures |adj[v]| == 0 <==> r == Err(DivisionByZero)
    ensures r.Ok? ==> r.value.index == vs[v].index && r.value.color == Color(1.0, 0.0, 1.0)
  {
    var n := |adj[v]|;
    if n == 0 then Err(DivisionByZero)
    else
      WiredLinks(vs, adj, ts, es);
      WiredEnds(vs, es, |ts|);
      assert adj[v][0] < |ts|;
      match FanRing(es, |vs|, v, ts[adj[v][0]].edge, n)
      case Err(f) => Err(f)
      case Ok(ring) => Ok(Smoothed(vs, v, ring, Beta(n, cosOf(n))))
  }

  /** subdivide_vertex: a vertex with at most one adjacent triangle, or on
      a fan with a boundary edge at it, is returned unchanged; any other
      vertex is repositioned by the interior rule. */
  function VertexRule(vs: seq<Vertex>, adj: seq<seq<nat>>, ts: seq<Triangle>, es: seq<HalfEdge>,
                      cosOf: nat -> real, v: nat): (r: Result<Vertex>)
    requires Wired(vs, adj, ts, es) && v < |vs|
    ensures |adj[v]| <= 1 ==> r == Ok(vs[v])
    ensures r.Ok? ==> r.value.index == vs[v].index
    ensures r.Err? ==> |adj[v]| >= 2
  {
    WiredLinks(vs, adj, ts, es);
    if |adj[v]| <= 1 then Ok(vs[v])
    else
      match FanScan(ts, es, v, adj[v])
      case Err(f) => Err(f)
      case Ok(boundary) =>
        if boundary then Ok(vs[v]) else InteriorRule(vs, adj, ts, es, cosOf, v)
  }

  /** Every adjacent triangle of v has all three edge slots filled. */
  predicate SlotsFilled(adj: seq<seq<nat>>, ts: seq<Triangle>, v: nat)
    requires v < |adj| && AllBelow(adj[v], |ts|)
  {
    forall j, i :: 0 <= j < |adj[v]| && 0 <= i < |ts[adj[v][j]].edge| ==> ts[adj[v][j]].edge[i].Some?
  }

  /** On a fan whose triangles have all their edges, a vertex with at
      least two adjacent triangles stays where it is exactly when one of
      them has a boundary edge at it; otherwise the interior rule moves it. */
  lemma VertexRuleCases(vs: seq<Vertex>, adj: seq<seq<nat>>, ts: seq<Triangle>, es: seq<HalfEdge>,
                        cosOf: nat -> real, v: nat)
    requires Wired(vs, adj, ts, es) && v < |vs| && |adj[v]| >= 2 && SlotsFilled(adj, ts, v)
    ensures (exists j, i :: 0 <= j < |adj[v]| && 0 <= i < 3 && ts[adj[v][j]].edge[i].Some? &&
               BoundaryAt(es, ts[adj[v][j]].edge[i].value, v)) ==>
            VertexRule(vs, adj, ts, es, cosOf, v) == Ok(vs[v])
    ensures (forall j, i :: 0 <= j < |adj[v]| && 0 <= i < 3 ==>
               ts[adj[v][j]].edge[i].Some? && !BoundaryAt(es, ts[adj[v][j]].edge[i].value, v)) ==>
            VertexRule(vs, adj, ts, es, cosOf, v) == InteriorRule(vs, adj, ts, es, cosOf, v)
  {
    WiredLinks(vs, adj, ts, es);
    var r := FanScan(ts, es, v, adj[v]);
    if r.Err? {
      assert false;
    }
  }

  /** A ring and a centre all at p give p back. */
  lemma SmoothedKeepsPoint(vs: seq<Vertex>, v: nat, ring: seq<nat>, b: real, p: Point)
    requires v < |vs| && AllBelow(ring, |vs|)
    requires forall u :: 0 <= u < |vs| ==> vs[u].loc == p
    ensures Smoothed(vs, v, ring, b).loc == p
  {
    SumLocsConstant(vs, ring, p);
    RepositionKeepsPoint(p, |ring|, b);
  }

  /** Shifting every vertex by d shifts the smoothed vertex by d. */
  lemma SmoothedTranslates(vs: seq<Vertex>, ws: seq<Vertex>, v: nat, ring: seq<nat>, b: real, d: Point, cw: Point, sw: Point)
    requires v < |vs| && AllBelow(ring, |vs|)
    requires v < |ws| && AllBelow(ring, |ws|) && ws[v].loc == cw && SumLocs(ws, ring) == sw
    requires cw == AddPoints(vs[v].loc, d)
    requires sw == AddPoints(SumLocs(vs, ring), ScalePoint(d, |ring| as real))
    ensures Smoothed(ws, v, ring, b).loc == AddPoints(Smoothed(vs, v, ring, b).loc, d)
  {
    ShiftCore(cw, vs[v].loc, sw, SumLocs(vs, ring), d, |ring|, b);
  }

  /** RepositionTranslates with the shifted inputs named. */
  lemma ShiftCore(cw: Point, c: Point, sw: Point, sv: Point, d: Point, n: nat, b: real)
    requires cw == AddPoints(c, d) && sw == AddPoints(sv, ScalePoint(d, n as real))
    ensures Reposition(cw, sw, b, 1.0 - n as real * b) == AddPoints(Reposition(c, sv, b, 1.0 - n as real * b), d)
  {
    RepositionTranslates(c, sv, d, n, b);
  }

  /** The interior rule with the ring made explicit. */
  lemma InteriorRuleRing(vs: seq<Vertex>, adj: seq<seq<nat>>, ts: seq<Triangle>, es: seq<HalfEdge>,
                         cosOf: nat -> real, v: nat)
    requires Wired(vs, adj, ts, es) && v < |vs| && |adj[v]| > 0
    ensures Linked(es) && EndsBelow(es, |vs|) && adj[v][0] < |ts| && SlotsBelow(ts[adj[v][0]].edge, |es|)
    ensures var n := |adj[v]|; var fr := FanRing(es, |vs|, v, ts[adj[v][0]].edge, n);
            InteriorRule(vs, adj, ts, es, cosOf, v) ==
              if fr.Ok? then Ok(Smoothed(vs, v, fr.value, Beta(n, cosOf(n)))) else Err(fr.fault)
  {
    WiredLinks(vs, adj, ts, es);
    WiredEnds(vs, es, |ts|);
    assert adj[v][0] < |ts|;
  }

  /** When every vertex of the old mesh sits at one point p, so does the
      repositioned vertex. */
  lemma VertexRuleKeepsPoint(vs: seq<Vertex>, adj: seq<seq<nat>>, ts: seq<Triangle>, es: seq<HalfEdge>,
                             cosOf: nat -> real, v: nat, p: Point)
    requires Wired(vs, adj, ts, es) && v < |vs|
    requires forall u :: 0 <= u < |vs| ==> vs[u].loc == p
    ensures VertexRule(vs, adj, ts, es, cosOf, v).Ok? ==> VertexRule(vs, adj, ts, es, cosOf, v).value.loc == p
  {
    WiredLinks(vs, adj, ts, es);
    var n := |adj[v]|;
    if n >= 2 && FanScan(ts, es, v, adj[v]) == Ok(false) {
      InteriorRuleRing(vs, adj, ts, es, cosOf, v);
      var fr := FanRing(es, |vs|, v, ts[adj[v][0]].edge, n);
      if fr.Ok? {
        SmoothedKeepsPoint(vs, v, fr.value, Beta(n, cosOf(n)), p);
      }
    }
  }

  /** Moving every vertex of the old mesh by d moves the repositioned
      vertex by d, and neither mesh fails where the other succeeds. */
  lemma VertexRuleTranslates(vs: seq<Vertex>, ws: seq<Vertex>, adj: seq<seq<nat>>, ts: seq<Triangle>,
                             es: seq<HalfEdge>, cosOf: nat -> real, v: nat, d: Point)
    requires Wired(vs, adj, ts, es) && v < |vs|
    requires |ws| == |vs| && forall u :: 0 <= u < |vs| ==> ws[u].loc == AddPoints(vs[u].loc, d)
    ensures Wired(ws, adj, ts, es)
    ensures VertexRule(ws, adj, ts, es, cosOf, v).Ok? == VertexRule(vs, adj, ts, es, cosOf, v).Ok?
    ensures VertexRule(vs, adj, ts, es, cosOf, v).Ok? ==>
              VertexRule(ws, adj, ts, es, cosOf, v).value.loc == AddPoints(VertexRule(vs, adj, ts, es, cosOf, v).value.loc, d)
  {
    WiredLinks(vs, adj, ts, es);
    var n := |adj[v]|;
    if n >= 2 && FanScan(ts, es, v, adj[v]) == Ok(false) {
      InteriorRuleRing(vs, adj, ts, es, cosOf, v);
      InteriorRuleRing(ws, adj, ts, es, cosOf, v);
      var fr := FanRing(es, |vs|, v, ts[adj[v][0]].edge, n);
      if fr.Ok? {
        SumLocsShift(vs, ws, fr.value, d);
        SmoothedTranslates(vs, ws, v, fr.value, Beta(n, cosOf(n)), d, ws[v].loc, SumLocs(ws, fr.value));
      }
    }
  }

  // ---------------------------------------------------------------
  // getFanStartEdge and isFanContinuous
  // ---------------------------------------------------------------

  /** getFanStartEdge over the given slots: the next edge of the first
      edge with v as an end whose next edge also has v as an end. */
  function NextStart(es: seq<HalfEdge>, v: nat, slots: seq<Option<nat>>): (r: Result<Option<nat>>)
    requires Linked(es) && SlotsBelow(slots, |es|)
    ensures r.Ok? && r.value.Some? ==> (r.value.value < |es| && HasEnd(es[r.value.value], v) &&
              exists i :: 0 <= i < |slots| && slots[i].Some? && HasEnd(es[slots[i].value], v) &&
                es[slots[i].value].next == r.value)
    ensures r == Ok(None) ==> forall i :: 0 <= i < |slots| ==> (slots[i].Some? &&
              (HasEnd(es[slots[i].value], v) ==>
                 (es[slots[i].value].next.Some? && !HasEnd(es[es[slots[i].value].next.value], v))))
    ensures r.Err? ==> r.fault in {MissingEdge, MissingNext}
  {
    if slots == [] then Ok(None)
    else if slots[0].None? then Err(MissingEdge)
    else
      var e := slots[0].value;
      if HasEnd(es[e], v) && es[e].next.None? then Err(MissingNext)
      else if HasEnd(es[e], v) && HasEnd(es[es[e].next.value], v) then Ok(es[e].next)
      else
        var r := NextStart(es, v, slots[1..]);
        assert forall i :: 1 <= i < |slots| ==> slots[i] == slots[1..][i - 1];
        r
  }

  /** getFanStartEdge: the search runs over the first adjacent triangle,
      which a vertex without adjacent triangles does not have. */
  function FanStartEdge(vs: seq<Vertex>, adj: seq<seq<nat>>, ts: seq<Triangle>, es: seq<HalfEdge>, v: nat)
    : (r: Result<Option<nat>>)
    requires Wired(vs, adj, ts, es) && v < |vs|
    ensures |adj[v]| == 0 <==> r == Err(EmptyFan)
    ensures r.Ok? && r.value.Some? ==> r.value.value < |es|
  {
    WiredLinks(vs, adj, ts, es);
    if |adj[v]| == 0 then Err(EmptyFan)
    else
      assert adj[v][0] < |ts|;
      NextStart(es, v, ts[adj[v][0]].edge)
  }

  /** How far a lap of k pair-then-next steps from edge s gets: it breaks
      at an edge without a pair, or ends at the edge reached. */
  datatype Lap = Broke | Ended(at: Option<nat>)

  function Around(es: seq<HalfEdge>, s: Option<nat>, k: nat): (r: Result<Lap>)
    requires Linked(es) && Below(s, |es|)
    ensures r.Ok? && r.value.Ended? ==> Below(r.value.at, |es|)
    ensures k == 0 ==> r == Ok(Ended(s))
    ensures r.Err? ==> r.fault == MissingNext
  {
    if k == 0 then Ok(Ended(s))
    else
      match Around(es, s, k - 1)
      case Err(f) => Err(f)
      case Ok(lap) =>
        match lap
        case Broke => Ok(Broke)
        case Ended(c) =>
          if c.None? then Err(MissingNext)
          else if es[c.value].pair.None? then Ok(Broke)
          else Ok(Ended(es[es[c.value].pair.value].next))
  }

  /** A broken or failed lap stays so however long it is asked to run. */
  lemma {:induction false} AroundSticks(es: seq<HalfEdge>, s: Option<nat>, i: nat, k: nat)
    requires Linked(es) && Below(s, |es|) && i <= k
    requires Around(es, s, i).Err? || Around(es, s, i) == Ok(Broke)
    ensures Around(es, s, k) == Around(es, s, i)
    decreases k - i
  {
    if i < k {
      AroundSticks(es, s, i, k - 1);
    }
  }

  /** The ring walk of the interior rule and the lap of the continuity
      test follow the same edges: where the walk collects k ring vertices
      the lap ends at the edge the walk reached, and where the lap breaks
      the walk fails on the missing pair. */
  lemma {:induction false} WalkFollowsLap(es: seq<HalfEdge>, v: nat, s: Option<nat>, k: nat)
    requires Linked(es) && Below(s, |es|)
    ensures Walk(es, v, s, k).Ok? ==> Around(es, s, k) == Ok(Ended(Walk(es, v, s, k).value.1))
    ensures Around(es, s, k).Ok? && Around(es, s, k).value.Ended? ==> Walk(es, v, s, k).Ok?
    ensures Around(es, s, k) == Ok(Broke) ==> Walk(es, v, s, k) == Err(MissingPair)
    ensures Around(es, s, k).Err? ==> Walk(es, v, s, k) == Err(MissingNext)
  {
    if k > 0 {
      WalkFollowsLap(es, v, s, k - 1);
      var w := Walk(es, v, s, k - 1);
      if w.Ok? {
        var c := w.value.1;
        assert Around(es, s, k - 1) == Ok(Ended(c));
        if c.Some? && es[c.value].pair.Some? {
          assert Walk(es, v, s, k).value.1 == es[es[c.value].pair.value].next;
        }
      }
    }
  }

  /** A lap of k steps from edge s ends at an edge of a triangle with the
      same index as the triangle of s. */
  predicate LapCloses(ts: seq<Triangle>, es: seq<HalfEdge>, s: nat, k: nat)
    requires Linked(es) && s < |es|
  {
    var lap := Around(es, Some(s), k);
    lap.Ok? && lap.value.Ended? && lap.value.at.Some? &&
    var e := lap.value.at.value;
    es[e].tri.Some? && es[s].tri.Some? && es[e].tri.value < |ts| && es[s].tri.value < |ts| &&
    ts[es[e].tri.value].index == ts[es[s].tri.value].index
  }

  /** A lap of k steps from edge s ends at an edge of a triangle whose
      index differs from that of the triangle of s. */
  predicate LapStrays(ts: seq<Triangle>, es: seq<HalfEdge>, s: nat, k: nat)
    requires Linked(es) && s < |es|
  {
    var lap := Around(es, Some(s), k);
    lap.Ok? && lap.value.Ended? && lap.value.at.Some? &&
    var e := lap.value.at.value;
    es[e].tri.Some? && es[s].tri.Some? && es[e].tri.value < |ts| && es[s].tri.value < |ts| &&
    ts[es[e].tri.value].index != ts[es[s].tri.value].index
  }

  /** The three answers of isFanContinuous: True, False and None. */
  datatype FanKind = Continuous | Broken | Inconsistent

  /** isFanContinuous: from the start edge, take as many pair-then-next
      steps as v has adjacent triangles; a missing pair means a broken fan,
      and a complete lap must end in the triangle it started from. */
  function FanContinuity(vs: seq<Vertex>, adj: seq<seq<nat>>, ts: seq<Triangle>, es: seq<HalfEdge>, v: nat)
    : (r: Result<FanKind>)
    requires Wired(vs, adj, ts, es) && v < |vs|
    ensures var st := FanStartEdge(vs, adj, ts, es, v);
            r == Ok(Broken) <==> st.Ok? && st.value.Some? && Around(es, st.value, |adj[v]|) == Ok(Broke)
    ensures var st := FanStartEdge(vs, adj, ts, es, v);
            r == Ok(Continuous) <==> st.Ok? && st.value.Some? && LapCloses(ts, es, st.value.value, |adj[v]|)
    ensures var st := FanStartEdge(vs, adj, ts, es, v);
            r == Ok(Inconsistent) <==> st.Ok? && st.value.Some? && LapStrays(ts, es, st.value.value, |adj[v]|)
    ensures var st := FanStartEdge(vs, adj, ts, es, v);
            st.Ok? && st.value.None? ==> r == Err(NoFanStart)
  {
    WiredLinks(vs, adj, ts, es);
    match FanStartEdge(vs, adj, ts, es, v)
    case Err(f) => Err(f)
    case Ok(start) =>
      if start.None? then Err(NoFanStart)
      else
        var s := start.value;
        match Around(es, start, |adj[v]|)
        case Err(f) => Err(f)
        case Ok(lap) =>
          match lap
          case Broke => Ok(Broken)
          case Ended(c) =>
            if c.None? then Err(MissingNext)
            else
              var e := c.value;
              WiredEdge(vs, adj, ts, es, e);
              WiredEdge(vs, adj, ts, es, s);
              if es[e].tri.None? || es[s].tri.None? then Err(MissingTriangle)
              else if ts[es[e].tri.value].index != ts[es[s].tri.value].index then Ok(Inconsistent)
              else Ok(Continuous)
  }

  // ---------------------------------------------------------------
  // The loops of the program, proved against the rules above
  // ---------------------------------------------------------------

  /** subdivide_vertex, scanning the adjacent triangles' edges in order. */
  method SubdivideVertex(vs: seq<Vertex>, adj: seq<seq<nat>>, ts: seq<Triangle>, es: seq<HalfEdge>,
                         cosOf: nat -> real, v: nat) returns (r: Result<Vertex>)
    requires Wired(vs, adj, ts, es) && v < |vs|
    ensures r == VertexRule(vs, adj, ts, es, cosOf, v)
  {
    WiredLinks(vs, adj, ts, es);
    if |adj[v]| == 0 || |adj[v]| == 1 {
      return Ok(vs[v]);
    }
    var tl := adj[v];
    for j := 0 to |tl|
      invariant FanScan(ts, es, v, tl) == FanScan(ts, es, v, tl[j..])
    {
      assert tl[j..][1..] == tl[j + 1..];
      var slots := ts[tl[j]].edge;
      for i := 0 to |slots|
        invariant FanScan(ts, es, v, tl) == Continue(TriScan(es, v, slots[i..]), FanScan(ts, es, v, tl[j + 1..]))
      {
        assert slots[i..][1..] == slots[i + 1..];
        var e := slots[i];
        if e.None? {
          return Err(MissingEdge);
        }
        if es[e.value].pair.None? && HasEnd(es[e.value], v) {
          return Ok(vs[v]);
        }
      }
    }
    assert tl[|tl|..] == [];
    r := InteriorFanVertex(vs, adj, ts, es, cosOf, v);
  }

  /** subdivide_interior_fan_vertex: find the start edge, walk the ring
      into a list of n handles, sum the ring positions and combine. */
  method InteriorFanVertex(vs: seq<Vertex>, adj: seq<seq<nat>>, ts: seq<Triangle>, es: seq<HalfEdge>,
                           cosOf: nat -> real, v: nat) returns (r: Result<Vertex>)
    requires Wired(vs, adj, ts, es) && v < |vs|
    ensures r == InteriorRule(vs, adj, ts, es, cosOf, v)
  {
    WiredLinks(vs, adj, ts, es);
    var n := |adj[v]|;
    if n == 0 {
      return Err(DivisionByZero);
    }
    var b := Beta(n, cosOf(n));
    assert adj[v][0] < |ts|;
    var slots := ts[adj[v][0]].edge;
    var start := FindFanStart(es, v, slots);
    if start.Err? {
      return Err(start.fault);
    }
    var walk := WalkRing(es, v, start.value, n);
    if walk.Err? {
      return Err(walk.fault);
    }
    var ring := walk.value.0;
    WiredEnds(vs, es, |ts|);
    assert FanRing(es, |vs|, v, slots, n) == Ok(ring);
    var w := Smooth(vs, v, ring, b);
    return Ok(w);
  }

  /** The summing and combining steps of subdivide_interior_fan_vertex,
      with k = 1 - n * b for the n ring vertices. */
  method Smooth(vs: seq<Vertex>, v: nat, ring: seq<nat>, b: real) returns (w: Vertex)
    requires v < |vs| && AllBelow(ring, |vs|)
    ensures w == Smoothed(vs, v, ring, b)
  {
    var k := 1.0 - |ring| as real * b;
    var sum := SumRing(vs, ring);
    var p := Combine(sum, vs[v].loc, b, k);
    return NewVertex(p.x, p.y, p.z, vs[v].index);
  }

  /** The last steps of subdivide_interior_fan_vertex: scale the ring sum
      by b, then add k times the centre. */
  method Combine(sum: Point, c: Point, b: real, k: real) returns (p: Point)
    ensures p == Reposition(c, sum, b, k)
  {
    var x, y, z := sum.x, sum.y, sum.z;
    x, y, z := x * b, y * b, z * b;
    x, y, z := x + k * c.x, y + k * c.y, z + k * c.z;
    return Point(x, y, z);
  }

  /** The start-edge search of subdivide_interior_fan_vertex, which stops
      at the first edge that qualifies. */
  method FindFanStart(es: seq<HalfEdge>, v: nat, slots: seq<Option<nat>>) returns (r: Result<nat>)
    requires Linked(es) && SlotsBelow(slots, |es|)
    ensures r == FanStart(es, v, slots)
  {
    var i := 0;
    while i < |slots|
      invariant 0 <= i <= |slots|
      invariant FanStart(es, v, slots) == FanStart(es, v, slots[i..])
    {
      assert slots[i..][1..] == slots[i + 1..];
      var e := slots[i];
      if e.None? {
        return Err(MissingEdge);
      }
      if HasEnd(es[e.value], v) {
        var nx := es[e.value].next;
        if nx.None? {
          return Err(MissingNext);
        }
        if !HasEnd(es[nx.value], v) {
          return Ok(e.value);
        }
      }
      i := i + 1;
    }
    assert slots[i..] == [];
    return Err(NoFanStart);
  }

  /** The ring loop of subdivide_interior_fan_vertex: the list starts as
      0..n-1 and entry j is overwritten at step j. */
  method WalkRing(es: seq<HalfEdge>, v: nat, s: nat, n: nat) returns (r: Result<(seq<nat>, Option<nat>)>)
    requires Linked(es) && s < |es|
    ensures r == Walk(es, v, Some(s), n)
  {
    var vi: seq<nat> := seq(n, i => i);
    var cur: Option<nat> := Some(s);
    for j := 0 to n
      invariant |vi| == n
      invariant Walk(es, v, Some(s), j) == Ok((vi[..j], cur))
    {
      if cur.None? {
        WalkErrSticks(es, v, Some(s), j + 1, n);
        return Err(MissingNext);
      }
      var x := es[cur.value];
      ghost var before := vi;
      vi := vi[j := OtherEnd(x, v)];
      assert vi[..j + 1] == before[..j] + [OtherEnd(x, v)];
      if x.pair.None? {
        WalkErrSticks(es, v, Some(s), j + 1, n);
        return Err(MissingPair);
      }
      cur := es[x.pair.value].next;
    }
    assert vi[..n] == vi;
    return Ok((vi, cur));
  }

  /** The summing loop of subdivide_interior_fan_vertex. */
  method SumRing(vs: seq<Vertex>, ring: seq<nat>) returns (sum: Point)
    requires AllBelow(ring, |vs|)
    ensures sum == SumLocs(vs, ring)
  {
    var x, y, z := 0.0, 0.0, 0.0;
    for j := 0 to |ring|
      invariant Point(x, y, z) == SumLocs(vs, ring[..j])
    {
      assert ring[..j + 1][..j] == ring[..j];
      var p := vs[ring[j]].loc;
      x, y, z := x + p.x, y + p.y, z + p.z;
    }
    assert ring[..|ring|] == ring;
    return Point(x, y, z);
  }

  /** getFanStartEdge, scanning the first adjacent triangle's slots. */
  method GetFanStartEdge(vs: seq<Vertex>, adj: seq<seq<nat>>, ts: seq<Triangle>, es: seq<HalfEdge>, v: nat)
    returns (r: Result<Option<nat>>)
    requires Wired(vs, adj, ts, es) && v < |vs|
    ensures r == FanStartEdge(vs, adj, ts, es, v)
  {
    WiredLinks(vs, adj, ts, es);
    if |adj[v]| == 0 {
      return Err(EmptyFan);
    }
    assert adj[v][0] < |ts|;
    var slots := ts[adj[v][0]].edge;
    for i := 0 to |slots|
      invariant NextStart(es, v, slots) == NextStart(es, v, slots[i..])
    {
      assert slots[i..][1..] == slots[i + 1..];
      var e := slots[i];
      if e.None? {
        return Err(MissingEdge);
      }
      if HasEnd(es[e.value], v) {
        var nx := es[e.value].next;
        if nx.None? {
          return Err(MissingNext);
        }
        if HasEnd(es[nx.value], v) {
          return Ok(nx);
        }
      }
    }
    assert slots[|slots|..] == [];
    return Ok(None);
  }

  /** isFanContinuous: the counting loop of pair-then-next steps. */
  method IsFanContinuous(vs: seq<Vertex>, adj: seq<seq<nat>>, ts: seq<Triangle>, es: seq<HalfEdge>, v: nat)
    returns (r: Result<FanKind>)
    requires Wired(vs, adj, ts, es) && v < |vs|
    ensures r == FanContinuity(vs, adj, ts, es, v)
  {
    WiredLinks(vs, adj, ts, es);
    var count := 0;
    var n := |adj[v]|;
    var start := GetFanStartEdge(vs, adj, ts, es, v);
    if start.Err? {
      return Err(start.fault);
    }
    if start.value.None? {
      return Err(NoFanStart);
    }
    var s := start.value.value;
    WiredEdge(vs, adj, ts, es, s);
    var startTri := es[s].tri;
    var cur: Option<nat> := Some(s);
    while count < n
      invariant 0 <= count <= n && Below(cur, |es|)
      invariant Around(es, Some(s), count) == Ok(Ended(cur))
    {
      if cur.None? {
        AroundSticks(es, Some(s), count + 1, n);
        return Err(MissingNext);
      }
      var p := es[cur.value].pair;
      if p.None? {
        AroundSticks(es, Some(s), count + 1, n);
        return Ok(Broken);
      }
      cur := es[p.value].next;
      count := count + 1;
    }
    if cur.None? {
      return Err(MissingNext);
    }
    WiredEdge(vs, adj, ts, es, cur.value);
    var t := es[cur.value].tri;
    if t.None? || startTri.None? {
      return Err(MissingTriangle);
    }
    if ts[t.value].index != ts[startTri.value].index {
      return Ok(Inconsistent);
    }
    return Ok(Continuous);
  }
}
