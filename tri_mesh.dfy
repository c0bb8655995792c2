/** The triangle mesh (tri_mesh.py): building it from the vertex and face
    lines of an .obj file, pairing the half-edges that share an edge key,
    assigning every triangle a consistent `nextEdge` cycle, and flattening
    it into render buffers. */
module TriMesh {
  import opened Outcomes
  import opened MeshGeometry

  // ---------------------------------------------------------------
  // Input of mesh.load
  // ---------------------------------------------------------------

  /** One line of an .obj file after tokenising: a `v` line, an `f` line
      with its vertex numbers (1-based, as written in the file), or any
      other line, which load ignores. */
  datatype ObjLine = VertexLine(p: Point) | FaceLine(refs: seq<int>) | OtherLine

  /** What load has taken from the lines read so far: the position of
      every `v` line, and for every triangle face its three corners as
      positions in the vertex list. */
  datatype Scene = Scene(positions: seq<Point>, corners: seq<seq<nat>>)

  /** Python's `xs[i]` on a list of length n: a negative i counts from the
      end; anything else outside the list is an IndexError. */
  function PyIndex(n: nat, i: int): (r: Option<nat>)
    ensures r.Some? <==> -(n as int) <= i < n
    ensures r.Some? ==> r.value < n && r.value as int % n == i % n
  {
    if 0 <= i < n then Some(i) else if -(n as int) <= i < 0 then Some((i + n) as nat) else None
  }

  /** The effect of one line on what load has read. A face line with four
      or more numbers is skipped; one with fewer than three raises. */
  function IngestLine(sc: Scene, line: ObjLine): Result<Scene> {
    match line
    case VertexLine(p) => Ok(sc.(positions := sc.positions + [p]))
    case OtherLine => Ok(sc)
    case FaceLine(refs) =>
      if |refs| >= 4 then Ok(sc)
      else if |refs| < 3 then Err(ShortFace)
      else
        var n := |sc.positions|;
        var a, b, c := PyIndex(n, refs[0] - 1), PyIndex(n, refs[1] - 1), PyIndex(n, refs[2] - 1);
        if a.None? || b.None? || c.None? then Err(BadVertexIndex)
        else Ok(sc.(corners := sc.corners + [[a.value, b.value, c.value]]))
  }

  /** What load reads from a whole file, or the fault of the first line
      it raises on. */
  function Ingest(lines: seq<ObjLine>): Result<Scene>
    decreases |lines|
  {
    if lines == [] then Ok(Scene([], []))
    else
      match Ingest(lines[..|lines| - 1])
      case Err(f) => Err(f)
      case Ok(sc) => IngestLine(sc, lines[|lines| - 1])
  }

  /** Every corner of every face read so far names a vertex read so far. */
  lemma {:induction false} IngestCornersInRange(lines: seq<ObjLine>)
    requires Ingest(lines).Ok?
    ensures var sc := Ingest(lines).value;
            forall t :: 0 <= t < |sc.corners| ==>
              |sc.corners[t]| == 3 && AllBelow(sc.corners[t], |sc.positions|)
    decreases |lines|
  {
    if lines != [] {
      IngestCornersInRange(lines[..|lines| - 1]);
    }
  }

  // ---------------------------------------------------------------
  // Adjacency lists
  // ---------------------------------------------------------------

  /** What building triangle t with corners cs appends to the adj_tris
      list of vertex v: t, once for each corner that is v. */
  function Hits(t: nat, cs: seq<nat>, v: nat): seq<nat>
    decreases |cs|
  {
    if cs == [] then [] else (if cs[0] == v then [t] else []) + Hits(t, cs[1..], v)
  }

  /** The adj_tris list of vertex v after the triangles with these corners
      were built in order. */
  function Incidences(corners: seq<seq<nat>>, v: nat): seq<nat>
    decreases |corners|
  {
    if corners == [] then []
    else Incidences(corners[..|corners| - 1], v) + Hits(|corners| - 1, corners[|corners| - 1], v)
  }

  lemma {:induction false} HitsCount(t: nat, cs: seq<nat>, v: nat, x: nat)
    ensures multiset(Hits(t, cs, v))[x] == if x == t then multiset(cs)[v] else 0
    decreases |cs|
  {
    if cs != [] {
      assert cs == [cs[0]] + cs[1..];
      assert multiset(cs) == multiset([cs[0]]) + multiset(cs[1..]);
      HitsCount(t, cs[1..], v, x);
    }
  }

  /** A vertex's adjacency list holds triangle t exactly as many times as
      t has v as a corner, and no other triangle. */
  lemma {:induction false} IncidencesCount(corners: seq<seq<nat>>, v: nat, t: nat)
    ensures multiset(Incidences(corners, v))[t] ==
            if t < |corners| then multiset(corners[t])[v] else 0
    decreases |corners|
  {
    if corners != [] {
      var n := |corners| - 1;
      IncidencesCount(corners[..n], v, t);
      HitsCount(n, corners[n], v, t);
    }
  }

  // ---------------------------------------------------------------
  // Pairing: the edge dictionary of load
  // ---------------------------------------------------------------

  predicate AllEndsIn(vs: seq<Vertex>, es: seq<HalfEdge>) {
    forall e :: 0 <= e < |es| ==> EndsIn(vs, es[e])
  }

  predicate MapBelow(em: map<(nat, nat), nat>, n: nat) {
    forall k :: k in em ==> em[k] < n
  }

  function Key(vs: seq<Vertex>, es: seq<HalfEdge>, e: nat): (nat, nat)
    requires AllEndsIn(vs, es) && e < |es|
  {
    EdgeKey(vs, es[e])
  }

  /** The last of the first n edges whose key is k. */
  function LatestWithKey(vs: seq<Vertex>, es: seq<HalfEdge>, k: (nat, nat), n: nat): (r: Option<nat>)
    requires AllEndsIn(vs, es) && n <= |es|
    ensures r.Some? ==> r.value < n && Key(vs, es, r.value) == k &&
                        forall e :: r.value < e < n ==> Key(vs, es, e) != k
    ensures r.None? ==> forall e :: 0 <= e < n ==> Key(vs, es, e) != k
    decreases n
  {
    if n == 0 then None
    else if Key(vs, es, n - 1) == k then Some(n - 1)
    else LatestWithKey(vs, es, k, n - 1)
  }

  /** The latest edge other than s that has s's key, if any. */
  function OtherLatest(vs: seq<Vertex>, es: seq<HalfEdge>, s: nat): Option<nat>
    requires AllEndsIn(vs, es) && s < |es|
  {
    var l := LatestWithKey(vs, es, Key(vs, es, s), |es|);
    if l == Some(s) then None else l
  }

  /** What load's dictionary holds and how it has paired the edges:
      every key is present and maps to the first edge with that key; an
      edge that found its key already present is paired to that first
      edge; the first edge is paired to the latest other edge with its key
      (every newcomer overwrote it), or to none if it is alone. */
  ghost predicate PairingOk(vs: seq<Vertex>, es: seq<HalfEdge>, em: map<(nat, nat), nat>)
    requires AllEndsIn(vs, es)
  {
    (forall e :: 0 <= e < |es| ==> Key(vs, es, e) in em) &&
    (forall k :: k in em ==> em[k] < |es| && Key(vs, es, em[k]) == k) &&
    (forall k, e :: k in em && 0 <= e < em[k] ==> Key(vs, es, e) != k) &&
    (forall e :: 0 <= e < |es| ==>
       es[e].pair == if em[Key(vs, es, e)] != e then Some(em[Key(vs, es, e)]) else OtherLatest(vs, es, e))
  }

  /** The dictionary step of load for a new edge x (tri_mesh.py:86-93):
      a new key is stored; a known key pairs x and the stored edge. */
  function InsertEdge(vs: seq<Vertex>, es: seq<HalfEdge>, em: map<(nat, nat), nat>, x: HalfEdge)
    : (seq<HalfEdge>, map<(nat, nat), nat>)
    requires EndsIn(vs, x) && MapBelow(em, |es|)
  {
    var h, k := |es|, EdgeKey(vs, x);
    if k !in em then (es + [x], em[k := h])
    else
      var s := em[k];
      (es[s := es[s].(pair := Some(h))] + [x.(pair := Some(s))], em)
  }

  /** The dictionary step of the seed triangle of a subdivision pass
      (loop_subdivision.py:139-140): a new key is stored, a known key is
      left alone. */
  function RegisterEdge(vs: seq<Vertex>, es: seq<HalfEdge>, em: map<(nat, nat), nat>, x: HalfEdge)
    : (seq<HalfEdge>, map<(nat, nat), nat>)
    requires EndsIn(vs, x)
  {
    var k := EdgeKey(vs, x);
    if k !in em then (es + [x], em[k := |es|]) else (es + [x], em)
  }

  lemma {:induction false} LatestAgree(vs: seq<Vertex>, es: seq<HalfEdge>, ws: seq<Vertex>, fs: seq<HalfEdge>,
                                       k: (nat, nat), n: nat)
    requires AllEndsIn(vs, es) && AllEndsIn(ws, fs) && n <= |es| && n <= |fs|
    requires forall e :: 0 <= e < n ==> Key(vs, es, e) == Key(ws, fs, e)
    ensures LatestWithKey(vs, es, k, n) == LatestWithKey(ws, fs, k, n)
    decreases n
  {
    if n > 0 {
      LatestAgree(vs, es, ws, fs, k, n - 1);
    }
  }

  /** The pairing description depends only on the keys and the pairs: it
      survives any change that keeps both (a grown vertex list, new
      `nextEdge` links). */
  lemma PairingTransfer(vs: seq<Vertex>, es: seq<HalfEdge>, ws: seq<Vertex>, fs: seq<HalfEdge>,
                        em: map<(nat, nat), nat>)
    requires AllEndsIn(vs, es) && AllEndsIn(ws, fs) && |es| == |fs| && PairingOk(vs, es, em)
    requires forall e :: 0 <= e < |es| ==> Key(vs, es, e) == Key(ws, fs, e) && fs[e].pair == es[e].pair
    ensures PairingOk(ws, fs, em)
  {
    forall e | 0 <= e < |fs| ensures OtherLatest(ws, fs, e) == OtherLatest(vs, es, e) {
      LatestAgree(vs, es, ws, fs, Key(vs, es, e), |es|);
    }
  }

  /** Each dictionary step keeps the pairing description true. */
  lemma InsertEdgeKeepsPairing(vs: seq<Vertex>, es: seq<HalfEdge>, em: map<(nat, nat), nat>, x: HalfEdge)
    requires AllEndsIn(vs, es) && EndsIn(vs, x) && x.pair == None
    requires PairingOk(vs, es, em)
    ensures MapBelow(em, |es|)
    ensures var (fs, fm) := InsertEdge(vs, es, em, x);
            AllEndsIn(vs, fs) && PairingOk(vs, fs, fm)
  {
    var (fs, fm) := InsertEdge(vs, es, em, x);
    ExtensionKeys(vs, es, fs, EdgeKey(vs, x));
    if EdgeKey(vs, x) !in em {
      InsertNewKey(vs, es, em, x, fs, fm);
    } else {
      InsertKnownKey(vs, es, em, x, fs, fm);
    }
  }

  /** Growing the edge list by one edge of key k, without moving any
      endpoint, keeps the old keys and the latest edge of every other key. */
  lemma ExtensionKeys(vs: seq<Vertex>, es: seq<HalfEdge>, fs: seq<HalfEdge>, k: (nat, nat))
    requires AllEndsIn(vs, es) && |fs| == |es| + 1 && EndsIn(vs, fs[|es|]) && EdgeKey(vs, fs[|es|]) == k
    requires forall e :: 0 <= e < |es| ==> fs[e].v0 == es[e].v0 && fs[e].v1 == es[e].v1
    ensures AllEndsIn(vs, fs)
    ensures forall e :: 0 <= e < |es| ==> Key(vs, fs, e) == Key(vs, es, e)
    ensures Key(vs, fs, |es|) == k
    ensures forall k2 :: LatestWithKey(vs, fs, k2, |fs|) ==
                         if k2 == k then Some(|es|) else LatestWithKey(vs, es, k2, |es|)
  {
    assert AllEndsIn(vs, fs) by {
      forall e | 0 <= e < |fs| ensures EndsIn(vs, fs[e]) {
        if e < |es| { assert EndsIn(vs, es[e]); }
      }
    }
    forall k2 ensures LatestWithKey(vs, fs, k2, |fs|) ==
                      if k2 == k then Some(|es|) else LatestWithKey(vs, es, k2, |es|) {
      LatestAgree(vs, es, vs, fs, k2, |es|);
    }
  }

  lemma InsertNewKey(vs: seq<Vertex>, es: seq<HalfEdge>, em: map<(nat, nat), nat>, x: HalfEdge,
                     fs: seq<HalfEdge>, fm: map<(nat, nat), nat>)
    requires AllEndsIn(vs, es) && EndsIn(vs, x) && x.pair == None && PairingOk(vs, es, em)
    requires EdgeKey(vs, x) !in em && fs == es + [x] && fm == em[EdgeKey(vs, x) := |es|]
    requires AllEndsIn(vs, fs)
    requires forall e :: 0 <= e < |es| ==> Key(vs, fs, e) == Key(vs, es, e)
    requires forall k2 :: LatestWithKey(vs, fs, k2, |fs|) ==
                          if k2 == EdgeKey(vs, x) then Some(|es|) else LatestWithKey(vs, es, k2, |es|)
    ensures PairingOk(vs, fs, fm)
  {
    var h, k := |es|, EdgeKey(vs, x);
    assert Key(vs, fs, h) == k;
    forall e | 0 <= e < |fs| ensures Key(vs, fs, e) in fm {
    }
    forall k2 | k2 in fm ensures fm[k2] < |fs| && Key(vs, fs, fm[k2]) == k2 {
    }
    forall k2, e | k2 in fm && 0 <= e < fm[k2] ensures Key(vs, fs, e) != k2 {
      assert Key(vs, fs, e) == Key(vs, es, e);
    }
    forall e | 0 <= e < |fs|
      ensures fs[e].pair == if fm[Key(vs, fs, e)] != e then Some(fm[Key(vs, fs, e)]) else OtherLatest(vs, fs, e)
    {
      if e < h {
        var ke := Key(vs, es, e);
        assert Key(vs, fs, e) == ke != k && ke in em;
        PairKeptAt(vs, es, em, fs, fm, e);
      }
    }
  }

  lemma InsertKnownKey(vs: seq<Vertex>, es: seq<HalfEdge>, em: map<(nat, nat), nat>, x: HalfEdge,
                       fs: seq<HalfEdge>, fm: map<(nat, nat), nat>)
    requires AllEndsIn(vs, es) && EndsIn(vs, x) && PairingOk(vs, es, em)
    requires EdgeKey(vs, x) in em && fm == em
    requires fs == es[em[EdgeKey(vs, x)] := es[em[EdgeKey(vs, x)]].(pair := Some(|es|))]
                   + [x.(pair := Some(em[EdgeKey(vs, x)]))]
    requires AllEndsIn(vs, fs)
    requires forall e :: 0 <= e < |es| ==> Key(vs, fs, e) == Key(vs, es, e)
    requires forall k2 :: LatestWithKey(vs, fs, k2, |fs|) ==
                          if k2 == EdgeKey(vs, x) then Some(|es|) else LatestWithKey(vs, es, k2, |es|)
    ensures PairingOk(vs, fs, fm)
  {
    var h, k := |es|, EdgeKey(vs, x);
    var s := em[k];
    assert Key(vs, fs, h) == k;
    forall e | 0 <= e < |fs| ensures Key(vs, fs, e) in fm {
    }
    forall k2 | k2 in fm ensures fm[k2] < |fs| && Key(vs, fs, fm[k2]) == k2 {
    }
    forall k2, e | k2 in fm && 0 <= e < fm[k2] ensures Key(vs, fs, e) != k2 {
      assert Key(vs, fs, e) == Key(vs, es, e);
    }
    forall e | 0 <= e < |fs|
      ensures fs[e].pair == if fm[Key(vs, fs, e)] != e then Some(fm[Key(vs, fs, e)]) else OtherLatest(vs, fs, e)
    {
      KnownKeyPairAt(vs, es, em, x, fs, fm, e);
    }
  }

  /** The pair of edge e after a known-key step. */
  lemma KnownKeyPairAt(vs: seq<Vertex>, es: seq<HalfEdge>, em: map<(nat, nat), nat>, x: HalfEdge,
                       fs: seq<HalfEdge>, fm: map<(nat, nat), nat>, e: nat)
    requires AllEndsIn(vs, es) && EndsIn(vs, x) && PairingOk(vs, es, em)
    requires EdgeKey(vs, x) in em && fm == em
    requires fs == es[em[EdgeKey(vs, x)] := es[em[EdgeKey(vs, x)]].(pair := Some(|es|))]
                   + [x.(pair := Some(em[EdgeKey(vs, x)]))]
    requires AllEndsIn(vs, fs) && e < |fs|
    requires forall e :: 0 <= e < |es| ==> Key(vs, fs, e) == Key(vs, es, e)
    requires forall k2 :: LatestWithKey(vs, fs, k2, |fs|) ==
                          if k2 == EdgeKey(vs, x) then Some(|es|) else LatestWithKey(vs, es, k2, |es|)
    ensures Key(vs, fs, e) in fm
    ensures fs[e].pair == if fm[Key(vs, fs, e)] != e then Some(fm[Key(vs, fs, e)]) else OtherLatest(vs, fs, e)
  {
    var h, k := |es|, EdgeKey(vs, x);
    var s := em[k];
    if e == h {
      assert Key(vs, fs, e) == k;
    } else if e == s {
      assert Key(vs, fs, e) == k;
      assert LatestWithKey(vs, fs, k, |fs|) == Some(h);
    } else {
      var ke := Key(vs, es, e);
      assert Key(vs, fs, e) == ke && ke in em;
      assert em[ke] == e ==> ke != k;
      PairKeptAt(vs, es, em, fs, fm, e);
    }
  }

  /** An edge whose pair, key and latest namesake are unchanged keeps the
      pairing description. */
  lemma PairKeptAt(vs: seq<Vertex>, es: seq<HalfEdge>, em: map<(nat, nat), nat>,
                    fs: seq<HalfEdge>, fm: map<(nat, nat), nat>, e: nat)
    requires AllEndsIn(vs, es) && AllEndsIn(vs, fs) && e < |es| && e < |fs|
    requires fs[e].pair == es[e].pair && Key(vs, fs, e) == Key(vs, es, e)
    requires Key(vs, es, e) in em && Key(vs, es, e) in fm && fm[Key(vs, es, e)] == em[Key(vs, es, e)]
    requires es[e].pair == if em[Key(vs, es, e)] != e then Some(em[Key(vs, es, e)]) else OtherLatest(vs, es, e)
    requires em[Key(vs, es, e)] == e ==>
               LatestWithKey(vs, fs, Key(vs, es, e), |fs|) == LatestWithKey(vs, es, Key(vs, es, e), |es|)
    ensures fs[e].pair == if fm[Key(vs, fs, e)] != e then Some(fm[Key(vs, fs, e)]) else OtherLatest(vs, fs, e)
  {
  }

  /** The edge of a face with corners c that runs from corner i to the
      next corner: (c0,c1), (c1,c2), (c2,c0) (tri_mesh.py:80-82). */
  function FaceEdge(vs: seq<Vertex>, c: seq<nat>, i: nat): HalfEdge
    requires |c| == 3 && AllBelow(c, |vs|) && i < 3
  {
    NewEdge(vs, c[i], c[(i + 1) % 3])
  }

  /** The dictionary steps of load for the first n edges of face t. */
  function InsertFaceEdges(vs: seq<Vertex>, es: seq<HalfEdge>, em: map<(nat, nat), nat>,
                           c: seq<nat>, t: nat, n: nat): (r: (seq<HalfEdge>, map<(nat, nat), nat>))
    requires |c| == 3 && AllBelow(c, |vs|) && n <= 3 && MapBelow(em, |es|)
    ensures |r.0| == |es| + n && MapBelow(r.1, |r.0|)
    decreases n
  {
    if n == 0 then (es, em)
    else
      var (fs, fm) := InsertFaceEdges(vs, es, em, c, t, n - 1);
      InsertEdge(vs, fs, fm, FaceEdge(vs, c, n - 1).(tri := Some(t)))
  }

  /** One dictionary step only sets `pair` fields and appends x. */
  lemma InsertEdgeShape(vs: seq<Vertex>, es: seq<HalfEdge>, em: map<(nat, nat), nat>, x: HalfEdge)
    requires EndsIn(vs, x) && MapBelow(em, |es|)
    ensures var fs := InsertEdge(vs, es, em, x).0;
            |fs| == |es| + 1 && fs[|es|] == x.(pair := fs[|es|].pair) &&
            forall e :: 0 <= e < |es| ==> fs[e] == es[e].(pair := fs[e].pair)
  {
  }

  /** The dictionary steps only set `pair` fields: the old edges keep
      everything else, and the new ones are the face's edges, owned by t. */
  lemma {:induction false} InsertFaceEdgesShape(vs: seq<Vertex>, es: seq<HalfEdge>, em: map<(nat, nat), nat>,
                                                c: seq<nat>, t: nat, n: nat)
    requires |c| == 3 && AllBelow(c, |vs|) && n <= 3 && MapBelow(em, |es|)
    ensures var fs := InsertFaceEdges(vs, es, em, c, t, n).0;
            (forall e :: 0 <= e < |es| ==> fs[e] == es[e].(pair := fs[e].pair)) &&
            (forall j :: 0 <= j < n ==> fs[|es| + j] == FaceEdge(vs, c, j).(tri := Some(t), pair := fs[|es| + j].pair))
    decreases n
  {
    if n > 0 {
      InsertFaceEdgesShape(vs, es, em, c, t, n - 1);
      var (gs, gm) := InsertFaceEdges(vs, es, em, c, t, n - 1);
      var x := FaceEdge(vs, c, n - 1).(tri := Some(t));
      InsertEdgeShape(vs, gs, gm, x);
      var fs := InsertEdge(vs, gs, gm, x).0;
      assert fs == InsertFaceEdges(vs, es, em, c, t, n).0;
      forall j | 0 <= j < n ensures fs[|es| + j] == FaceEdge(vs, c, j).(tri := Some(t), pair := fs[|es| + j].pair) {
        if j < n - 1 {
          assert fs[|es| + j] == gs[|es| + j].(pair := fs[|es| + j].pair);
        }
      }
    }
  }

  /** ... and keep the pairing description true. */
  lemma {:induction false} InsertFaceEdgesPairing(vs: seq<Vertex>, es: seq<HalfEdge>, em: map<(nat, nat), nat>,
                                                  c: seq<nat>, t: nat, n: nat)
    requires |c| == 3 && AllBelow(c, |vs|) && n <= 3 && AllEndsIn(vs, es)
    requires PairingOk(vs, es, em)
    ensures MapBelow(em, |es|)
    ensures var (fs, fm) := InsertFaceEdges(vs, es, em, c, t, n);
            AllEndsIn(vs, fs) && PairingOk(vs, fs, fm)
    decreases n
  {
    assert MapBelow(em, |es|);
    if n > 0 {
      InsertFaceEdgesPairing(vs, es, em, c, t, n - 1);
      var (fs, fm) := InsertFaceEdges(vs, es, em, c, t, n - 1);
      InsertEdgeKeepsPairing(vs, fs, fm, FaceEdge(vs, c, n - 1).(tri := Some(t)));
    }
  }

  /** A paired edge is paired to another edge with the same key. */
  lemma PairsShareKeys(vs: seq<Vertex>, es: seq<HalfEdge>, em: map<(nat, nat), nat>)
    requires AllEndsIn(vs, es) && PairingOk(vs, es, em)
    ensures forall e :: 0 <= e < |es| && es[e].pair.Some? ==>
              es[e].pair.value < |es| && es[e].pair.value != e &&
              Key(vs, es, es[e].pair.value) == Key(vs, es, e)
  {
  }

  /** Two half-edges are paired only when they span the same two vertex
      indices. */
  ghost predicate PairsShareEnds(vs: seq<Vertex>, es: seq<HalfEdge>)
    requires AllEndsIn(vs, es)
  {
    forall e :: 0 <= e < |es| && es[e].pair.Some? ==>
      es[e].pair.value < |es| &&
      vs[es[es[e].pair.value].v0].index == vs[es[e].v0].index &&
      vs[es[es[e].pair.value].v1].index == vs[es[e].v1].index
  }

  lemma PairingSharesEnds(vs: seq<Vertex>, es: seq<HalfEdge>, em: map<(nat, nat), nat>)
    requires AllEndsIn(vs, es) && PairingOk(vs, es, em)
    ensures PairsShareEnds(vs, es)
  {
    PairsShareKeys(vs, es, em);
  }

  /** No key is shared by more than two half-edges (every edge of the
      surface borders at most two faces). */
  predicate Manifold(vs: seq<Vertex>, es: seq<HalfEdge>)
    requires AllEndsIn(vs, es)
  {
    forall a, b, c :: 0 <= a < b < c < |es| && Key(vs, es, a) == Key(vs, es, b) ==>
      Key(vs, es, a) != Key(vs, es, c)
  }

  /** On a manifold surface `e.pair.pair == e` for every paired edge. */
  lemma PairInvolution(vs: seq<Vertex>, es: seq<HalfEdge>, em: map<(nat, nat), nat>)
    requires AllEndsIn(vs, es) && PairingOk(vs, es, em) && Manifold(vs, es)
    ensures forall e :: 0 <= e < |es| && es[e].pair.Some? ==>
              es[e].pair.value < |es| && es[es[e].pair.value].pair == Some(e)
  {
    forall e | 0 <= e < |es| && es[e].pair.Some?
      ensures es[e].pair.value < |es| && es[es[e].pair.value].pair == Some(e)
    {
      var k := Key(vs, es, e);
      var s := em[k];
      var l := LatestWithKey(vs, es, k, |es|);
      if e != s {
        assert s < e;
        assert l.Some? && e <= l.value;
        assert l == Some(e);
      } else {
        assert l.Some? && l.value != s;
        assert em[Key(vs, es, l.value)] == s;
      }
    }
  }

  // ---------------------------------------------------------------
  // Spins: the nextEdge cycle inside one triangle
  // ---------------------------------------------------------------

  /** Edges e, e+1, e+2 of triangle t (edges 3t, 3t+1, 3t+2) linked in
      storage order. */
  predicate ForwardSpin(es: seq<HalfEdge>, t: nat)
    requires 3 * t + 2 < |es|
  {
    es[3 * t].next == Some(3 * t + 1) && es[3 * t + 1].next == Some(3 * t + 2) &&
    es[3 * t + 2].next == Some(3 * t)
  }

  /** The same edges linked against storage order. */
  predicate BackwardSpin(es: seq<HalfEdge>, t: nat)
    requires 3 * t + 2 < |es|
  {
    es[3 * t].next == Some(3 * t + 2) && es[3 * t + 2].next == Some(3 * t + 1) &&
    es[3 * t + 1].next == Some(3 * t)
  }

  predicate Unspun(es: seq<HalfEdge>, t: nat)
    requires 3 * t + 2 < |es|
  {
    es[3 * t].next == None && es[3 * t + 1].next == None && es[3 * t + 2].next == None
  }

  predicate Spun(es: seq<HalfEdge>, t: nat)
    requires 3 * t + 2 < |es|
  {
    ForwardSpin(es, t) || BackwardSpin(es, t)
  }

  function Next(es: seq<HalfEdge>, e: nat): Option<nat>
    requires e < |es|
  {
    es[e].next
  }

  /** Any three distinct edges of one triangle linked p -> q -> r -> p form
      one of its two spins. */
  lemma ThreeCycleIsSpin(es: seq<HalfEdge>, t: nat, p: nat, q: nat, r: nat)
    requires 3 * t + 2 < |es|
    requires 3 * t <= p < 3 * t + 3 && 3 * t <= q < 3 * t + 3 && 3 * t <= r < 3 * t + 3
    requires p != q && q != r && r != p
    requires es[p].next == Some(q) && es[q].next == Some(r) && es[r].next == Some(p)
    ensures Spun(es, t)
  {
  }

  /** In a spun triangle, following `nextEdge` three times from any of its
      edges returns to that edge, visiting each of its edges once. */
  lemma SpinReturns(es: seq<HalfEdge>, t: nat, e: nat)
    requires 3 * t + 2 < |es| && Spun(es, t) && 3 * t <= e < 3 * t + 3
    ensures var n1 := Next(es, e).value;
            3 * t <= n1 < 3 * t + 3 && n1 != e &&
            var n2 := Next(es, n1).value;
            3 * t <= n2 < 3 * t + 3 && n2 != e && n2 != n1 &&
            Next(es, n2) == Some(e)
  {
  }

  /** The spin invariant: a visited triangle has one of its two spins; an
      unvisited one has no `nextEdge` links yet. */
  ghost predicate SpinsHold(ts: seq<Triangle>, es: seq<HalfEdge>)
    requires |es| == 3 * |ts|
  {
    forall t :: 0 <= t < |ts| ==> if ts[t].visited then Spun(es, t) else Unspun(es, t)
  }

  predicate TrianglesWired(ts: seq<Triangle>, nv: nat, ne: nat) {
    forall t :: 0 <= t < |ts| ==> TriangleWired(ts[t], nv, ne)
  }

  predicate EdgesWired(es: seq<HalfEdge>, nv: nat, nt: nat) {
    forall e :: 0 <= e < |es| ==> EdgeWired(es[e], nv, nt, |es|)
  }

  /** Triangle t owns half-edges 3t, 3t+1, 3t+2 as its edge[0..2]. */
  ghost predicate InOrder(ts: seq<Triangle>, es: seq<HalfEdge>) {
    |es| == 3 * |ts| &&
    (forall t :: 0 <= t < |ts| ==> ts[t].edge == [Some(3 * t), Some(3 * t + 1), Some(3 * t + 2)]) &&
    (forall e :: 0 <= e < |es| ==> es[e].tri == Some(e / 3))
  }

  lemma WiredEnds(vs: seq<Vertex>, es: seq<HalfEdge>, nt: nat)
    requires EdgesWired(es, |vs|, nt)
    ensures AllEndsIn(vs, es)
  {
    forall e | 0 <= e < |es| ensures EndsIn(vs, es[e]) {
      assert EdgeWired(es[e], |vs|, nt, |es|);
    }
  }

  /** Changing `visited` flags and `nextEdge` links (to edges that exist)
      keeps every handle valid and every triangle's edges in place. */
  lemma SpinStepKeepsShape(ts: seq<Triangle>, es: seq<HalfEdge>, us: seq<Triangle>, fs: seq<HalfEdge>, nv: nat)
    requires TrianglesWired(ts, nv, |es|) && EdgesWired(es, nv, |ts|) && InOrder(ts, es)
    requires SameButVisited(ts, us) && SameButNext(es, fs)
    requires forall e :: 0 <= e < |fs| ==> Below(fs[e].next, |fs|)
    ensures TrianglesWired(us, nv, |fs|) && EdgesWired(fs, nv, |us|) && InOrder(us, fs)
  {
    assert TrianglesWired(us, nv, |fs|) by {
      forall t | 0 <= t < |us| ensures TriangleWired(us[t], nv, |fs|) {
        assert TriangleWired(ts[t], nv, |es|);
      }
    }
    assert EdgesWired(fs, nv, |us|) by {
      forall e | 0 <= e < |fs| ensures EdgeWired(fs[e], nv, |us|, |fs|) {
        assert EdgeWired(es[e], nv, |ts|, |es|);
      }
    }
  }

  /** Spins change only the links of a triangle unvisited until then. */
  ghost predicate VisitedSpinsKept(ts: seq<Triangle>, es: seq<HalfEdge>, fs: seq<HalfEdge>)
    requires |es| == 3 * |ts| && |fs| == |es|
  {
    forall t :: 0 <= t < |ts| && ts[t].visited ==> SameSpin(es, fs, t)
  }

  lemma VisitedSpinsKeptTrans(ts: seq<Triangle>, us: seq<Triangle>, es: seq<HalfEdge>, fs: seq<HalfEdge>, gs: seq<HalfEdge>)
    requires |es| == 3 * |ts| && |fs| == |es| && |gs| == |es| && VisitedGrows(ts, us)
    requires VisitedSpinsKept(ts, es, fs) && VisitedSpinsKept(us, fs, gs)
    ensures VisitedSpinsKept(ts, es, gs)
  {
  }

  /** Linking the edges of a triangle that was unvisited and unspun, and
      marking it visited, keeps the spin invariant. */
  lemma SpinsAfterLink(ts: seq<Triangle>, es: seq<HalfEdge>, us: seq<Triangle>, fs: seq<HalfEdge>, t: nat)
    requires |es| == 3 * |ts| && SpinsHold(ts, es) && t < |ts| && !ts[t].visited
    requires us == ts[t := ts[t].(visited := true)] && |fs| == |es|
    requires forall e :: 0 <= e < |fs| && !(3 * t <= e < 3 * t + 3) ==> fs[e] == es[e]
    requires Spun(fs, t)
    ensures SpinsHold(us, fs)
  {
    forall u | 0 <= u < |us| ensures if us[u].visited then Spun(fs, u) else Unspun(fs, u) {
      if u != t {
        assert SameSpin(es, fs, u);
      }
    }
  }

  /** The seeding of triangle 0 keeps the spin invariant. */
  lemma SpinsAfterSeed(ts: seq<Triangle>, es: seq<HalfEdge>, us: seq<Triangle>, fs: seq<HalfEdge>)
    requires |es| == 3 * |ts| && SpinsHold(ts, es) && 0 < |ts|
    requires us == ts[0 := ts[0].(visited := true)] && |fs| == |es|
    requires forall e :: 3 <= e < |fs| ==> fs[e] == es[e]
    requires ForwardSpin(fs, 0)
    ensures SpinsHold(us, fs)
  {
    forall u | 0 <= u < |us| ensures if us[u].visited then Spun(fs, u) else Unspun(fs, u) {
      if u != 0 {
        assert SameSpin(es, fs, u);
      }
    }
  }

  /** The first of triangle t's edges, in storage order, that does not
      contain vertex v (containment compares vertex indices). */
  ghost function FirstEdgeWithout(vs: seq<Vertex>, es: seq<HalfEdge>, t: nat, v: nat): (r: Option<nat>)
    requires AllEndsIn(vs, es) && 3 * t + 2 < |es| && v < |vs|
    ensures r.Some? ==> 3 * t <= r.value < 3 * t + 3 && !ContainsVertex(vs, es[r.value], v) &&
                        forall e :: 3 * t <= e < r.value ==> ContainsVertex(vs, es[e], v)
    ensures r.None? ==> forall e :: 3 * t <= e < 3 * t + 3 ==> ContainsVertex(vs, es[e], v)
  {
    if !ContainsVertex(vs, es[3 * t], v) then Some(3 * t)
    else if !ContainsVertex(vs, es[3 * t + 1], v) then Some(3 * t + 1)
    else if !ContainsVertex(vs, es[3 * t + 2], v) then Some(3 * t + 2)
    else None
  }

  /** The edge recAssignSpin links the pair of s to: the first edge of
      the pair's triangle without the vertex s shares with its own next
      edge. None where the program raises instead. */
  ghost function SpinTarget(vs: seq<Vertex>, es: seq<HalfEdge>, s: nat, nt: nat): Option<nat>
    requires AllEndsIn(vs, es) && |es| == 3 * nt && s < |es|
  {
    if es[s].pair.None? || es[s].next.None? || es[s].pair.value >= |es| || es[s].next.value >= |es| then None
    else
      match SharedVertex(vs, es[s], es[es[s].next.value])
      case None => None
      case Some(sv) => FirstEdgeWithout(vs, es, es[s].pair.value / 3, sv)
  }

  /** What one step of the spin pass may do: set `visited` flags, never
      clear one, and change `nextEdge` links only in triangles unvisited
      until then. */
  ghost predicate SpinStep(ts: seq<Triangle>, es: seq<HalfEdge>, us: seq<Triangle>, fs: seq<HalfEdge>)
    requires |es| == 3 * |ts|
  {
    SameButVisited(ts, us) && SameButNext(es, fs) && VisitedGrows(ts, us) && VisitedSpinsKept(ts, es, fs)
  }

  lemma SpinStepRefl(ts: seq<Triangle>, es: seq<HalfEdge>)
    requires |es| == 3 * |ts|
    ensures SpinStep(ts, es, ts, es)
  {
  }

  lemma SpinStepTrans(ts: seq<Triangle>, es: seq<HalfEdge>, us: seq<Triangle>, fs: seq<HalfEdge>,
                      ws: seq<Triangle>, gs: seq<HalfEdge>)
    requires |es| == 3 * |ts| && SpinStep(ts, es, us, fs) && SpinStep(us, fs, ws, gs)
    ensures SpinStep(ts, es, ws, gs)
  {
    assert SameButVisited(ts, ws) by {
      forall t | 0 <= t < |ts| ensures ws[t] == ts[t].(visited := ws[t].visited) {
        assert us[t] == ts[t].(visited := us[t].visited);
      }
    }
    assert SameButNext(es, gs) by {
      forall e | 0 <= e < |es| ensures gs[e] == es[e].(next := gs[e].next) {
        assert fs[e] == es[e].(next := fs[e].next);
      }
    }
    VisitedSpinsKeptTrans(ts, us, es, fs, gs);
  }

  lemma SpinStepChain(ts: seq<Triangle>, es: seq<HalfEdge>, us: seq<Triangle>, fs: seq<HalfEdge>,
                      ws: seq<Triangle>, gs: seq<HalfEdge>)
    requires |es| == 3 * |ts| && SameButVisited(ts, us) && SameButNext(es, fs) && SpinStep(us, fs, ws, gs)
    ensures SameButVisited(ts, ws) && SameButNext(es, gs)
  {
    assert SameButVisited(ts, ws) by {
      forall t | 0 <= t < |ts| ensures ws[t] == ts[t].(visited := ws[t].visited) {
        assert us[t] == ts[t].(visited := us[t].visited);
      }
    }
    assert SameButNext(es, gs) by {
      forall e | 0 <= e < |es| ensures gs[e] == es[e].(next := gs[e].next) {
        assert fs[e] == es[e].(next := fs[e].next);
      }
    }
  }

  /** fs is es with some `nextEdge` links changed and nothing else. */
  /** The faults spin assignment can raise: a `nextEdge` that is None, a
      `sharedVertex` that found nothing, or the unbound search variable. */
  predicate SpinOutcome(r: Outcome) {
    r.Failed? ==> r.fault == MissingNext || r.fault == NoSharedVertex || r.fault == NoSuccessorEdge
  }

  predicate SameButNext(es: seq<HalfEdge>, fs: seq<HalfEdge>) {
    |es| == |fs| && forall e :: 0 <= e < |es| ==> fs[e] == es[e].(next := fs[e].next)
  }

  /** us is ts with some `visited` flags changed and nothing else. */
  predicate SameButVisited(ts: seq<Triangle>, us: seq<Triangle>) {
    |ts| == |us| && forall t :: 0 <= t < |ts| ==> us[t] == ts[t].(visited := us[t].visited)
  }

  /** Triangle t's three edges have the same `nextEdge` links in es and fs. */
  predicate SameSpin(es: seq<HalfEdge>, fs: seq<HalfEdge>, t: nat)
    requires 3 * t + 2 < |es| && 3 * t + 2 < |fs|
  {
    forall e :: 3 * t <= e < 3 * t + 3 ==> fs[e].next == es[e].next
  }

  lemma PairsShareEndsNextOnly(vs: seq<Vertex>, es: seq<HalfEdge>, fs: seq<HalfEdge>)
    requires AllEndsIn(vs, es) && SameButNext(es, fs)
    ensures AllEndsIn(vs, fs)
    ensures PairsShareEnds(vs, es) <==> PairsShareEnds(vs, fs)
  {
    assert AllEndsIn(vs, fs) by {
      forall e | 0 <= e < |fs| ensures EndsIn(vs, fs[e]) {
        assert EndsIn(vs, es[e]);
      }
    }
    forall e | 0 <= e < |es| ensures es[e].pair == fs[e].pair && es[e].v0 == fs[e].v0 && es[e].v1 == fs[e].v1 {
    }
  }

  // ---------------------------------------------------------------
  // The mesh object
  // ---------------------------------------------------------------

  /** class mesh. Every entity lives in an arena and is named by its
      position there; `verts` and `tris` are the program's `verts` and
      `triangles` lists, and `edgeMap` is its `edges` dictionary, keyed by
      the index pair that `repr` spells (see ReprFaithful). */
  class Mesh {
    var vertices: seq<Vertex>              // vertex objects, by handle
    var adjTris: seq<seq<nat>>             // adjTris[h]: the adj_tris list of vertex object h
    var verts: seq<nat>                    // mesh.verts
    var tris: seq<Triangle>                // mesh.triangles
    var edges: seq<HalfEdge>               // half-edge objects, by handle
    var edgeMap: map<(nat, nat), nat>      // mesh.edges
    var vindex: nat
    var tindex: nat

    ghost predicate IsEmpty()
      reads this
    {
      vertices == [] && adjTris == [] && verts == [] && tris == [] && edges == [] &&
      edgeMap == map[] && vindex == 0 && tindex == 0
    }

    /** mesh.__init__: no vertices, triangles or edges; both counters 0. */
    constructor ()
      ensures IsEmpty()
    {
      vertices, adjTris, verts := [], [], [];
      tris, edges, edgeMap := [], [], map[];
      vindex, tindex := 0, 0;
    }

    /** Every handle names an existing entity of this mesh (the
        `subdivision` slots name edges of another mesh and are left out). */
    ghost predicate Valid()
      reads this
    {
      |adjTris| == |vertices| &&
      AllBelow(verts, |vertices|) &&
      (forall v :: 0 <= v < |adjTris| ==> AllBelow(adjTris[v], |tris|)) &&
      TrianglesWired(tris, |vertices|, |edges|) &&
      EdgesWired(edges, |vertices|, |tris|) &&
      MapBelow(edgeMap, |edges|)
    }

    /** Triangle t owns half-edges 3t, 3t+1, 3t+2 as its edge[0..2]: both
        load and a subdivision pass create exactly three per triangle, in
        triangle order. */
    ghost predicate Layout()
      reads this
    {
      InOrder(tris, edges)
    }

    /** A visited triangle has one of its two spins; an unvisited one has
        no `nextEdge` links yet. */
    ghost predicate SpinInv()
      reads this
      requires Layout()
    {
      SpinsHold(tris, edges)
    }

    lemma ValidEnds()
      requires Valid()
      ensures AllEndsIn(vertices, edges)
    {
      WiredEnds(vertices, edges, |tris|);
    }

    /** The state load leaves for what it read, apart from the spin pass's
        `nextEdge` and `visited` fields. */
    ghost predicate Shaped(sc: Scene)
      reads this
    {
      LoadedFrom(sc, vertices, adjTris, verts, tris, edges, edgeMap)
    }

    /** Nothing is linked or visited yet. */
    ghost predicate NothingSpun()
      reads this
      requires Layout()
    {
      NoSpins(tris, edges)
    }

    // ---- creating entities ----

    /** Appends a vertex object to the arena and to `verts`; its adj_tris
        list starts empty (vertex.__init__). */
    method AppendVertex(v: Vertex) returns (h: nat)
      modifies this`vertices, this`adjTris, this`verts
      ensures h == old(|vertices|)
      ensures vertices == old(vertices) + [v] && adjTris == old(adjTris) + [[]] && verts == old(verts) + [h]
    {
      h := |vertices|;
      vertices := vertices + [v];
      adjTris := adjTris + [[]];
      verts := verts + [h];
    }

    /** triangle.__init__ with corners a, b, c: the triangle is stored and
        appends itself to the adj_tris list of each corner in turn. */
    method AddTriangle(a: nat, b: nat, c: nat, i: nat) returns (t: nat)
      requires Valid() && a < |vertices| && b < |vertices| && c < |vertices|
      modifies this`tris, this`adjTris
      ensures Valid()
      ensures t == old(|tris|) && tris == old(tris) + [NewTriangle(a, b, c, i)]
      ensures |adjTris| == old(|adjTris|)
      ensures forall v :: 0 <= v < |adjTris| ==> adjTris[v] == old(adjTris[v]) + Hits(t, [a, b, c], v)
    {
      t := |tris|;
      tris := tris + [NewTriangle(a, b, c, i)];
      adjTris := adjTris[a := adjTris[a] + [t]];
      adjTris := adjTris[b := adjTris[b] + [t]];
      adjTris := adjTris[c := adjTris[c] + [t]];
      assert forall v :: 0 <= v < |adjTris| ==> AllBelow(adjTris[v], |tris|) by {
        forall v | 0 <= v < |adjTris| ensures AllBelow(adjTris[v], |tris|) {
          assert AllBelow(old(adjTris[v]), |tris|);
        }
      }
      forall v | 0 <= v < |adjTris| ensures adjTris[v] == old(adjTris[v]) + Hits(t, [a, b, c], v) {
        HitsOfThree(t, a, b, c, v);
      }
    }

    /** Creates the half-edge between a and b owned by triangle t and does
        the dictionary step for it: with `pairByKey` as in load and in the
        later triangles of a pass, without as in its seed triangle. */
    method AddEdge(a: nat, b: nat, t: nat, pairByKey: bool) returns (h: nat)
      requires Valid() && a < |vertices| && b < |vertices| && t < |tris|
      modifies this`edges, this`edgeMap
      ensures Valid()
      ensures h == old(|edges|) && |edges| == h + 1
      ensures pairByKey ==>
        (edges, edgeMap) == InsertEdge(vertices, old(edges), old(edgeMap), NewEdge(vertices, a, b).(tri := Some(t)))
      ensures !pairByKey ==>
        (edges, edgeMap) == RegisterEdge(vertices, old(edges), old(edgeMap), NewEdge(vertices, a, b).(tri := Some(t)))
    {
      h := |edges|;
      var x := NewEdge(vertices, a, b).(tri := Some(t));
      var k := EdgeKey(vertices, x);
      if k !in edgeMap {
        edges := edges + [x];
        edgeMap := edgeMap[k := h];
      } else if pairByKey {
        var s := edgeMap[k];
        edges := edges[s := edges[s].(pair := Some(h))] + [x.(pair := Some(s))];
      } else {
        edges := edges + [x];
      }
      assert forall e :: 0 <= e < h ==> edges[e] == old(edges[e]).(pair := edges[e].pair);
    }

    /** triangle.edge[i] = h. */
    method SetTriEdge(t: nat, i: nat, h: nat)
      requires Valid() && t < |tris| && i < 3 && h < |edges|
      modifies this`tris
      ensures Valid()
      ensures tris == old(tris[t := tris[t].(edge := tris[t].edge[i := Some(h)])])
    {
      tris := tris[t := tris[t].(edge := tris[t].edge[i := Some(h)])];
    }

    /** One turn of the loop of assignSpins (tri_mesh.py:122-123):
        recAssignSpin from edge i of triangle 0, which keeps triangle 0's
        links and what the turns before it did. */
    method SpinCorner(i: nat, ghost ts1: seq<Triangle>, ghost es1: seq<HalfEdge>, ghost inv0: bool) returns (r: Outcome)
      requires Valid() && Layout() && i < 3 && |tris| > 0 && |es1| == 3 * |ts1|
      requires |ts1| > 0 && ts1[0].visited && ForwardSpin(es1, 0) && SpinStep(ts1, es1, tris, edges)
      requires inv0 && PairsShareEnds(vertices, es1) ==> SpinsHold(tris, edges)
      modifies this`tris, this`edges
      ensures SpinOutcome(r)
      ensures Valid() && Layout()
      ensures SpinStep(ts1, es1, tris, edges) && tris[0].visited && ForwardSpin(edges, 0)
      ensures r.Done? && inv0 && PairsShareEnds(vertices, es1) ==> SpinsHold(tris, edges)
    {
      ghost var ts2, es2 := tris, edges;
      r := RecAssignSpin(tris[0].edge[i]);
      SpinStepTrans(ts1, es1, ts2, es2, tris, edges);
      ValidEnds();
      PairsShareEndsNextOnly(vertices, es1, es2);
      PairsShareEndsNextOnly(vertices, es1, edges);
      assert SameSpin(es1, edges, 0);
    }

    // ---- mesh.load ----

    /** One triangle face of load (tri_mesh.py:77-100): the triangle with
        corners c and index i, then its three edges, each paired through the
        dictionary and stored as edge[j]. */
    method AddFace(c: seq<nat>, i: nat) returns (t: nat)
      requires Valid() && Layout() && |c| == 3 && AllBelow(c, |vertices|)
      modifies this`tris, this`adjTris, this`edges, this`edgeMap
      ensures Valid() && Layout()
      ensures t == old(|tris|)
      ensures tris == old(tris) + [Triangle(i, c, false, [Some(3 * t), Some(3 * t + 1), Some(3 * t + 2)])]
      ensures |adjTris| == old(|adjTris|)
      ensures forall v :: 0 <= v < |adjTris| ==> adjTris[v] == old(adjTris[v]) + Hits(t, c, v)
      ensures (edges, edgeMap) == InsertFaceEdges(vertices, old(edges), old(edgeMap), c, t, 3)
    {
      t := AddTriangle(c[0], c[1], c[2], i);
      assert [c[0], c[1], c[2]] == c;
      ghost var es0 := edges;
      StoreFaceEdges(c, t);
      InsertFaceEdgesShape(vertices, old(edges), old(edgeMap), c, t, 3);
      assert edges[3 * t + 0].tri == Some(t) && edges[3 * t + 1].tri == Some(t) && edges[3 * t + 2].tri == Some(t);
      FaceLayout(es0, edges, t);
    }

    /** The loop of tri_mesh.py:84-95 over the three edges of face t. */
    method StoreFaceEdges(c: seq<nat>, t: nat)
      requires Valid() && |c| == 3 && AllBelow(c, |vertices|) && |edges| == 3 * t
      requires |tris| == t + 1 && tris[t].edge == [None, None, None]
      modifies this`tris, this`edges, this`edgeMap
      ensures Valid()
      ensures tris == old(tris[t := tris[t].(edge := FaceSlots(t, 3))])
      ensures (edges, edgeMap) == InsertFaceEdges(vertices, old(edges), old(edgeMap), c, t, 3)
    {
      var j := 0;
      while j < 3
        invariant 0 <= j <= 3 && Valid()
        invariant |edges| == 3 * t + j
        invariant tris == old(tris[t := tris[t].(edge := FaceSlots(t, j))])
        invariant (edges, edgeMap) == InsertFaceEdges(vertices, old(edges), old(edgeMap), c, t, j)
      {
        var h := AddEdge(c[j], c[(j + 1) % 3], t, true);
        assert FaceSlots(t, j)[j := Some(h)] == FaceSlots(t, j + 1);
        SetTriEdge(t, j, h);
        j := j + 1;
      }
    }

    // ---- spins ----

    /** The search loops of recAssignSpin (tri_mesh.py:153-157, 161-166). */
    method FindEdgeWithout(t: nat, v: nat) returns (r: Option<nat>)
      requires Valid() && Layout() && t < |tris| && v < |vertices|
      ensures r == FirstEdgeWithout(vertices, edges, t, v)
    {
      ValidEnds();
      var i := 0;
      while i < 3
        invariant 0 <= i <= 3
        invariant forall e :: 3 * t <= e < 3 * t + i ==> ContainsVertex(vertices, edges[e], v)
      {
        var e := tris[t].edge[i].value;
        if !ContainsVertex(vertices, edges[e], v) {
          return Some(e);
        }
        i := i + 1;
      }
      return None;
    }

    /** tri_mesh.py:139-166: marks triangle t (the triangle of p, the pair
        of s) visited and links its edges (LinkSecond, LinkThird). Only t's
        three edges change. */
    method LinkTriangle(s: nat, p: nat, t: nat) returns (r: Outcome, q: nat, third: Option<nat>)
      requires Valid() && Layout() && s < |edges| && edges[s].pair == Some(p)
      requires t == p / 3 && t < |tris| && !tris[t].visited
      modifies this`tris, this`edges
      ensures SpinOutcome(r)
      ensures Valid() && Layout()
      ensures tris == old(tris[t := tris[t].(visited := true)])
      ensures SameButNext(old(edges), edges)
      ensures forall e :: 0 <= e < |edges| && !(3 * t <= e < 3 * t + 3) ==> edges[e] == old(edges[e])
      ensures r.Done? ==> 3 * t <= q < 3 * t + 3 && SpinTarget(vertices, old(edges), s, |tris|) == Some(q)
      ensures r.Done? && PairsShareEnds(vertices, edges) ==> edges[p].next == Some(q)
      ensures r.Done? && third.Some? ==> 3 * t <= third.value < 3 * t + 3
      ensures r.Done? && third.Some? && PairsShareEnds(vertices, edges) ==> Spun(edges, t)
    {
      ghost var es0 := edges;
      r, q := LinkSecond(s, p, t);
      third := None;
      if r.Failed? {
        return;
      }
      ghost var es1 := edges;
      ValidEnds();
      PairsShareEndsNextOnly(vertices, es0, es1);
      r, third := LinkThird(p, q, t);
      ValidEnds();
      PairsShareEndsNextOnly(vertices, es1, edges);
    }

    /** tri_mesh.py:139-157: marks t visited and links p, the pair of s, to
        the first edge q of t without the vertex s shares with its own next
        edge. */
    method LinkSecond(s: nat, p: nat, t: nat) returns (r: Outcome, q: nat)
      requires Valid() && Layout() && s < |edges| && edges[s].pair == Some(p)
      requires t == p / 3 && t < |tris| && !tris[t].visited
      modifies this`tris, this`edges
      ensures SpinOutcome(r)
      ensures Valid() && Layout()
      ensures tris == old(tris[t := tris[t].(visited := true)])
      ensures r.Failed? ==> edges == old(edges)
      ensures r.Done? ==> 3 * t <= q < 3 * t + 3 && SpinTarget(vertices, old(edges), s, |tris|) == Some(q) &&
                          edges == old(edges[p := edges[p].(next := Some(q))])
      ensures r.Done? && PairsShareEnds(vertices, old(edges)) ==> q != p
    {
      ghost var ts0, es0 := tris, edges;
      q := 0;
      tris := tris[t := tris[t].(visited := true)];
      SpinStepKeepsShape(ts0, es0, tris, edges, |vertices|);
      if edges[s].next.None? {
        return Failed(MissingNext), q;
      }
      ValidEnds();
      var sv := SharedVertex(vertices, edges[s], edges[edges[s].next.value]);
      if sv.None? {
        return Failed(NoSharedVertex), q;
      }
      var second := FindEdgeWithout(t, sv.value);
      if second.None? {
        return Failed(NoSuccessorEdge), q;
      }
      q := second.value;
      edges := edges[p := edges[p].(next := Some(q))];
      SpinStepKeepsShape(ts0, es0, tris, edges, |vertices|);
      r := Done;
    }

    /** tri_mesh.py:161-166: links q to the first edge of t without the
        vertex p and q share, and that edge back to p. */
    method LinkThird(p: nat, q: nat, t: nat) returns (r: Outcome, third: Option<nat>)
      requires Valid() && Layout() && t < |tris| && 3 * t <= p < 3 * t + 3 && 3 * t <= q < 3 * t + 3
      requires edges[p].next == Some(q)
      modifies this`edges
      ensures SpinOutcome(r)
      ensures Valid() && Layout()
      ensures SameButNext(old(edges), edges)
      ensures forall e :: 0 <= e < |edges| && !(3 * t <= e < 3 * t + 3) ==> edges[e] == old(edges[e])
      ensures r.Done? && third.Some? ==> 3 * t <= third.value < 3 * t + 3
      ensures r.Done? && third.Some? && p != q ==> Spun(edges, t)
      ensures r.Done? && p != q ==> edges[p].next == Some(q)
    {
      ghost var es0 := edges;
      third := None;
      ValidEnds();
      var sv2 := SharedVertex(vertices, edges[p], edges[q]);
      if sv2.None? {
        return Failed(NoSharedVertex), third;
      }
      third := FindEdgeWithout(t, sv2.value);
      if third.Some? {
        assert ContainsVertex(vertices, edges[p], sv2.value) && ContainsVertex(vertices, edges[q], sv2.value);
        CloseCycle(p, q, third.value, t);
      }
      r := Done;
    }

    /** q.next = w and w.next = p (tri_mesh.py:165-166), which spins t when
        p, q and w are its three edges. */
    method CloseCycle(p: nat, q: nat, w: nat, t: nat)
      requires Valid() && Layout() && t < |tris| && 3 * t <= p < 3 * t + 3 && 3 * t <= q < 3 * t + 3
      requires 3 * t <= w < 3 * t + 3 && edges[p].next == Some(q)
      requires p != q ==> w != p && w != q
      modifies this`edges
      ensures Valid() && Layout()
      ensures edges == old(edges[q := edges[q].(next := Some(w))][w := edges[w].(next := Some(p))])
      ensures SameButNext(old(edges), edges)
      ensures p != q ==> Spun(edges, t)
    {
      ghost var es0 := edges;
      edges := edges[q := edges[q].(next := Some(w))];
      edges := edges[w := edges[w].(next := Some(p))];
      SpinStepKeepsShape(tris, es0, tris, edges, |vertices|);
      if p != q {
        ThreeCycleIsSpin(edges, t, p, q, w);
      }
    }

    /** tri_mesh.py:125-184. Spins the triangle across `start` from the spin
        of start's own triangle, then recurses into its unvisited
        neighbours (SpreadSpin). A triangle is spun only while it is
        unvisited, and is marked visited first, so it is never spun twice. */
    method RecAssignSpin(start: Option<nat>) returns (r: Outcome)
      requires Valid() && Layout() && (start.Some? ==> start.value < |edges|)
      modifies this`tris, this`edges
      ensures SpinOutcome(r)
      ensures Valid() && Layout() && SpinStep(old(tris), old(edges), tris, edges)
      ensures r.Done? && old(SpinInv()) && PairsShareEnds(vertices, edges) ==> SpinInv()
      ensures start.None? ==> r == Done && tris == old(tris) && edges == old(edges)
      ensures start.Some? && old(edges[start.value].pair).None? ==>
                r == Done && tris == old(tris) && edges == old(edges)
      ensures start.Some? && old(edges[start.value].pair).Some? &&
              old(tris[edges[start.value].pair.value / 3].visited) ==>
                r == Done && tris == old(tris) && edges == old(edges)
      ensures start.Some? && old(edges[start.value].pair).Some? &&
              !old(tris[edges[start.value].pair.value / 3].visited) ==>
                tris[edges[start.value].pair.value / 3].visited &&
                (r.Done? ==> SpinTarget(vertices, old(edges), start.value, |tris|).Some?) &&
                (r.Done? && PairsShareEnds(vertices, edges) ==>
                   edges[edges[start.value].pair.value].next == SpinTarget(vertices, old(edges), start.value, |tris|))
      decreases |UnvisitedSet(tris)|, 1
    {
      if start.None? {
        SpinStepRefl(tris, edges);
        return Done;
      }
      var s := start.value;
      if edges[s].pair.None? {
        SpinStepRefl(tris, edges);
        return Done;
      }
      var p := edges[s].pair.value;
      var t := edges[p].tri.value;
      if tris[t].visited {
        SpinStepRefl(tris, edges);
        return Done;
      }
      r := SpinAcross(s, p, t);
    }

    /** The body of recAssignSpin for an unvisited triangle t across edge s
        (whose pair p lies in t): link t, then spread into its neighbours. */
    method SpinAcross(s: nat, p: nat, t: nat) returns (r: Outcome)
      requires Valid() && Layout() && s < |edges| && edges[s].pair == Some(p)
      requires t == p / 3 && t < |tris| && !tris[t].visited
      modifies this`tris, this`edges
      ensures SpinOutcome(r)
      ensures Valid() && Layout() && SpinStep(old(tris), old(edges), tris, edges)
      ensures r.Done? && old(SpinInv()) && PairsShareEnds(vertices, edges) ==> SpinInv()
      ensures tris[t].visited
      ensures r.Done? ==> SpinTarget(vertices, old(edges), s, |tris|).Some?
      ensures r.Done? && PairsShareEnds(vertices, edges) ==> edges[p].next == SpinTarget(vertices, old(edges), s, |tris|)
      decreases |UnvisitedSet(tris)|, 0
    {
      ghost var ts0, es0 := tris, edges;
      var q, third;
      r, q, third := LinkAcross(s, p, t);
      if r.Failed? {
        return;
      }
      ghost var ts1, es1 := tris, edges;
      r := SpreadSpin(q, third);
      SpinStepTrans(ts0, es0, ts1, es1, tris, edges);
      ValidEnds();
      PairsShareEndsNextOnly(vertices, es1, edges);
      assert SameSpin(es1, edges, t);
    }

    /** linkTriangle within recAssignSpin: t is marked visited, its links
        are set, and no visited triangle's links change. */
    method LinkAcross(s: nat, p: nat, t: nat) returns (r: Outcome, q: nat, third: Option<nat>)
      requires Valid() && Layout() && s < |edges| && edges[s].pair == Some(p)
      requires t == p / 3 && t < |tris| && !tris[t].visited
      modifies this`tris, this`edges
      ensures SpinOutcome(r)
      ensures Valid() && Layout() && SpinStep(old(tris), old(edges), tris, edges)
      ensures tris == old(tris[t := tris[t].(visited := true)])
      ensures |UnvisitedSet(tris)| < old(|UnvisitedSet(tris)|)
      ensures r.Done? ==> q < |edges| && SpinTarget(vertices, old(edges), s, |tris|) == Some(q)
      ensures r.Done? && PairsShareEnds(vertices, edges) ==> edges[p].next == Some(q)
      ensures r.Done? && third.Some? ==> third.value < |edges|
      ensures r.Done? && third.Some? && old(SpinInv()) && PairsShareEnds(vertices, edges) ==> SpinInv()
    {
      ghost var ts0, es0 := tris, edges;
      r, q, third := LinkTriangle(s, p, t);
      MarkOneVisited(ts0, t, tris[t]);
      ValidEnds();
      PairsShareEndsNextOnly(vertices, es0, edges);
      assert SpinStep(ts0, es0, tris, edges) by {
        forall u | 0 <= u < |ts0| && ts0[u].visited ensures SameSpin(es0, edges, u) {
          assert u != t;
        }
      }
      if r.Done? && third.Some? && old(SpinInv()) && PairsShareEnds(vertices, edges) {
        SpinsAfterLink(ts0, es0, tris, edges, t);
      }
    }

    /** tri_mesh.py:175-181: after a triangle is linked, the recursion into
        the unvisited neighbour across its second edge q and then across
        its third edge; with no third edge the program raises there. */
    method SpreadSpin(q: nat, third: Option<nat>) returns (r: Outcome)
      requires Valid() && Layout() && q < |edges| && (third.Some? ==> third.value < |edges|)
      modifies this`tris, this`edges
      ensures SpinOutcome(r)
      ensures Valid() && Layout() && SpinStep(old(tris), old(edges), tris, edges)
      ensures r.Done? && old(SpinInv()) && PairsShareEnds(vertices, edges) ==> SpinInv()
      ensures third.None? ==> r.Failed?
      decreases |UnvisitedSet(tris)|, 3
    {
      ghost var ts0, es0 := tris, edges;
      r := SpinNeighbour(q);
      if r.Failed? {
        return;
      }
      ghost var ts1, es1 := tris, edges;
      UnvisitedShrinks(ts0, ts1);
      if third.None? {
        return Failed(NoSuccessorEdge);
      }
      r := SpinNeighbour(third.value);
      SpinStepTrans(ts0, es0, ts1, es1, tris, edges);
      ValidEnds();
      PairsShareEndsNextOnly(vertices, es1, edges);
    }

    /** tri_mesh.py:175-181, for one edge w: recAssignSpin across w when
        w has a pair whose triangle is unvisited. */
    method SpinNeighbour(w: nat) returns (r: Outcome)
      requires Valid() && Layout() && w < |edges|
      modifies this`tris, this`edges
      ensures SpinOutcome(r)
      ensures Valid() && Layout() && SpinStep(old(tris), old(edges), tris, edges)
      ensures r.Done? && old(SpinInv()) && PairsShareEnds(vertices, edges) ==> SpinInv()
      ensures old(edges[w].pair).None? ==> r == Done && tris == old(tris) && edges == old(edges)
      decreases |UnvisitedSet(tris)|, 2
    {
      r := Done;
      if edges[w].pair.Some? && !tris[edges[edges[w].pair.value].tri.value].visited {
        r := RecAssignSpin(Some(w));
      } else {
        SpinStepRefl(tris, edges);
      }
    }

    /** tri_mesh.py:117-120: links triangle 0's edges in storage order and
        marks it visited. */
    method SeedSpin()
      requires Valid() && Layout() && |tris| > 0
      modifies this`tris, this`edges
      ensures Valid() && Layout()
      ensures tris == old(tris[0 := tris[0].(visited := true)])
      ensures SameButNext(old(edges), edges) && ForwardSpin(edges, 0)
      ensures forall e :: 3 <= e < |edges| ==> edges[e] == old(edges[e])
    {
      ghost var ts0, es0 := tris, edges;
      for i := 0 to 3
        invariant tris == ts0 && |edges| == |es0| && SameButNext(es0, edges)
        invariant forall e :: 0 <= e < i ==> edges[e].next == Some((e + 1) % 3)
        invariant forall e :: i <= e < |edges| ==> edges[e] == es0[e]
      {
        var e := tris[0].edge[i].value;
        var f := tris[0].edge[(i + 1) % 3].value;
        edges := edges[e := edges[e].(next := Some(f))];
      }
      tris := tris[0 := tris[0].(visited := true)];
      SpinStepKeepsShape(ts0, es0, tris, edges, |vertices|);
    }

    /** tri_mesh.py:112-123. Spins triangle 0 in storage order, marks it
        visited, and spreads the spin from each of its edges. */
    method AssignSpins() returns (r: Outcome)
      requires Valid() && Layout()
      modifies this`tris, this`edges
      ensures old(|tris|) > 0 ==> SpinOutcome(r)
      ensures Valid() && Layout()
      ensures SameButVisited(old(tris), tris) && SameButNext(old(edges), edges)
      ensures old(|tris|) == 0 ==> r == Failed(NoTriangles)
      ensures r.Done? ==> |tris| > 0 && tris[0].visited && ForwardSpin(edges, 0)
      ensures r.Done? && old(SpinInv()) && PairsShareEnds(vertices, edges) ==> SpinInv()
    {
      if |tris| == 0 {
        return Failed(NoTriangles);
      }
      ghost var ts0, es0 := tris, edges;
      SeedSpin();
      ghost var ts1, es1 := tris, edges;
      ValidEnds();
      PairsShareEndsNextOnly(vertices, es0, es1);
      if old(SpinInv()) {
        SpinsAfterSeed(ts0, es0, ts1, es1);
      }
      SpinStepRefl(ts1, es1);
      ghost var inv0 := old(SpinInv());
      for i := 0 to 3
        invariant Valid() && Layout()
        invariant SpinStep(ts1, es1, tris, edges)
        invariant tris[0].visited && ForwardSpin(edges, 0)
        invariant inv0 && PairsShareEnds(vertices, es1) ==> SpinsHold(tris, edges)
      {
        r := SpinCorner(i, ts1, es1, inv0);
        if r.Failed? {
          SpinStepChain(ts0, es0, ts1, es1, tris, edges);
          return;
        }
      }
      r := Done;
      SpinStepChain(ts0, es0, ts1, es1, tris, edges);
      ValidEnds();
      PairsShareEndsNextOnly(vertices, es1, edges);
    }

    // ---- mesh.load ----

    /** A `v` line (tri_mesh.py:56-66): a vertex with the next index,
        appended to `verts`. */
    method LoadVertex(p: Point, ghost sc: Scene)
      requires Valid() && Layout() && NothingSpun() && Shaped(sc) && vindex == |vertices|
      modifies this`vertices, this`adjTris, this`verts, this`vindex
      ensures Valid() && Layout() && NothingSpun() && vindex == |vertices|
      ensures Shaped(sc.(positions := sc.positions + [p]))
    {
      ghost var vs0, adj0, vh0 := vertices, adjTris, verts;
      var h := AppendVertex(NewVertex(p.x, p.y, p.z, vindex));
      vindex := vindex + 1;
      LoadedVertex(sc, p, vs0, adj0, vh0, tris, edges, edgeMap);
      WiredMoreVertices(tris, edges, |vs0|, |vertices|);
    }

    /** An `f` line with three corners (tri_mesh.py:67-100). */
    method LoadFace(c: seq<nat>, ghost sc: Scene)
      requires Valid() && Layout() && NothingSpun() && Shaped(sc) && tindex == |tris|
      requires |c| == 3 && AllBelow(c, |vertices|)
      modifies this`tris, this`adjTris, this`edges, this`edgeMap, this`tindex
      ensures Valid() && Layout() && NothingSpun() && tindex == |tris|
      ensures Shaped(sc.(corners := sc.corners + [c]))
    {
      ghost var adj0, ts0, es0, em0 := adjTris, tris, edges, edgeMap;
      var t := AddFace(c, tindex);
      tindex := tindex + 1;
      AddFaceLoaded(sc, c, vertices, adj0, verts, ts0, es0, em0, adjTris, tris, edges, edgeMap);
    }

    /** One line of the file (tri_mesh.py:52-100), with sc what the lines
        before it gave. */
    method LoadLine(line: ObjLine, ghost sc: Scene) returns (r: Outcome)
      requires Valid() && Layout() && NothingSpun() && Shaped(sc) && vindex == |vertices| && tindex == |tris|
      modifies this`vertices, this`adjTris, this`verts, this`vindex
      modifies this`tris, this`edges, this`edgeMap, this`tindex
      ensures IngestLine(sc, line).Err? ==> r == Failed(IngestLine(sc, line).fault)
      ensures IngestLine(sc, line).Ok? ==>
                r == Done && Valid() && Layout() && NothingSpun() && Shaped(IngestLine(sc, line).value) &&
                vindex == |vertices| && tindex == |tris|
    {
      ShapedHandles(sc);
      r := Done;
      match line {
        case VertexLine(p) =>
          assert IngestLine(sc, line) == Ok(sc.(positions := sc.positions + [p]));
          LoadVertex(p, sc);
        case OtherLine =>
        case FaceLine(refs) =>
          if |refs| < 3 {
            return Failed(ShortFace);
          }
          if |refs| < 4 {
            var a, b, c := PyIndex(|verts|, refs[0] - 1), PyIndex(|verts|, refs[1] - 1), PyIndex(|verts|, refs[2] - 1);
            if a.None? || b.None? || c.None? {
              return Failed(BadVertexIndex);
            }
            var cs := [verts[a.value], verts[b.value], verts[c.value]];
            assert cs == [a.value, b.value, c.value];
            assert IngestLine(sc, line) == Ok(sc.(corners := sc.corners + [cs]));
            LoadFace(cs, sc);
          }
      }
    }

    lemma ShapedHandles(sc: Scene)
      requires Shaped(sc)
      ensures |verts| == |vertices| == |sc.positions| && forall h :: 0 <= h < |verts| ==> verts[h] == h
    {
    }

    /** mesh.load (tri_mesh.py:41-110) on a new mesh, for the lines of the
        file: builds the vertices, the triangles and their paired
        half-edges, then assigns the spins. A line load raises on ends it
        with that fault; so does a file without triangles. */
    method Load(lines: seq<ObjLine>) returns (r: Outcome)
      requires IsEmpty()
      modifies this`vertices, this`adjTris, this`verts, this`vindex
      modifies this`tris, this`edges, this`edgeMap, this`tindex
      ensures Ingest(lines).Ok? && Ingest(lines).value.corners != [] ==> SpinOutcome(r)
      ensures Ingest(lines).Err? ==> r == Failed(Ingest(lines).fault)
      ensures Ingest(lines).Ok? && Ingest(lines).value.corners == [] ==> r == Failed(NoTriangles)
      ensures r.Done? ==> Ingest(lines).Ok? && Loaded(Ingest(lines).value)
    {
      assert lines[..0] == [];
      assert Shaped(Scene([], []));
      var i := 0;
      while i < |lines|
        invariant 0 <= i <= |lines| && Ingest(lines[..i]).Ok?
        invariant Valid() && Layout() && NothingSpun() && Shaped(Ingest(lines[..i]).value)
        invariant vindex == |vertices| && tindex == |tris|
      {
        ghost var sc := Ingest(lines[..i]).value;
        assert lines[..i + 1][..i] == lines[..i];
        assert Ingest(lines[..i + 1]) == IngestLine(sc, lines[i]);
        r := LoadLine(lines[i], sc);
        if r.Failed? {
          IngestErrSticks(lines, i + 1);
          return;
        }
        i := i + 1;
      }
      assert lines[..|lines|] == lines;
      ghost var sc := Ingest(lines).value;
      ShapedCounts(sc);
      ghost var nv, nt := |vertices|, |tris|;
      assert vindex == nv && tindex == nt;
      r := SpinLoaded(sc);
      assert vindex == nv && tindex == nt && |vertices| == nv && |tris| == nt;
      if r.Done? {
        LoadedNow(sc);
      }
    }

    /** What a successful load leaves: the mesh built from what it read,
        every handle valid, three edges per triangle in order, the spin
        invariant, triangle 0 spun in storage order, and both counters
        equal to the number of entities built. */
    ghost predicate Loaded(sc: Scene)
      reads this
    {
      Shaped(sc) && Valid() && Layout() && SpinInv() && |tris| > 0 && tris[0].visited &&
      ForwardSpin(edges, 0) && vindex == |vertices| && tindex == |tris|
    }

    lemma LoadedNow(sc: Scene)
      requires Shaped(sc) && Valid() && Layout() && SpinInv() && |tris| > 0 && tris[0].visited
      requires ForwardSpin(edges, 0) && vindex == |vertices| && tindex == |tris|
      ensures Loaded(sc)
    {
    }

    /** The spin pass at the end of load (tri_mesh.py:110). */
    method SpinLoaded(ghost sc: Scene) returns (r: Outcome)
      requires Valid() && Layout() && NothingSpun() && Shaped(sc)
      modifies this`tris, this`edges
      ensures old(|tris|) > 0 ==> SpinOutcome(r)
      ensures Valid() && Layout() && Shaped(sc) && |tris| == old(|tris|)
      ensures old(|tris|) == 0 ==> r == Failed(NoTriangles)
      ensures r.Done? ==> SpinInv() && |tris| > 0 && tris[0].visited && ForwardSpin(edges, 0)
    {
      ghost var ts0, es0 := tris, edges;
      ValidEnds();
      LoadedPairsShareEnds(sc, vertices, adjTris, verts, tris, edges, edgeMap);
      NoSpinsHold(tris, edges);
      r := AssignSpins();
      ValidEnds();
      PairsShareEndsNextOnly(vertices, es0, edges);
      LoadedAfterSpins(sc, vertices, adjTris, verts, ts0, es0, edgeMap, tris, edges);
    }

    lemma ShapedCounts(sc: Scene)
      requires Shaped(sc)
      ensures |tris| == |sc.corners| && |vertices| == |sc.positions|
    {
    }

    // ---- mesh.compile ----

    /** mesh.compile (tri_mesh.py:243-285): for every triangle in storage
        order and each of its three corners, the corner's position, normal
        and colour, three numbers each. The normal setNormal gives vertex
        h is normalOf(h). */
    method Compile(normalOf: nat -> Point) returns (vbuf: seq<real>, nbuf: seq<real>, cbuf: seq<real>)
      requires FacesIn(tris, |vertices|)
      ensures vbuf == Positions(vertices, tris, |tris|)
      ensures nbuf == Normals(normalOf, tris, |vertices|, |tris|)
      ensures cbuf == Colors(vertices, tris, |tris|)
    {
      var vs, ts := vertices, tris;
      vbuf, nbuf, cbuf := [], [], [];
      for t := 0 to |ts|
        invariant vbuf == Positions(vs, ts, t)
        invariant nbuf == Normals(normalOf, ts, |vs|, t)
        invariant cbuf == Colors(vs, ts, t)
      {
        var tri := ts[t];
        assert FaceIn(tri, |vs|);
        ghost var v0, n0, c0 := vbuf, nbuf, cbuf;
        for i := 0 to 3
          invariant vbuf == v0 + FacePositions(vs, tri, i)
          invariant nbuf == n0 + FaceNormals(normalOf, tri, i)
          invariant cbuf == c0 + FaceColors(vs, tri, i)
        {
          var h := tri.verts[i];
          Assoc(v0, FacePositions(vs, tri, i), Xyz(vs[h].loc));
          Assoc(c0, FaceColors(vs, tri, i), Rgb(vs[h].color));
          Assoc(n0, FaceNormals(normalOf, tri, i), Xyz(normalOf(h)));
          vbuf := vbuf + Xyz(vs[h].loc);
          cbuf := cbuf + Rgb(vs[h].color);
          nbuf := nbuf + Xyz(normalOf(h));
        }
      }
    }
  }

  /** The edge slots of face t after j of its edges are stored. */
  function FaceSlots(t: nat, j: nat): seq<Option<nat>> {
    [if 0 < j then Some(3 * t) else None,
     if 1 < j then Some(3 * t + 1) else None,
     if 2 < j then Some(3 * t + 2) else None]
  }

  lemma HitsOfThree(t: nat, a: nat, b: nat, c: nat, v: nat)
    ensures Hits(t, [a, b, c], v) ==
            (if a == v then [t] else []) + (if b == v then [t] else []) + (if c == v then [t] else [])
  {
    assert [a, b, c][1..] == [b, c] && [b, c][1..] == [c] && [c][1..] == [];
    assert Hits(t, [c], v) == (if c == v then [t] else []);
    assert Hits(t, [b, c], v) == (if b == v then [t] else []) + Hits(t, [c], v);
  }

  /** Three edges owned by face t appended to the edges of faces 0..t-1
      keep every edge's owner at its position divided by three. */
  lemma FaceLayout(es: seq<HalfEdge>, fs: seq<HalfEdge>, t: nat)
    requires |es| == 3 * t && |fs| == |es| + 3
    requires forall e :: 0 <= e < |es| ==> es[e].tri == Some(e / 3) && fs[e].tri == es[e].tri
    requires fs[3 * t].tri == Some(t) && fs[3 * t + 1].tri == Some(t) && fs[3 * t + 2].tri == Some(t)
    ensures forall e :: 0 <= e < |fs| ==> fs[e].tri == Some(e / 3)
  {
    forall e | 0 <= e < |fs| ensures fs[e].tri == Some(e / 3) {
      if e >= |es| {
        assert e == 3 * t || e == 3 * t + 1 || e == 3 * t + 2;
      }
    }
  }

  // ---------------------------------------------------------------
  // What load builds
  // ---------------------------------------------------------------

  /** Every face read has three corners, each naming a vertex read. */
  ghost predicate CornersIn(sc: Scene) {
    forall t :: 0 <= t < |sc.corners| ==> |sc.corners[t]| == 3 && AllBelow(sc.corners[t], |sc.positions|)
  }

  /** The mesh load builds from sc: one vertex object per `v` line, with
      its line number as index and the triangles at its corners as adj_tris;
      one triangle per face, with its number as index; three half-edges per
      triangle, spanning its corners in turn; and the pairing of the edge
      dictionary. */
  ghost predicate LoadedFrom(sc: Scene, vs: seq<Vertex>, adj: seq<seq<nat>>, vh: seq<nat>,
                             ts: seq<Triangle>, es: seq<HalfEdge>, em: map<(nat, nat), nat>)
  {
    CornersIn(sc) && VerticesFrom(sc, vs, adj, vh) && TrianglesFrom(sc, ts) &&
    |es| == 3 * |ts| && EdgesFrom(sc, vs, es) && PairingOk(vs, es, em)
  }

  ghost predicate VerticesFrom(sc: Scene, vs: seq<Vertex>, adj: seq<seq<nat>>, vh: seq<nat>) {
    |vs| == |sc.positions| && |adj| == |vs| && vh == Handles(|vs|) &&
    (forall h :: 0 <= h < |vs| ==>
       vs[h] == NewVertex(sc.positions[h].x, sc.positions[h].y, sc.positions[h].z, h)) &&
    (forall h :: 0 <= h < |adj| ==> adj[h] == Incidences(sc.corners, h))
  }

  ghost predicate TrianglesFrom(sc: Scene, ts: seq<Triangle>) {
    |ts| == |sc.corners| &&
    forall t :: 0 <= t < |ts| ==> ts[t].index == t && ts[t].verts == sc.corners[t]
  }

  ghost predicate EdgesFrom(sc: Scene, vs: seq<Vertex>, es: seq<HalfEdge>)
    requires CornersIn(sc) && |vs| == |sc.positions|
  {
    |es| == 3 * |sc.corners| && AllEndsIn(vs, es) &&
    forall e :: 0 <= e < |es| ==>
      es[e].v0 == FaceEdge(vs, sc.corners[e / 3], e % 3).v0 &&
      es[e].v1 == FaceEdge(vs, sc.corners[e / 3], e % 3).v1 &&
      es[e].sub0 == None && es[e].sub1 == None
  }

  ghost predicate NoSpins(ts: seq<Triangle>, es: seq<HalfEdge>)
    requires |es| == 3 * |ts|
  {
    forall t :: 0 <= t < |ts| ==> !ts[t].visited && Unspun(es, t)
  }

  lemma NoSpinsHold(ts: seq<Triangle>, es: seq<HalfEdge>)
    requires |es| == 3 * |ts| && NoSpins(ts, es)
    ensures SpinsHold(ts, es)
  {
  }

  /** A new triangle comes unvisited with unlinked edges. */
  lemma NoSpinsAddFace(ts: seq<Triangle>, es: seq<HalfEdge>, ts': seq<Triangle>, es': seq<HalfEdge>)
    requires |es| == 3 * |ts| && NoSpins(ts, es) && |ts'| == |ts| + 1 && |es'| == |es| + 3
    requires forall t :: 0 <= t < |ts| ==> ts'[t] == ts[t]
    requires !ts'[|ts|].visited
    requires forall e :: 0 <= e < |es| ==> es'[e].next == es[e].next
    requires es'[|es|].next == None && es'[|es| + 1].next == None && es'[|es| + 2].next == None
    ensures NoSpins(ts', es')
  {
    forall t | 0 <= t < |ts'| ensures !ts'[t].visited && Unspun(es', t) {
      if t < |ts| {
        assert Unspun(es, t);
      }
    }
  }

  /** Once a line raises, load never gets past it. */
  lemma {:induction false} IngestErrSticks(lines: seq<ObjLine>, i: nat)
    requires i <= |lines| && Ingest(lines[..i]).Err?
    ensures Ingest(lines).Err? && Ingest(lines).fault == Ingest(lines[..i]).fault
    decreases |lines| - i
  {
    if i == |lines| {
      assert lines[..i] == lines;
    } else {
      assert lines[..i + 1][..i] == lines[..i];
      IngestErrSticks(lines, i + 1);
    }
  }

  /** A vertex no corner names so far is at no triangle. */
  lemma {:induction false} IncidencesBeyond(corners: seq<seq<nat>>, v: nat)
    requires forall t :: 0 <= t < |corners| ==> AllBelow(corners[t], v)
    ensures Incidences(corners, v) == []
    decreases |corners|
  {
    if corners != [] {
      var n := |corners| - 1;
      IncidencesBeyond(corners[..n], v);
      HitsBeyond(n, corners[n], v);
    }
  }

  lemma {:induction false} HitsBeyond(t: nat, cs: seq<nat>, v: nat)
    requires AllBelow(cs, v)
    ensures Hits(t, cs, v) == []
    decreases |cs|
  {
    if cs != [] {
      HitsBeyond(t, cs[1..], v);
    }
  }

  lemma WiredMoreVertices(ts: seq<Triangle>, es: seq<HalfEdge>, nv: nat, nw: nat)
    requires nv <= nw && TrianglesWired(ts, nv, |es|) && EdgesWired(es, nv, |ts|)
    ensures TrianglesWired(ts, nw, |es|) && EdgesWired(es, nw, |ts|)
  {
    forall t | 0 <= t < |ts| ensures TriangleWired(ts[t], nw, |es|) {
      assert TriangleWired(ts[t], nv, |es|);
    }
    forall e | 0 <= e < |es| ensures EdgeWired(es[e], nw, |ts|, |es|) {
      assert EdgeWired(es[e], nv, |ts|, |es|);
    }
  }

  /** A `v` line extends what load built by one vertex at no triangle. */
  lemma LoadedVertex(sc: Scene, p: Point, vs: seq<Vertex>, adj: seq<seq<nat>>, vh: seq<nat>,
                     ts: seq<Triangle>, es: seq<HalfEdge>, em: map<(nat, nat), nat>)
    requires LoadedFrom(sc, vs, adj, vh, ts, es, em)
    ensures LoadedFrom(sc.(positions := sc.positions + [p]),
                       vs + [NewVertex(p.x, p.y, p.z, |vs|)], adj + [[]], vh + [|vs|], ts, es, em)
  {
    var sc' := sc.(positions := sc.positions + [p]);
    var ws := vs + [NewVertex(p.x, p.y, p.z, |vs|)];
    CornersGrow(sc, p);
    VerticesGrow(sc, p, vs, adj, vh);
    EdgesGrow(sc, p, vs, es);
    forall e | 0 <= e < |es| ensures Key(vs, es, e) == Key(ws, es, e) {
      assert EndsIn(vs, es[e]);
    }
    PairingTransfer(vs, es, ws, es, em);
  }

  lemma CornersGrow(sc: Scene, p: Point)
    requires CornersIn(sc)
    ensures CornersIn(sc.(positions := sc.positions + [p]))
  {
    forall t | 0 <= t < |sc.corners| ensures AllBelow(sc.corners[t], |sc.positions| + 1) {
      assert AllBelow(sc.corners[t], |sc.positions|);
    }
  }

  lemma VerticesGrow(sc: Scene, p: Point, vs: seq<Vertex>, adj: seq<seq<nat>>, vh: seq<nat>)
    requires CornersIn(sc) && VerticesFrom(sc, vs, adj, vh)
    ensures VerticesFrom(sc.(positions := sc.positions + [p]),
                         vs + [NewVertex(p.x, p.y, p.z, |vs|)], adj + [[]], vh + [|vs|])
  {
    var n := |vs|;
    assert Incidences(sc.corners, n) == [] by {
      forall t | 0 <= t < |sc.corners| ensures AllBelow(sc.corners[t], n) {
      }
      IncidencesBeyond(sc.corners, n);
    }
  }

  lemma EdgesGrow(sc: Scene, p: Point, vs: seq<Vertex>, es: seq<HalfEdge>)
    requires CornersIn(sc) && |vs| == |sc.positions| && EdgesFrom(sc, vs, es)
    ensures CornersIn(sc.(positions := sc.positions + [p]))
    ensures EdgesFrom(sc.(positions := sc.positions + [p]), vs + [NewVertex(p.x, p.y, p.z, |vs|)], es)
  {
    var n := |vs|;
    var sc' := sc.(positions := sc.positions + [p]);
    var ws := vs + [NewVertex(p.x, p.y, p.z, n)];
    CornersGrow(sc, p);
    assert AllEndsIn(ws, es) by {
      forall e | 0 <= e < |es| ensures EndsIn(ws, es[e]) {
        assert EndsIn(vs, es[e]);
      }
    }
    forall e | 0 <= e < |es|
      ensures FaceEdge(ws, sc.corners[e / 3], e % 3) == FaceEdge(vs, sc.corners[e / 3], e % 3)
    {
      var c := sc.corners[e / 3];
      assert AllBelow(c, n);
      assert c[e % 3] < n && c[(e % 3 + 1) % 3] < n;
    }
  }

  /** What AddFace does to what load built: one more face read, nothing
      linked or visited. */
  lemma AddFaceLoaded(sc: Scene, c: seq<nat>, vs: seq<Vertex>, adj: seq<seq<nat>>, vh: seq<nat>,
                      ts: seq<Triangle>, es: seq<HalfEdge>, em: map<(nat, nat), nat>,
                      adj': seq<seq<nat>>, ts': seq<Triangle>, es': seq<HalfEdge>, em': map<(nat, nat), nat>)
    requires LoadedFrom(sc, vs, adj, vh, ts, es, em) && NoSpins(ts, es) && |c| == 3 && AllBelow(c, |vs|)
    requires ts' == ts + [Triangle(|ts|, c, false, [Some(3 * |ts|), Some(3 * |ts| + 1), Some(3 * |ts| + 2)])]
    requires |adj'| == |adj| && forall v :: 0 <= v < |adj'| ==> adj'[v] == adj[v] + Hits(|ts|, c, v)
    requires MapBelow(em, |es|) && (es', em') == InsertFaceEdges(vs, es, em, c, |ts|, 3)
    ensures LoadedFrom(sc.(corners := sc.corners + [c]), vs, adj', vh, ts', es', em')
    ensures |es'| == 3 * |ts'| && NoSpins(ts', es')
  {
    InsertFaceEdgesShape(vs, es, em, c, |ts|, 3);
    InsertFaceEdgesPairing(vs, es, em, c, |ts|, 3);
    LoadedFace(sc, c, vs, adj, vh, ts, es, em, adj', ts', es', em');
    NoSpinsAddFace(ts, es, ts', es');
  }

  /** An `f` line extends what load built by one triangle and its three
      edges, given what AddFace computes. */
  lemma LoadedFace(sc: Scene, c: seq<nat>, vs: seq<Vertex>, adj: seq<seq<nat>>, vh: seq<nat>,
                   ts: seq<Triangle>, es: seq<HalfEdge>, em: map<(nat, nat), nat>,
                   adj': seq<seq<nat>>, ts': seq<Triangle>, es': seq<HalfEdge>, em': map<(nat, nat), nat>)
    requires LoadedFrom(sc, vs, adj, vh, ts, es, em) && |c| == 3 && AllBelow(c, |vs|)
    requires ts' == ts + [Triangle(|ts|, c, false, [Some(3 * |ts|), Some(3 * |ts| + 1), Some(3 * |ts| + 2)])]
    requires |adj'| == |adj| && forall v :: 0 <= v < |adj'| ==> adj'[v] == adj[v] + Hits(|ts|, c, v)
    requires |es'| == |es| + 3 && AllEndsIn(vs, es') && PairingOk(vs, es', em')
    requires forall e :: 0 <= e < |es| ==> es'[e] == es[e].(pair := es'[e].pair)
    requires forall j :: 0 <= j < 3 ==> es'[|es| + j] == FaceEdge(vs, c, j).(tri := Some(|ts|), pair := es'[|es| + j].pair)
    ensures LoadedFrom(sc.(corners := sc.corners + [c]), vs, adj', vh, ts', es', em')
  {
    var sc' := sc.(corners := sc.corners + [c]);
    assert CornersIn(sc');
    assert (sc.corners + [c])[..|sc.corners|] == sc.corners;
    assert VerticesFrom(sc', vs, adj', vh);
    EdgesAddFace(sc, c, vs, es, es');
  }

  lemma EdgesAddFace(sc: Scene, c: seq<nat>, vs: seq<Vertex>, es: seq<HalfEdge>, es': seq<HalfEdge>)
    requires CornersIn(sc) && |vs| == |sc.positions| && EdgesFrom(sc, vs, es) && |c| == 3 && AllBelow(c, |vs|)
    requires |es'| == |es| + 3 && AllEndsIn(vs, es')
    requires forall e :: 0 <= e < |es| ==> es'[e] == es[e].(pair := es'[e].pair)
    requires forall j :: 0 <= j < 3 ==> es'[|es| + j] == FaceEdge(vs, c, j).(tri := Some(|sc.corners|), pair := es'[|es| + j].pair)
    ensures CornersIn(sc.(corners := sc.corners + [c]))
    ensures EdgesFrom(sc.(corners := sc.corners + [c]), vs, es')
  {
    var n := |sc.corners|;
    var cs := sc.corners + [c];
    var sc' := sc.(corners := cs);
    assert CornersIn(sc');
    forall e | 0 <= e < |es'|
      ensures es'[e].v0 == FaceEdge(vs, cs[e / 3], e % 3).v0 && es'[e].v1 == FaceEdge(vs, cs[e / 3], e % 3).v1 &&
              es'[e].sub0 == None && es'[e].sub1 == None
    {
      if e >= |es| {
        var j := e - |es|;
        assert e / 3 == n && e % 3 == j;
        assert es'[|es| + j] == FaceEdge(vs, c, j).(tri := Some(n), pair := es'[|es| + j].pair);
      } else {
        assert e / 3 < n;
        assert cs[e / 3] == sc.corners[e / 3];
      }
    }
  }

  lemma LoadedPairsShareEnds(sc: Scene, vs: seq<Vertex>, adj: seq<seq<nat>>, vh: seq<nat>,
                             ts: seq<Triangle>, es: seq<HalfEdge>, em: map<(nat, nat), nat>)
    requires LoadedFrom(sc, vs, adj, vh, ts, es, em)
    ensures AllEndsIn(vs, es) && PairsShareEnds(vs, es) && |ts| == |sc.corners|
  {
    PairingSharesEnds(vs, es, em);
  }

  /** The spin pass changes only `nextEdge` and `visited`, so what load
      built stays as described. */
  lemma LoadedAfterSpins(sc: Scene, vs: seq<Vertex>, adj: seq<seq<nat>>, vh: seq<nat>,
                         ts: seq<Triangle>, es: seq<HalfEdge>, em: map<(nat, nat), nat>,
                         ts': seq<Triangle>, es': seq<HalfEdge>)
    requires LoadedFrom(sc, vs, adj, vh, ts, es, em)
    requires SameButVisited(ts, ts') && SameButNext(es, es')
    ensures LoadedFrom(sc, vs, adj, vh, ts', es', em)
  {
    assert TrianglesFrom(sc, ts') by {
      forall t | 0 <= t < |ts| ensures ts'[t].index == t && ts'[t].verts == sc.corners[t] {
        assert ts'[t] == ts[t].(visited := ts'[t].visited);
      }
    }
    assert AllEndsIn(vs, es') by {
      forall e | 0 <= e < |es'| ensures EndsIn(vs, es'[e]) {
        assert EndsIn(vs, es[e]);
      }
    }
    assert EdgesFrom(sc, vs, es') by {
      forall e | 0 <= e < |es| ensures es'[e] == es[e].(next := es'[e].next) {
      }
    }
    forall e | 0 <= e < |es| ensures Key(vs, es, e) == Key(vs, es', e) && es'[e].pair == es[e].pair {
      assert EndsIn(vs, es[e]);
      assert es'[e] == es[e].(next := es'[e].next);
    }
    PairingTransfer(vs, es, vs, es', em);
  }

  // ---------------------------------------------------------------
  // Render buffers
  // ---------------------------------------------------------------

  /** A triangle with three corners, each an existing vertex. */
  predicate FaceIn(f: Triangle, nv: nat) {
    |f.verts| == 3 && AllBelow(f.verts, nv)
  }

  predicate FacesIn(ts: seq<Triangle>, nv: nat) {
    forall t :: 0 <= t < |ts| ==> FaceIn(ts[t], nv)
  }

  lemma WiredFaces(ts: seq<Triangle>, nv: nat, ne: nat)
    requires TrianglesWired(ts, nv, ne)
    ensures FacesIn(ts, nv)
  {
    forall t | 0 <= t < |ts| ensures FaceIn(ts[t], nv) {
      assert TriangleWired(ts[t], nv, ne);
    }
  }

  /** The vertex at corner k of the triangle list: corner k % 3 of
      triangle k / 3. */
  function Corner(ts: seq<Triangle>, nv: nat, k: nat): (h: nat)
    requires FacesIn(ts, nv) && k < 3 * |ts|
    ensures h < nv
  {
    var t := k / 3;
    assert FaceIn(ts[t], nv);
    ts[t].verts[k % 3]
  }

  function Xyz(p: Point): seq<real> {
    [p.x, p.y, p.z]
  }

  function Rgb(c: Color): seq<real> {
    [c.r, c.g, c.b]
  }

  /** Component c (0, 1 or 2) of a point. */
  function Coord(p: Point, c: nat): real {
    if c == 0 then p.x else if c == 1 then p.y else p.z
  }

  function Channel(c: Color, i: nat): real {
    if i == 0 then c.r else if i == 1 then c.g else c.b
  }

  lemma Assoc(a: seq<real>, b: seq<real>, c: seq<real>)
    ensures (a + b) + c == a + (b + c)
  {
  }

  /** The positions of the first i corners of face f, three numbers each. */
  function FacePositions(vs: seq<Vertex>, f: Triangle, i: nat): (b: seq<real>)
    requires FaceIn(f, |vs|) && i <= 3
    ensures |b| == 3 * i
  {
    if i == 0 then [] else FacePositions(vs, f, i - 1) + Xyz(vs[f.verts[i - 1]].loc)
  }

  function FaceColors(vs: seq<Vertex>, f: Triangle, i: nat): (b: seq<real>)
    requires FaceIn(f, |vs|) && i <= 3
    ensures |b| == 3 * i
  {
    if i == 0 then [] else FaceColors(vs, f, i - 1) + Rgb(vs[f.verts[i - 1]].color)
  }

  function FaceNormals(normalOf: nat -> Point, f: Triangle, i: nat): (b: seq<real>)
    requires |f.verts| == 3 && i <= 3
    ensures |b| == 3 * i
  {
    if i == 0 then [] else FaceNormals(normalOf, f, i - 1) + Xyz(normalOf(f.verts[i - 1]))
  }

  /** The position buffer of the first n triangles. */
  function Positions(vs: seq<Vertex>, ts: seq<Triangle>, n: nat): (b: seq<real>)
    requires FacesIn(ts, |vs|) && n <= |ts|
    ensures |b| == 9 * n
  {
    if n == 0 then [] else Positions(vs, ts, n - 1) + FacePositions(vs, ts[n - 1], 3)
  }

  /** The colour buffer of the first n triangles. */
  function Colors(vs: seq<Vertex>, ts: seq<Triangle>, n: nat): (b: seq<real>)
    requires FacesIn(ts, |vs|) && n <= |ts|
    ensures |b| == 9 * n
  {
    if n == 0 then [] else Colors(vs, ts, n - 1) + FaceColors(vs, ts[n - 1], 3)
  }

  /** The normal buffer of the first n triangles. */
  function Normals(normalOf: nat -> Point, ts: seq<Triangle>, nv: nat, n: nat): (b: seq<real>)
    requires FacesIn(ts, nv) && n <= |ts|
    ensures |b| == 9 * n
  {
    if n == 0 then [] else Normals(normalOf, ts, nv, n - 1) + FaceNormals(normalOf, ts[n - 1], 3)
  }

  lemma {:induction false} FacePositionsAt(vs: seq<Vertex>, f: Triangle, i: nat, j: nat)
    requires FaceIn(f, |vs|) && i <= 3 && j < 3 * i
    ensures FacePositions(vs, f, i)[j] == Coord(vs[f.verts[j / 3]].loc, j % 3)
  {
    if j < 3 * (i - 1) {
      FacePositionsAt(vs, f, i - 1, j);
    } else {
      assert j / 3 == i - 1 && j % 3 == j - 3 * (i - 1);
    }
  }

  lemma {:induction false} FaceColorsAt(vs: seq<Vertex>, f: Triangle, i: nat, j: nat)
    requires FaceIn(f, |vs|) && i <= 3 && j < 3 * i
    ensures FaceColors(vs, f, i)[j] == Channel(vs[f.verts[j / 3]].color, j % 3)
  {
    if j < 3 * (i - 1) {
      FaceColorsAt(vs, f, i - 1, j);
    } else {
      assert j / 3 == i - 1 && j % 3 == j - 3 * (i - 1);
    }
  }

  lemma {:induction false} FaceNormalsAt(normalOf: nat -> Point, f: Triangle, i: nat, j: nat)
    requires |f.verts| == 3 && i <= 3 && j < 3 * i
    ensures FaceNormals(normalOf, f, i)[j] == Coord(normalOf(f.verts[j / 3]), j % 3)
  {
    if j < 3 * (i - 1) {
      FaceNormalsAt(normalOf, f, i - 1, j);
    } else {
      assert j / 3 == i - 1 && j % 3 == j - 3 * (i - 1);
    }
  }

  /** Where number j of a buffer of n triangles sits: it belongs to corner
      j / 3 of the triangle list, as number j' of that corner's triangle. */
  lemma SplitIndex(ts: seq<Triangle>, nv: nat, n: nat, j: nat)
    requires FacesIn(ts, nv) && 0 < n <= |ts| && 9 * (n - 1) <= j < 9 * n
    ensures j / 3 < 3 * |ts| && j - 9 * (n - 1) < 9
    ensures Corner(ts, nv, j / 3) == ts[n - 1].verts[(j - 9 * (n - 1)) / 3]
    ensures (j - 9 * (n - 1)) % 3 == j % 3
  {
    var k := j - 9 * (n - 1);
    assert j / 3 == 3 * (n - 1) + k / 3;
    assert (j / 3) / 3 == n - 1 && (j / 3) % 3 == k / 3;
  }

  /** Number j of the position buffer is component j % 3 of the position
      of corner j / 3: the buffer lists the corners in storage order. */
  lemma {:induction false} PositionsAt(vs: seq<Vertex>, ts: seq<Triangle>, n: nat, j: nat)
    requires FacesIn(ts, |vs|) && n <= |ts| && j < 9 * n
    ensures Positions(vs, ts, n)[j] == Coord(vs[Corner(ts, |vs|, j / 3)].loc, j % 3)
  {
    if j < 9 * (n - 1) {
      PositionsAt(vs, ts, n - 1, j);
    } else {
      SplitIndex(ts, |vs|, n, j);
      assert FaceIn(ts[n - 1], |vs|);
      FacePositionsAt(vs, ts[n - 1], 3, j - 9 * (n - 1));
    }
  }

  /** Number j of the colour buffer is channel j % 3 of the colour of
      corner j / 3. */
  lemma {:induction false} ColorsAt(vs: seq<Vertex>, ts: seq<Triangle>, n: nat, j: nat)
    requires FacesIn(ts, |vs|) && n <= |ts| && j < 9 * n
    ensures Colors(vs, ts, n)[j] == Channel(vs[Corner(ts, |vs|, j / 3)].color, j % 3)
  {
    if j < 9 * (n - 1) {
      ColorsAt(vs, ts, n - 1, j);
    } else {
      SplitIndex(ts, |vs|, n, j);
      assert FaceIn(ts[n - 1], |vs|);
      FaceColorsAt(vs, ts[n - 1], 3, j - 9 * (n - 1));
    }
  }

  /** Number j of the normal buffer is component j % 3 of the normal of
      corner j / 3. */
  lemma {:induction false} NormalsAt(normalOf: nat -> Point, ts: seq<Triangle>, nv: nat, n: nat, j: nat)
    requires FacesIn(ts, nv) && n <= |ts| && j < 9 * n
    ensures Normals(normalOf, ts, nv, n)[j] == Coord(normalOf(Corner(ts, nv, j / 3)), j % 3)
  {
    if j < 9 * (n - 1) {
      NormalsAt(normalOf, ts, nv, n - 1, j);
    } else {
      SplitIndex(ts, nv, n, j);
      assert FaceIn(ts[n - 1], nv);
      FaceNormalsAt(normalOf, ts[n - 1], 3, j - 9 * (n - 1));
    }
  }

  /** The handles 0 .. n-1, in order. */
  function Handles(n: nat): (hs: seq<nat>)
    ensures |hs| == n && forall h :: 0 <= h < n ==> hs[h] == h
  {
    if n == 0 then [] else Handles(n - 1) + [n - 1]
  }
}
