/** Mesh topology of one body group: the undirected vertex graph of its
    faces, the breadth-first layering from the nose vertex, and the grouping
    of those layers into stations. */
module Topology {
  import opened Wrappers
  import opened Geometry
  import opened Seqs

  /** Every face corner names one of the `n` vertices. */
  predicate ValidFaces(n: nat, faces: seq<seq<nat>>) {
    forall f, k :: 0 <= f < |faces| && 0 <= k < |faces[f]| ==> faces[f][k] < n
  }

  /** Neighbour sets whose members are all vertices of the graph. */
  predicate ValidGraph(nb: seq<set<nat>>) {
    forall u, v :: 0 <= u < |nb| && v in nb[u] ==> v < |nb|
  }

  /** `{u, v}` is the edge from corner `i` of `face` to the next corner,
      the last corner wrapping round to the first; a face needs at least two
      corners, and an edge joining a vertex to itself is not an edge. */
  ghost predicate EdgeAt(face: seq<nat>, i: int, u: nat, v: nat) {
    && 2 <= |face| && 0 <= i < |face|
    && face[i] != face[(i + 1) % |face|]
    && ((u == face[i] && v == face[(i + 1) % |face|]) || (v == face[i] && u == face[(i + 1) % |face|]))
  }

  ghost predicate EdgeBefore(face: seq<nat>, i: int, u: nat, v: nat) {
    exists k :: 0 <= k < i && EdgeAt(face, k, u, v)
  }

  ghost predicate FaceHasEdge(face: seq<nat>, u: nat, v: nat) {
    exists k :: EdgeAt(face, k, u, v)
  }

  /** `u` and `v` are joined by an edge of some face. */
  ghost predicate Adjacent(faces: seq<seq<nat>>, u: nat, v: nat) {
    exists f :: 0 <= f < |faces| && FaceHasEdge(faces[f], u, v)
  }

  lemma AdjacentSnoc(faces: seq<seq<nat>>, f: nat, u: nat, v: nat)
    requires f < |faces|
    ensures Adjacent(faces[..f + 1], u, v) <==> Adjacent(faces[..f], u, v) || FaceHasEdge(faces[f], u, v)
  {
    if Adjacent(faces[..f + 1], u, v) {
      var g :| 0 <= g < f + 1 && FaceHasEdge(faces[..f + 1][g], u, v);
      if g < f {
        assert faces[..f][g] == faces[g];
      }
    }
    if Adjacent(faces[..f], u, v) {
      var g :| 0 <= g < f && FaceHasEdge(faces[..f][g], u, v);
      assert faces[..f + 1][g] == faces[g];
    }
    if FaceHasEdge(faces[f], u, v) {
      assert faces[..f + 1][f] == faces[f];
    }
  }

  /** build_vertex_adjacency: the neighbour set of every vertex. */
  method BuildVertexAdjacency(n: nat, faces: seq<seq<nat>>) returns (nb: seq<set<nat>>)
    requires ValidFaces(n, faces)
    ensures |nb| == n
    ensures forall u, v :: 0 <= u < n ==> (v in nb[u] <==> Adjacent(faces, u, v))
  {
    var neighbors := new set<nat>[n](_ => {});
    var f := 0;
    while f < |faces|
      invariant 0 <= f <= |faces|
      invariant forall u, v :: 0 <= u < n ==> (v in neighbors[u] <==> Adjacent(faces[..f], u, v))
    {
      var face := faces[f];
      var m := |face|;
      if m >= 2 {
        var i := 0;
        while i < m
          invariant 0 <= i <= m
          invariant forall u, v :: 0 <= u < n ==>
            (v in neighbors[u] <==> Adjacent(faces[..f], u, v) || EdgeBefore(face, i, u, v))
        {
          var v0, v1 := face[i], face[(i + 1) % m];
          assert v0 < n && v1 < n;
          if v0 != v1 {
            neighbors[v0] := neighbors[v0] + {v1};
            neighbors[v1] := neighbors[v1] + {v0};
          }
          forall u, v | 0 <= u < n
            ensures EdgeBefore(face, i + 1, u, v) <==> EdgeBefore(face, i, u, v) || EdgeAt(face, i, u, v)
          {
            if EdgeBefore(face, i + 1, u, v) {
              var k :| 0 <= k < i + 1 && EdgeAt(face, k, u, v);
              if k < i {
                assert EdgeBefore(face, i, u, v);
              }
            }
          }
          i := i + 1;
        }
        forall u, v | 0 <= u < n ensures EdgeBefore(face, m, u, v) <==> FaceHasEdge(face, u, v) {
          if FaceHasEdge(face, u, v) {
            var k :| EdgeAt(face, k, u, v);
            assert 0 <= k < m;
          }
        }
      } else {
        forall u, v | 0 <= u < n ensures !FaceHasEdge(face, u, v) {
        }
      }
      forall u, v | 0 <= u < n
        ensures Adjacent(faces[..f + 1], u, v) <==> Adjacent(faces[..f], u, v) || FaceHasEdge(face, u, v)
      {
        AdjacentSnoc(faces, f, u, v);
      }
      f := f + 1;
    }
    assert faces[..f] == faces;
    nb := neighbors[..];
  }

  /** The face graph is undirected, has no self-loops and stays in range. */
  lemma AdjacencyShape(faces: seq<seq<nat>>, n: nat, u: nat, v: nat)
    requires ValidFaces(n, faces) && Adjacent(faces, u, v)
    ensures Adjacent(faces, v, u) && u != v && u < n && v < n
  {
    var f :| 0 <= f < |faces| && FaceHasEdge(faces[f], u, v);
    var k :| EdgeAt(faces[f], k, u, v);
    assert EdgeAt(faces[f], k, v, u);
    assert faces[f][k] < n && faces[f][(k + 1) % |faces[f]|] < n;
  }

  /** The closing edge from the last corner back to the first is included. */
  lemma ClosingEdge(faces: seq<seq<nat>>, f: nat)
    requires f < |faces| && |faces[f]| >= 2
    requires faces[f][|faces[f]| - 1] != faces[f][0]
    ensures Adjacent(faces, faces[f][|faces[f]| - 1], faces[f][0])
  {
    var m := |faces[f]|;
    assert (m - 1 + 1) % m == 0;
    assert EdgeAt(faces[f], m - 1, faces[f][m - 1], faces[f][0]);
  }

  /** `w` has a neighbour-of predecessor one layer closer to the root. */
  ghost predicate HasCloserParent(nb: seq<set<nat>>, dist: map<nat, nat>, w: nat)
    requires w in dist
  {
    exists p :: p in dist && p < |nb| && w in nb[p] && dist[p] + 1 == dist[w]
  }

  /** What compute_topological_layers guarantees of its distance map: the
      root is at 0, every other discovered vertex has a discovered neighbour
      one layer closer, and no edge out of a discovered vertex skips a layer
      or leaves the discovered set. */
  ghost predicate IsBfsLayering(nb: seq<set<nat>>, root: nat, dist: map<nat, nat>) {
    && root in dist && dist[root] == 0
    && (forall w :: w in dist ==> w < |nb|)
    && (forall w {:trigger HasCloserParent(nb, dist, w)} :: w in dist && w != root ==>
          dist[w] > 0 && HasCloserParent(nb, dist, w))
    && (forall u, w :: u in dist && w in nb[u] ==> w in dist && dist[w] <= dist[u] + 1)
  }

  /** The key order of the distance dict: each discovered vertex once, root
      first, by non-decreasing distance. */
  ghost predicate IsDiscoveryOrder(order: seq<nat>, root: nat, dist: map<nat, nat>) {
    && |order| > 0 && order[0] == root
    && Distinct(order)
    && (forall w :: w in dist <==> w in order)
    && (forall i, j :: 0 <= i <= j < |order| ==> dist[order[i]] <= dist[order[j]])
  }

  ghost predicate IsWalk(nb: seq<set<nat>>, p: seq<nat>) {
    && |p| >= 1
    && (forall k :: 0 <= k < |p| ==> p[k] < |nb|)
    && (forall k :: 0 <= k < |p| - 1 ==> p[k + 1] in nb[p[k]])
  }

  /** No walk from the root reaches a vertex in fewer steps than its layer,
      and every vertex a walk reaches is discovered. */
  lemma {:induction false} LayerIsLowerBound(nb: seq<set<nat>>, root: nat, dist: map<nat, nat>, p: seq<nat>)
    requires IsBfsLayering(nb, root, dist) && IsWalk(nb, p) && p[0] == root
    ensures p[|p| - 1] in dist && dist[p[|p| - 1]] <= |p| - 1
    decreases |p|
  {
    if |p| > 1 {
      var q := p[..|p| - 1];
      LayerIsLowerBound(nb, root, dist, q);
      assert p[|p| - 1] in nb[q[|q| - 1]];
    }
  }

  /** Every discovered vertex is reached from the root by a walk with exactly
      as many steps as its layer. */
  lemma {:induction false} LayerIsAttained(nb: seq<set<nat>>, root: nat, dist: map<nat, nat>, w: nat)
    returns (p: seq<nat>)
    requires IsBfsLayering(nb, root, dist) && w in dist
    ensures IsWalk(nb, p) && p[0] == root && p[|p| - 1] == w && |p| == dist[w] + 1
    decreases dist[w]
  {
    if w == root {
      p := [root];
    } else {
      assert HasCloserParent(nb, dist, w);
      var q :| q in dist && q < |nb| && w in nb[q] && dist[q] + 1 == dist[w];
      var p0 := LayerIsAttained(nb, root, dist, q);
      p := p0 + [w];
    }
  }

  /** `w` occurs in `order` (kept apart from `in` to control instantiation). */
  ghost predicate Listed(order: seq<nat>, w: nat) {
    exists i :: 0 <= i < |order| && order[i] == w
  }

  /** The facts every step of the search keeps: the layering facts other
      than closure, over the vertices discovered so far. */
  ghost predicate SearchState(nb: seq<set<nat>>, root: nat, dist: map<nat, nat>, order: seq<nat>) {
    && |order| > 0 && order[0] == root
    && root in dist && dist[root] == 0
    && Distinct(order)
    && (forall w {:trigger Listed(order, w)} :: w in dist ==> Listed(order, w))
    && (forall i :: 0 <= i < |order| ==> order[i] in dist && order[i] < |nb|)
    && (forall w :: w in dist ==> w < |nb|)
    && (forall w {:trigger HasCloserParent(nb, dist, w)} :: w in dist && w != root ==>
          dist[w] > 0 && HasCloserParent(nb, dist, w))
    && (forall i, j :: 0 <= i <= j < |order| ==> dist[order[i]] <= dist[order[j]])
  }

  /** Discovering a neighbour `w` of `v` at distance dist[v] + 1 keeps the
      search state, as long as no discovered vertex is further than that. */
  lemma DiscoverStep(nb: seq<set<nat>>, root: nat, dist: map<nat, nat>, order: seq<nat>, v: nat, w: nat)
    requires SearchState(nb, root, dist, order)
    requires v in dist && v < |nb| && w in nb[v] && w !in dist && w < |nb|
    requires forall j :: 0 <= j < |order| ==> dist[order[j]] <= dist[v] + 1
    ensures SearchState(nb, root, dist[w := dist[v] + 1], order + [w])
  {
    DiscoverKeepsParents(nb, root, dist, v, w);
    DiscoverKeepsListing(dist, order, w, dist[v] + 1);
    DiscoverKeepsOrder(dist, order, w, dist[v] + 1);
  }

  lemma DiscoverKeepsParents(nb: seq<set<nat>>, root: nat, dist: map<nat, nat>, v: nat, w: nat)
    requires v in dist && v < |nb| && w in nb[v] && w !in dist && w != root
    requires forall x {:trigger HasCloserParent(nb, dist, x)} :: x in dist && x != root ==>
               dist[x] > 0 && HasCloserParent(nb, dist, x)
    ensures forall x {:trigger HasCloserParent(nb, dist[w := dist[v] + 1], x)} ::
              x in dist[w := dist[v] + 1] && x != root ==>
              dist[w := dist[v] + 1][x] > 0 && HasCloserParent(nb, dist[w := dist[v] + 1], x)
  {
    var dist' := dist[w := dist[v] + 1];
    forall x | x in dist' && x != root
      ensures dist'[x] > 0 && HasCloserParent(nb, dist', x)
    {
      if x == w {
        assert v in dist';
      } else {
        assert HasCloserParent(nb, dist, x);
        var p :| p in dist && p < |nb| && x in nb[p] && dist[p] + 1 == dist[x];
        assert p in dist';
      }
    }
  }

  lemma DiscoverKeepsListing(dist: map<nat, nat>, order: seq<nat>, w: nat, d: nat)
    requires w !in dist
    requires forall x {:trigger Listed(order, x)} :: x in dist ==> Listed(order, x)
    requires forall i :: 0 <= i < |order| ==> order[i] in dist
    ensures forall x {:trigger Listed(order + [w], x)} :: x in dist[w := d] ==> Listed(order + [w], x)
    ensures Distinct(order) ==> Distinct(order + [w])
  {
    var order' := order + [w];
    forall x | x in dist[w := d] ensures Listed(order', x) {
      if x == w {
        assert order'[|order|] == w;
      } else {
        assert Listed(order, x);
        var i :| 0 <= i < |order| && order[i] == x;
        assert order'[i] == x;
      }
    }
  }

  lemma DiscoverKeepsOrder(dist: map<nat, nat>, order: seq<nat>, w: nat, d: nat)
    requires w !in dist
    requires forall i :: 0 <= i < |order| ==> order[i] in dist
    requires forall j :: 0 <= j < |order| ==> dist[order[j]] <= d
    requires forall i, j :: 0 <= i <= j < |order| ==> dist[order[i]] <= dist[order[j]]
    ensures forall i, j :: 0 <= i <= j < |order| + 1 ==>
              dist[w := d][(order + [w])[i]] <= dist[w := d][(order + [w])[j]]
  {
    var dist', order' := dist[w := d], order + [w];
    forall i, j | 0 <= i <= j < |order'| ensures dist'[order'[i]] <= dist'[order'[j]] {
      if j == |order| {
        if i < |order| {
          assert order'[i] == order[i];
        }
      } else {
        assert order'[i] == order[i] && order'[j] == order[j];
      }
    }
  }

  /** The vertices before `head` in the queue have had all their
      neighbours discovered, none of them more than one layer further. */
  ghost predicate Expanded(nb: seq<set<nat>>, dist: map<nat, nat>, order: seq<nat>, head: nat)
    requires head <= |order| && forall i :: 0 <= i < |order| ==> order[i] < |nb| && order[i] in dist
  {
    forall i, w :: 0 <= i < head && w in nb[order[i]] ==> w in dist && dist[w] <= dist[order[i]] + 1
  }

  /** No queued vertex is more than one layer beyond the head of the queue. */
  ghost predicate QueueSpan(dist: map<nat, nat>, order: seq<nat>, head: nat)
    requires head <= |order| && forall i :: 0 <= i < |order| ==> order[i] in dist
  {
    head < |order| ==> forall j :: 0 <= j < |order| ==> dist[order[j]] <= dist[order[head]] + 1
  }

  /** After the neighbours of order[head] are all discovered, the head
      moves on one place. */
  lemma AdvanceHead(nb: seq<set<nat>>, root: nat, dist0: map<nat, nat>, order0: seq<nat>,
                    dist: map<nat, nat>, order: seq<nat>, head: nat)
    requires head < |order0| && SearchState(nb, root, dist0, order0) && Expanded(nb, dist0, order0, head)
    requires Expanding(nb, root, dist0, order0, order0[head], dist, order, {})
    ensures Expanded(nb, dist, order, head + 1) && QueueSpan(dist, order, head + 1)
  {
    forall i, w | 0 <= i < head + 1 && w in nb[order[i]]
      ensures w in dist && dist[w] <= dist[order[i]] + 1
    {
      assert order[i] == order0[i];
    }
    if head + 1 < |order| {
      assert order[head] == order0[head];
    }
  }

  /** When the queue is exhausted the search state is a BFS layering. */
  lemma SearchComplete(nb: seq<set<nat>>, root: nat, dist: map<nat, nat>, order: seq<nat>)
    requires SearchState(nb, root, dist, order) && Expanded(nb, dist, order, |order|)
    ensures IsBfsLayering(nb, root, dist) && IsDiscoveryOrder(order, root, dist)
  {
    forall u, w | u in dist && w in nb[u] ensures w in dist && dist[w] <= dist[u] + 1 {
      assert Listed(order, u);
      var i :| 0 <= i < |order| && order[i] == u;
    }
    forall w | w in dist ensures w in order {
      assert Listed(order, w);
    }
    forall w | w in dist && w != root ensures dist[w] > 0 && HasCloserParent(nb, dist, w) {
      assert SearchState(nb, root, dist, order);
      assert HasCloserParent(nb, dist, w);
    }
  }

  /** What holds while the neighbours of `v` are being discovered: the
      search state, starting from (dist0, order0) and only ever adding
      vertices at dist[v] + 1, with the neighbours outside `todo` done. */
  ghost predicate Expanding(nb: seq<set<nat>>, root: nat, dist0: map<nat, nat>, order0: seq<nat>, v: nat,
                            dist: map<nat, nat>, order: seq<nat>, todo: set<nat>)
    requires v in dist0 && v < |nb|
  {
    && SearchState(nb, root, dist, order)
    && |order| >= |order0| && order[..|order0|] == order0
    && (forall w :: w in dist0 ==> w in dist && dist[w] == dist0[w])
    && (forall j :: 0 <= j < |order| ==> dist[order[j]] <= dist0[v] + 1)
    && (forall w :: w in nb[v] && w !in todo ==> w in dist && dist[w] <= dist0[v] + 1)
  }

  /** One neighbour `w` of `v` handled: entered if new, skipped otherwise. */
  lemma ExpandStep(nb: seq<set<nat>>, root: nat, dist0: map<nat, nat>, order0: seq<nat>, v: nat,
                   dist: map<nat, nat>, order: seq<nat>, todo: set<nat>, w: nat)
    requires ValidGraph(nb) && v in dist0 && v < |nb| && w in todo && todo <= nb[v]
    requires Expanding(nb, root, dist0, order0, v, dist, order, todo)
    ensures w !in dist ==> Expanding(nb, root, dist0, order0, v, dist[w := dist0[v] + 1], order + [w], todo - {w})
    ensures w in dist ==> Expanding(nb, root, dist0, order0, v, dist, order, todo - {w})
  {
    if w !in dist {
      DiscoverStep(nb, root, dist, order, v, w);
      var order' := order + [w];
      assert order'[..|order0|] == order[..|order0|];
    } else {
      assert Listed(order, w);
    }
  }

  /** The inner loop of compute_topological_layers: every neighbour of `v`
      not yet in the distance dict is entered at dist[v] + 1 and queued. */
  method ExpandVertex(nb: seq<set<nat>>, root: nat, dist0: map<nat, nat>, order0: seq<nat>, v: nat)
    returns (dist: map<nat, nat>, order: seq<nat>)
    requires ValidGraph(nb) && SearchState(nb, root, dist0, order0) && v in dist0
    requires forall j :: 0 <= j < |order0| ==> dist0[order0[j]] <= dist0[v] + 1
    ensures Expanding(nb, root, dist0, order0, v, dist, order, {})
  {
    dist, order := dist0, order0;
    var dv := dist[v];
    var todo := nb[v];
    while todo != {}
      invariant todo <= nb[v]
      invariant Expanding(nb, root, dist0, order0, v, dist, order, todo)
      decreases todo
    {
      var w :| w in todo;
      ExpandStep(nb, root, dist0, order0, v, dist, order, todo, w);
      todo := todo - {w};
      if w !in dist {
        dist := dist[w := dv + 1];
        order := order + [w];
      }
    }
  }

  /** compute_topological_layers: breadth-first search over the neighbour
      sets from the first lowest-z vertex. Returns the distance dict (as the
      map and its key order), the nose and the first highest-z vertex. */
  method ComputeTopologicalLayers(verts: seq<Vec3>, nb: seq<set<nat>>)
    returns (dist: map<nat, nat>, order: seq<nat>, nose: nat, tail: nat)
    requires |verts| > 0 && |nb| == |verts| && ValidGraph(nb)
    ensures nose == ArgMinZ(verts) && tail == ArgMaxZ(verts)
    ensures IsBfsLayering(nb, nose, dist)
    ensures IsDiscoveryOrder(order, nose, dist)
  {
    nose := ArgMinZ(verts);
    tail := ArgMaxZ(verts);
    dist := map[nose := 0];
    order := [nose];
    var head := 0;
    while head < |order|
      invariant 0 <= head <= |order|
      invariant SearchState(nb, nose, dist, order)
      invariant QueueSpan(dist, order, head) && Expanded(nb, dist, order, head)
      decreases (set w | 0 <= w < |nb| && w !in dist), |order| - head
    {
      ghost var order0, dist0 := order, dist;
      ghost var undiscovered0 := set w | 0 <= w < |nb| && w !in dist;
      dist, order := ExpandVertex(nb, nose, dist, order, order[head]);
      AdvanceHead(nb, nose, dist0, order0, dist, order, head);
      ghost var undiscovered := set w | 0 <= w < |nb| && w !in dist;
      if |order| > |order0| {
        var w := order[|order0|];
        forall i | 0 <= i < |order0| ensures order0[i] != w {
          assert order[i] == order0[i];
        }
        assert !Listed(order0, w);
        assert w in undiscovered0 && w !in undiscovered;
      } else {
        assert order == order0;
        forall x | x in dist ensures x in dist0 {
          assert Listed(order, x);
        }
        assert undiscovered == undiscovered0;
      }
      head := head + 1;
    }
    SearchComplete(nb, nose, dist, order);
  }

  /** The vertices at distance `d`, in discovery order (one bucket). */
  function Layer(order: seq<nat>, dist: map<nat, nat>, d: int): (r: seq<nat>)
    decreases |order|
  {
    if |order| == 0 then []
    else
      var w := order[|order| - 1];
      Layer(order[..|order| - 1], dist, d) + (if w in dist && dist[w] == d then [w] else [])
  }

  /** The distance of each vertex of `order`, i.e. the bucket keys. */
  function DistancesOf(order: seq<nat>, dist: map<nat, nat>): seq<int> {
    seq(|order|, i requires 0 <= i < |order| => if order[i] in dist then dist[order[i]] else 0)
  }

  /** A bucket key that build_station_vertex_groups turns into a mid
      station: not the nose layer, not the tail's layer, not empty. */
  predicate IsMidDistance(order: seq<nat>, dist: map<nat, nat>, tailD: int, d: int) {
    d != 0 && d != tailD && |Layer(order, dist, d)| > 0
  }

  /** The mid-station distances among `ds`, in the order of `ds`. */
  function MidDistancesIn(ds: seq<int>, order: seq<nat>, dist: map<nat, nat>, tailD: int): (r: seq<int>)
    decreases |ds|
  {
    if |ds| == 0 then []
    else
      var d := ds[|ds| - 1];
      MidDistancesIn(ds[..|ds| - 1], order, dist, tailD) + (if IsMidDistance(order, dist, tailD, d) then [d] else [])
  }

  /** The bucket keys in increasing order (`sorted(buckets.keys())`). */
  function BucketKeys(order: seq<nat>, dist: map<nat, nat>): seq<int> {
    SortedDistinct(DistancesOf(order, dist))
  }

  /** The mid stations' distances, increasing. */
  function MidDistances(order: seq<nat>, dist: map<nat, nat>, tailD: int): seq<int> {
    MidDistancesIn(BucketKeys(order, dist), order, dist, tailD)
  }

  const MidLayerSizeError: Error := ValueError("distance layer outside 8..16 vertices")
  const TailLayerError: Error := ValueError("tail distance layer is not one vertex")
  const TooManyStationsError: Error := ValueError("too many stations")

  /** What build_station_vertex_groups returns for a BFS layering: the nose
      alone, each mid layer in increasing distance, then the tail's layer.
      An unreached tail is a KeyError; a mid layer outside 8..16 vertices, a
      tail layer that is not one vertex, and more than `maxStations`
      stations are ValueErrors, checked in that order. */
  function StationGroupsSpec(order: seq<nat>, dist: map<nat, nat>, nose: nat, tail: nat, maxStations: int)
    : Result<seq<seq<nat>>>
  {
    if tail !in dist then Err(KeyError("tail vertex not reached"))
    else
      var mids := MidDistances(order, dist, dist[tail]);
      if exists k :: 0 <= k < |mids| && !(8 <= |Layer(order, dist, mids[k])| <= 16) then Err(MidLayerSizeError)
      else if |Layer(order, dist, dist[tail])| != 1 then Err(TailLayerError)
      else if |mids| + 2 > maxStations then Err(TooManyStationsError)
      else Ok([[nose]] + LayersAt(order, dist, mids) + [Layer(order, dist, dist[tail])])
  }

  function LayersAt(order: seq<nat>, dist: map<nat, nat>, ds: seq<int>): (r: seq<seq<nat>>)
    ensures |r| == |ds|
  {
    seq(|ds|, k requires 0 <= k < |ds| => Layer(order, dist, ds[k]))
  }

  const DefaultMaxStations: int := 20

  /** The distance buckets as a map: each key maps to its layer, and every
      distance without a key has an empty layer. */
  ghost predicate IsBucketing(order: seq<nat>, dist: map<nat, nat>, buckets: map<int, seq<nat>>) {
    && (forall d :: d in buckets ==> buckets[d] == Layer(order, dist, d))
    && (forall d :: d !in buckets ==> Layer(order, dist, d) == [])
  }

  /** The `defaultdict(list)` filled by appending each vertex of `order` to
      the bucket of its distance. */
  method BucketByDistance(order: seq<nat>, dist: map<nat, nat>) returns (buckets: map<int, seq<nat>>)
    requires forall i :: 0 <= i < |order| ==> order[i] in dist
    ensures IsBucketing(order, dist, buckets)
  {
    buckets := map[];
    var i := 0;
    while i < |order|
      invariant 0 <= i <= |order|
      invariant IsBucketing(order[..i], dist, buckets)
    {
      var v := order[i];
      var d := dist[v];
      assert order[..i + 1][..i] == order[..i];
      buckets := buckets[d := (if d in buckets then buckets[d] else []) + [v]];
      i := i + 1;
    }
    assert order[..i] == order;
  }

  /** The first part of the station list: the nose, then every mid layer in
      increasing distance, stopping with the mid-layer error at the first
      layer outside 8..16 vertices. */
  method MidStations(order: seq<nat>, dist: map<nat, nat>, nose: nat, tailD: int,
                     buckets: map<int, seq<nat>>)
    returns (r: Result<seq<seq<nat>>>)
    requires IsBucketing(order, dist, buckets)
    ensures var mids := MidDistances(order, dist, tailD);
            && (r.Ok? <==> AllMidSized(order, dist, mids))
            && (r.Ok? ==> r.value == [[nose]] + LayersAt(order, dist, mids))
            && (r.Err? ==> r.error == MidLayerSizeError)
  {
    var dValues := BucketKeys(order, dist);
    var stations: seq<seq<nat>> := [[nose]];
    var t := 0;
    assert dValues[..0] == [];
    while t < |dValues|
      invariant 0 <= t <= |dValues|
      invariant MidLoop(order, dist, nose, tailD, dValues, t, stations)
    {
      var d := dValues[t];
      if d == 0 || d == tailD {
        MidLoopStep(order, dist, nose, tailD, dValues, t, stations);
        t := t + 1;
        continue;
      }
      var ring := if d in buckets then buckets[d] else [];
      if |ring| == 0 {
        MidLoopStep(order, dist, nose, tailD, dValues, t, stations);
        t := t + 1;
        continue;
      }
      if !(8 <= |ring| <= 16) {
        MidPrefix(dValues, t, order, dist, tailD);
        return Err(MidLayerSizeError);
      }
      MidLoopStep(order, dist, nose, tailD, dValues, t, stations);
      stations := stations + [ring];
      t := t + 1;
    }
    assert dValues[..t] == dValues;
    return Ok(stations);
  }

  /** The station list built from the buckets: nose, each mid layer in
      increasing distance, tail layer, with the checks in source order. */
  method AssembleStations(order: seq<nat>, dist: map<nat, nat>, nose: nat, tail: nat,
                          buckets: map<int, seq<nat>>, maxStations: int)
    returns (r: Result<seq<seq<nat>>>)
    requires IsBucketing(order, dist, buckets)
    ensures r == StationGroupsSpec(order, dist, nose, tail, maxStations)
  {
    if tail !in dist {
      return Err(KeyError("tail vertex not reached"));
    }
    var tailD := dist[tail];
    var tailBucket := if tailD in buckets then buckets[tailD] else [];
    var mid := MidStations(order, dist, nose, tailD, buckets);
    if mid.Err? {
      SpecMidError(order, dist, nose, tail, maxStations);
      return Err(mid.error);
    }
    SpecAfterMids(order, dist, nose, tail, maxStations);
    if |tailBucket| != 1 {
      return Err(TailLayerError);
    }
    var stations := mid.value + [tailBucket];
    if |stations| > maxStations {
      return Err(TooManyStationsError);
    }
    return Ok(stations);
  }

  /** The state of the mid-station loop after the first `t` bucket keys. */
  ghost predicate MidLoop(order: seq<nat>, dist: map<nat, nat>, nose: nat, tailD: int,
                          ds: seq<int>, t: nat, stations: seq<seq<nat>>) {
    && t <= |ds|
    && stations == [[nose]] + LayersAt(order, dist, MidDistancesIn(ds[..t], order, dist, tailD))
    && AllMidSized(order, dist, MidDistancesIn(ds[..t], order, dist, tailD))
  }

  /** One key of the mid-station loop: a mid distance whose layer has the
      right size adds that layer; any other key adds nothing. */
  lemma MidLoopStep(order: seq<nat>, dist: map<nat, nat>, nose: nat, tailD: int,
                    ds: seq<int>, t: nat, stations: seq<seq<nat>>)
    requires t < |ds| && MidLoop(order, dist, nose, tailD, ds, t, stations)
    requires IsMidDistance(order, dist, tailD, ds[t]) ==> 8 <= |Layer(order, dist, ds[t])| <= 16
    ensures MidLoop(order, dist, nose, tailD, ds, t + 1,
                    stations + (if IsMidDistance(order, dist, tailD, ds[t]) then [Layer(order, dist, ds[t])] else []))
  {
    var before := MidDistancesIn(ds[..t], order, dist, tailD);
    MidStep(ds, t, order, dist, tailD);
    if IsMidDistance(order, dist, tailD, ds[t]) {
      LayersAtSnoc(order, dist, before, ds[t]);
    } else {
      assert before + [] == before;
    }
  }

  /** Every layer named in `ds` has 8..16 vertices. */
  ghost predicate AllMidSized(order: seq<nat>, dist: map<nat, nat>, ds: seq<int>) {
    forall k :: 0 <= k < |ds| ==> 8 <= |Layer(order, dist, ds[k])| <= 16
  }

  /** A mid layer of the wrong size makes the result the mid-layer error. */
  lemma SpecMidError(order: seq<nat>, dist: map<nat, nat>, nose: nat, tail: nat, maxStations: int)
    requires tail in dist
    requires !AllMidSized(order, dist, MidDistances(order, dist, dist[tail]))
    ensures StationGroupsSpec(order, dist, nose, tail, maxStations) == Err(MidLayerSizeError)
  {
  }

  /** With every mid layer of the right size, the result depends only on the
      tail layer and the station count. */
  lemma SpecAfterMids(order: seq<nat>, dist: map<nat, nat>, nose: nat, tail: nat, maxStations: int)
    requires tail in dist
    requires AllMidSized(order, dist, MidDistances(order, dist, dist[tail]))
    ensures var mids := MidDistances(order, dist, dist[tail]);
            var tailLayer := Layer(order, dist, dist[tail]);
            StationGroupsSpec(order, dist, nose, tail, maxStations)
            == if |tailLayer| != 1 then Err(TailLayerError)
               else if |mids| + 2 > maxStations then Err(TooManyStationsError)
               else Ok([[nose]] + LayersAt(order, dist, mids) + [tailLayer])
  {
  }

  /** build_station_vertex_groups: BFS from the nose, bucket the vertices by
      distance in discovery order, and keep the nose, the mid layers and the
      tail layer as stations. The layering it used is returned as ghost
      results so that the contract can name it. */
  method BuildStationVertexGroups(verts: seq<Vec3>, nb: seq<set<nat>>, maxStations: int)
    returns (r: Result<seq<seq<nat>>>, ghost dist: map<nat, nat>, ghost order: seq<nat>)
    requires |verts| > 0 && |nb| == |verts| && ValidGraph(nb)
    ensures IsBfsLayering(nb, ArgMinZ(verts), dist) && IsDiscoveryOrder(order, ArgMinZ(verts), dist)
    ensures r == StationGroupsSpec(order, dist, ArgMinZ(verts), ArgMaxZ(verts), maxStations)
    ensures r.Ok? ==>
              && 2 <= |r.value| <= maxStations
              && r.value[0] == [ArgMinZ(verts)]
              && |r.value[|r.value| - 1]| == 1
              && (forall k :: 1 <= k < |r.value| - 1 ==> 8 <= |r.value[k]| <= 16)
              && (forall s, k :: 0 <= s < |r.value| && 0 <= k < |r.value[s]| ==> r.value[s][k] < |verts|)
  {
    var dm, keys, nose, tail := ComputeTopologicalLayers(verts, nb);
    dist, order := dm, keys;
    forall i | 0 <= i < |keys| ensures keys[i] in dm {
      assert keys[i] in keys;
    }
    var buckets := BucketByDistance(keys, dm);
    r := AssembleStations(keys, dm, nose, ArgMaxZ(verts), buckets, maxStations);
    if r.Ok? {
      StationGroupsShape(order, dist, nose, ArgMaxZ(verts), maxStations);
      StationVerticesInRange(nb, nose, dist, order, ArgMaxZ(verts), maxStations);
    }
  }

  lemma MidStep(ds: seq<int>, t: nat, order: seq<nat>, dist: map<nat, nat>, tailD: int)
    requires t < |ds|
    ensures MidDistancesIn(ds[..t + 1], order, dist, tailD)
         == MidDistancesIn(ds[..t], order, dist, tailD)
            + (if IsMidDistance(order, dist, tailD, ds[t]) then [ds[t]] else [])
  {
    assert ds[..t + 1][..t] == ds[..t];
  }

  lemma LayersAtSnoc(order: seq<nat>, dist: map<nat, nat>, ds: seq<int>, d: int)
    ensures LayersAt(order, dist, ds + [d]) == LayersAt(order, dist, ds) + [Layer(order, dist, d)]
  {
  }

  /** A mid distance met at position t of the keys is the next mid station. */
  lemma MidPrefix(ds: seq<int>, t: nat, order: seq<nat>, dist: map<nat, nat>, tailD: int)
    requires t < |ds| && IsMidDistance(order, dist, tailD, ds[t])
    ensures var before := MidDistancesIn(ds[..t], order, dist, tailD);
            var all := MidDistancesIn(ds, order, dist, tailD);
            |before| < |all| && all[|before|] == ds[t]
  {
    var before := MidDistancesIn(ds[..t], order, dist, tailD);
    MidDistancesAppend(ds[..t + 1], ds[t + 1..], order, dist, tailD);
    assert ds[..t + 1] + ds[t + 1..] == ds;
    assert ds[..t + 1][..t] == ds[..t];
  }

  lemma {:induction false} MidDistancesAppend(a: seq<int>, b: seq<int>, order: seq<nat>, dist: map<nat, nat>, tailD: int)
    ensures MidDistancesIn(a + b, order, dist, tailD)
         == MidDistancesIn(a, order, dist, tailD) + MidDistancesIn(b, order, dist, tailD)
    decreases |b|
  {
    if |b| == 0 {
      assert a + b == a;
    } else {
      MidDistancesAppend(a, b[..|b| - 1], order, dist, tailD);
      assert (a + b)[..|a + b| - 1] == a + b[..|b| - 1];
    }
  }

  /** A layer holds exactly the listed vertices at that distance. */
  lemma {:induction false} LayerMembers(order: seq<nat>, dist: map<nat, nat>, d: int, w: nat)
    ensures w in Layer(order, dist, d) <==> w in order && w in dist && dist[w] == d
    decreases |order|
  {
    if |order| > 0 {
      var p := order[..|order| - 1];
      LayerMembers(p, dist, d, w);
      assert order == p + [order[|order| - 1]];
    }
  }

  /** The mid distances of an increasing key list are increasing, and each
      is a mid distance taken from the list. */
  lemma {:induction false} MidDistancesIncreasing(ds: seq<int>, order: seq<nat>, dist: map<nat, nat>, tailD: int)
    requires StrictlyIncreasing(ds)
    ensures var r := MidDistancesIn(ds, order, dist, tailD);
            && StrictlyIncreasing(r)
            && forall k :: 0 <= k < |r| ==> r[k] in ds && IsMidDistance(order, dist, tailD, r[k])
    decreases |ds|
  {
    if |ds| > 0 {
      var p := ds[..|ds| - 1];
      MidDistancesIncreasing(p, order, dist, tailD);
      var r0 := MidDistancesIn(p, order, dist, tailD);
      forall k | 0 <= k < |r0| ensures r0[k] < ds[|ds| - 1] {
        var i :| 0 <= i < |p| && p[i] == r0[k];
      }
    }
  }

  /** What a successful station grouping looks like: the nose alone first,
      then layers of 8..16 vertices at increasing distances that are neither
      0 nor the tail's, then the one-vertex tail layer, at most
      `maxStations` stations in all. */
  lemma StationGroupsShape(order: seq<nat>, dist: map<nat, nat>, nose: nat, tail: nat, maxStations: int)
    requires StationGroupsSpec(order, dist, nose, tail, maxStations).Ok?
    ensures var st := StationGroupsSpec(order, dist, nose, tail, maxStations).value;
            && tail in dist
            && 2 <= |st| <= maxStations
            && st[0] == [nose]
            && st[|st| - 1] == Layer(order, dist, dist[tail]) && |st[|st| - 1]| == 1
            && (forall k :: 1 <= k < |st| - 1 ==> 8 <= |st[k]| <= 16)
    ensures var st := StationGroupsSpec(order, dist, nose, tail, maxStations).value;
            var mids := MidDistances(order, dist, dist[tail]);
            && |mids| == |st| - 2
            && StrictlyIncreasing(mids)
            && forall k :: 0 <= k < |mids| ==>
                 && st[k + 1] == Layer(order, dist, mids[k])
                 && mids[k] != 0 && mids[k] != dist[tail]
  {
    StationGroupsOk(order, dist, nose, tail, maxStations);
    var mids := MidDistances(order, dist, dist[tail]);
    MidDistancesIncreasing(BucketKeys(order, dist), order, dist, dist[tail]);
    var st := StationGroupsSpec(order, dist, nose, tail, maxStations).value;
    var layers := LayersAt(order, dist, mids);
    Bracketed([nose], layers, Layer(order, dist, dist[tail]));
    forall k | 1 <= k < |st| - 1 ensures 8 <= |st[k]| <= 16 {
      assert st[k] == layers[k - 1];
    }
  }

  /** What a successful grouping consists of. */
  lemma StationGroupsOk(order: seq<nat>, dist: map<nat, nat>, nose: nat, tail: nat, maxStations: int)
    requires StationGroupsSpec(order, dist, nose, tail, maxStations).Ok?
    ensures tail in dist
    ensures var mids := MidDistances(order, dist, dist[tail]);
            && StationGroupsSpec(order, dist, nose, tail, maxStations).value
               == [[nose]] + LayersAt(order, dist, mids) + [Layer(order, dist, dist[tail])]
            && (forall k :: 0 <= k < |mids| ==> 8 <= |Layer(order, dist, mids[k])| <= 16)
            && |Layer(order, dist, dist[tail])| == 1
            && |mids| + 2 <= maxStations
  {
  }

  /** The entries of `[a] + m + [z]`. */
  lemma Bracketed<T>(a: T, m: seq<T>, z: T)
    ensures var s := [a] + m + [z];
            && |s| == |m| + 2 && s[0] == a && s[|s| - 1] == z
            && forall k :: 1 <= k < |s| - 1 ==> s[k] == m[k - 1]
  {
  }

  /** Every station of a successful grouping over a BFS layering names
      vertices of the graph. */
  lemma StationVerticesInRange(nb: seq<set<nat>>, root: nat, dist: map<nat, nat>, order: seq<nat>,
                               tail: nat, maxStations: int)
    requires IsBfsLayering(nb, root, dist) && IsDiscoveryOrder(order, root, dist)
    requires StationGroupsSpec(order, dist, root, tail, maxStations).Ok?
    ensures var st := StationGroupsSpec(order, dist, root, tail, maxStations).value;
            forall s, k :: 0 <= s < |st| && 0 <= k < |st[s]| ==> st[s][k] < |nb|
  {
    var st := StationGroupsSpec(order, dist, root, tail, maxStations).value;
    StationGroupsShape(order, dist, root, tail, maxStations);
    var mids := MidDistances(order, dist, dist[tail]);
    forall s, k | 0 <= s < |st| && 0 <= k < |st[s]| ensures st[s][k] < |nb| {
      if s > 0 {
        var d := if s == |st| - 1 then dist[tail] else mids[s - 1];
        assert st[s] == Layer(order, dist, d);
        LayerMembers(order, dist, d, st[s][k]);
      }
    }
  }

  /** Every station names a vertex of the mesh. */
  predicate StationsInRange(verts: seq<Vec3>, stations: seq<seq<nat>>) {
    forall s, k :: 0 <= s < |stations| && 0 <= k < |stations[s]| ==> stations[s][k] < |verts|
  }

  /** The layering facts build_pm_rings_for_mesh relies on: the face graph
      of `verts`, a BFS layering of it from the lowest-z vertex and the
      discovery order of that layering. */
  ghost predicate MeshLayering(verts: seq<Vec3>, faces: seq<seq<nat>>, nb: seq<set<nat>>,
                               dist: map<nat, nat>, order: seq<nat>) {
    && |verts| > 0 && |nb| == |verts|
    && (forall u, v :: 0 <= u < |verts| ==> (v in nb[u] <==> Adjacent(faces, u, v)))
    && IsBfsLayering(nb, ArgMinZ(verts), dist)
    && IsDiscoveryOrder(order, ArgMinZ(verts), dist)
  }

  /** Adjacency then station grouping, as build_pm_rings_for_mesh calls them. */
  method MeshStations(verts: seq<Vec3>, faces: seq<seq<nat>>)
    returns (groups: Result<seq<seq<nat>>>, ghost nb: seq<set<nat>>, ghost dist: map<nat, nat>, ghost order: seq<nat>)
    requires |verts| > 0 && ValidFaces(|verts|, faces)
    ensures MeshLayering(verts, faces, nb, dist, order)
    ensures groups == StationGroupsSpec(order, dist, ArgMinZ(verts), ArgMaxZ(verts), DefaultMaxStations)
    ensures groups.Ok? ==> StationsInRange(verts, groups.value)
  {
    var neighbors := BuildVertexAdjacency(|verts|, faces);
    nb := neighbors;
    forall u, v | 0 <= u < |neighbors| && v in neighbors[u] ensures v < |neighbors| {
      AdjacencyShape(faces, |verts|, u, v);
    }
    groups, dist, order := BuildStationVertexGroups(verts, neighbors, DefaultMaxStations);
    if groups.Ok? {
      StationVerticesInRange(nb, ArgMinZ(verts), dist, order, ArgMaxZ(verts), DefaultMaxStations);
    }
  }
}
