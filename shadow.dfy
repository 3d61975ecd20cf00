/** The combinatorial parts of the shadow test scene (src/test3d/shadow.cpp):
    splitting mesh faces into triangles, finding the silhouette edges that
    cast the drop shadow, and the camera and player state the input event
    handlers update. */
module Shadow {

  /** A mesh vertex, identified by its address: two corners are the same
      vertex exactly when they are the same pointer. */
  type Vertex = nat

  /** A triangle with its three corners and whether it faces the light. */
  datatype STriangle = STriangle(p0: Vertex, p1: Vertex, p2: Vertex, visible: bool)

  /** An edge from a to b. */
  datatype Edge = Edge(a: Vertex, b: Vertex)

  function Corner(t: STriangle, x: nat): Vertex
    requires x < 3
  {
    if x == 0 then t.p0 else if x == 1 then t.p1 else t.p2
  }

  /** Edge x of a triangle runs from corner x to corner (x + 1) % 3. */
  function EdgeOf(t: STriangle, x: nat): Edge
    requires x < 3
  {
    if x == 0 then Edge(t.p0, t.p1) else if x == 1 then Edge(t.p1, t.p2) else Edge(t.p2, t.p0)
  }

  /** Two edges join the same two vertices, in either orientation. */
  predicate SameLine(f: Edge, e: Edge)
  {
    f == e || f == Edge(e.b, e.a)
  }

  /** Some edge of u joins the two vertices of e. */
  predicate HasEdge(u: STriangle, e: Edge)
  {
    SameLine(EdgeOf(u, 0), e) || SameLine(EdgeOf(u, 1), e) || SameLine(EdgeOf(u, 2), e)
  }

  /** Edge x of triangle i is shared with one of the first n triangles
      other than i that is visible. */
  predicate SharedAmong(ts: seq<STriangle>, i: nat, x: nat, n: nat)
    requires i < |ts| && x < 3 && n <= |ts|
  {
    n > 0 && (SharedAmong(ts, i, x, n - 1) || (n - 1 != i && ts[n - 1].visible && HasEdge(ts[n - 1], EdgeOf(ts[i], x))))
  }

  /** Edge x of triangle i is shared with another visible triangle. */
  predicate Shared(ts: seq<STriangle>, i: nat, x: nat)
    requires i < |ts| && x < 3
  {
    SharedAmong(ts, i, x, |ts|)
  }

  lemma {:induction false} SharedAmongMeans(ts: seq<STriangle>, i: nat, x: nat, n: nat)
    requires i < |ts| && x < 3 && n <= |ts|
    ensures SharedAmong(ts, i, x, n) <==> exists j :: 0 <= j < n && j != i && ts[j].visible && HasEdge(ts[j], EdgeOf(ts[i], x))
  {
    if n > 0 {
      SharedAmongMeans(ts, i, x, n - 1);
    }
  }

  /** Edge x of triangle i is shared exactly when some other visible
      triangle has an edge between the same two vertices. */
  lemma SharedMeans(ts: seq<STriangle>, i: nat, x: nat)
    requires i < |ts| && x < 3
    ensures Shared(ts, i, x) <==> exists j :: 0 <= j < |ts| && j != i && ts[j].visible && HasEdge(ts[j], EdgeOf(ts[i], x))
  {
    SharedAmongMeans(ts, i, x, |ts|);
  }

  lemma {:induction false} SharedAmongGrows(ts: seq<STriangle>, i: nat, x: nat, m: nat, n: nat)
    requires i < |ts| && x < 3 && m <= n <= |ts| && SharedAmong(ts, i, x, m)
    ensures SharedAmong(ts, i, x, n)
    decreases n
  {
    if m < n {
      SharedAmongGrows(ts, i, x, m, n - 1);
    }
  }

  /** The edges x, x + 1, ... of triangle i that no other visible triangle
      shares. */
  function KeptFrom(ts: seq<STriangle>, i: nat, x: nat): seq<Edge>
    requires i < |ts| && x <= 3
    decreases 3 - x
  {
    if x == 3 then []
    else (if Shared(ts, i, x) then [] else [EdgeOf(ts[i], x)]) + KeptFrom(ts, i, x + 1)
  }

  /** The silhouette edges triangle i contributes: none when it is not
      visible. */
  function Kept(ts: seq<STriangle>, i: nat): seq<Edge>
    requires i < |ts|
  {
    if ts[i].visible then KeptFrom(ts, i, 0) else []
  }

  /** The silhouette edges of triangles i, i + 1, ..., in triangle order
      and, within a triangle, in edge order. */
  function Silhouette(ts: seq<STriangle>, i: nat): seq<Edge>
    requires i <= |ts|
    decreases |ts| - i
  {
    if i == |ts| then [] else Kept(ts, i) + Silhouette(ts, i + 1)
  }

  /** The silhouette of all triangles. */
  function ShadowEdges(ts: seq<STriangle>): seq<Edge>
  {
    Silhouette(ts, 0)
  }

  lemma {:induction false} KeptFromMembers(ts: seq<STriangle>, i: nat, x: nat, e: Edge)
    requires i < |ts| && x <= 3
    ensures e in KeptFrom(ts, i, x) <==> exists z :: x <= z < 3 && !Shared(ts, i, z) && e == EdgeOf(ts[i], z)
    decreases 3 - x
  {
    if x < 3 {
      KeptFromMembers(ts, i, x + 1, e);
    }
  }

  /** Every unshared edge of a visible triangle i >= n is in the
      silhouette of triangles n, n + 1, .... */
  lemma {:induction false} SilhouetteHas(ts: seq<STriangle>, n: nat, i: nat, x: nat)
    requires n <= i < |ts| && x < 3 && ts[i].visible && !Shared(ts, i, x)
    ensures EdgeOf(ts[i], x) in Silhouette(ts, n)
    decreases i - n
  {
    if n < i {
      SilhouetteHas(ts, n + 1, i, x);
    } else {
      KeptFromMembers(ts, n, 0, EdgeOf(ts[i], x));
    }
  }

  /** Every edge of the silhouette of triangles n, n + 1, ... is an unshared
      edge of one of them that is visible. */
  lemma {:induction false} SilhouetteFrom(ts: seq<STriangle>, n: nat, e: Edge) returns (i: nat, x: nat)
    requires n <= |ts| && e in Silhouette(ts, n)
    ensures n <= i < |ts| && x < 3 && ts[i].visible && !Shared(ts, i, x) && e == EdgeOf(ts[i], x)
    decreases |ts| - n
  {
    assert n < |ts|;
    assert Silhouette(ts, n) == Kept(ts, n) + Silhouette(ts, n + 1);
    if e in Kept(ts, n) {
      x := KeptFromWitness(ts, n, 0, e);
      i := n;
    } else {
      i, x := SilhouetteFrom(ts, n + 1, e);
    }
  }

  lemma {:induction false} KeptFromWitness(ts: seq<STriangle>, i: nat, x: nat, e: Edge) returns (z: nat)
    requires i < |ts| && x <= 3 && e in KeptFrom(ts, i, x)
    ensures x <= z < 3 && !Shared(ts, i, z) && e == EdgeOf(ts[i], z)
    decreases 3 - x
  {
    if !Shared(ts, i, x) && e == EdgeOf(ts[i], x) {
      z := x;
    } else {
      z := KeptFromWitness(ts, i, x + 1, e);
    }
  }

  /** An edge is a silhouette edge exactly when it is edge x of a visible
      triangle i and no other visible triangle has an edge between the same
      two vertices, in either orientation. */
  lemma SilhouetteMembers(ts: seq<STriangle>, n: nat, e: Edge)
    requires n <= |ts|
    ensures e in Silhouette(ts, n) <==>
      exists i, x :: n <= i < |ts| && 0 <= x < 3 && ts[i].visible && !Shared(ts, i, x) && e == EdgeOf(ts[i], x)
  {
    if e in Silhouette(ts, n) {
      var i, x := SilhouetteFrom(ts, n, e);
    }
    if exists i, x :: n <= i < |ts| && 0 <= x < 3 && ts[i].visible && !Shared(ts, i, x) && e == EdgeOf(ts[i], x) {
      var i, x :| n <= i < |ts| && 0 <= x < 3 && ts[i].visible && !Shared(ts, i, x) && e == EdgeOf(ts[i], x);
      SilhouetteHas(ts, n, i, x);
    }
  }

  /** The edge-against-edge comparison of triangle t with triangle u: clears
      the flag of every edge of t that u also has. */
  method CompareEdges(t: STriangle, u: STriangle, useEdge: array<bool>)
    requires useEdge.Length == 3
    modifies useEdge
    ensures forall x :: 0 <= x < 3 ==> useEdge[x] == (old(useEdge[x]) && !HasEdge(u, EdgeOf(t, x)))
  {
    for x := 0 to 3
      invariant forall x' :: 0 <= x' < x ==> useEdge[x'] == (old(useEdge[x']) && !HasEdge(u, EdgeOf(t, x')))
      invariant forall x' :: x <= x' < 3 ==> useEdge[x'] == old(useEdge[x'])
    {
      var x2 := (x + 1) % 3;
      var y := 0;
      while y < 3
        invariant y <= 3
        invariant useEdge[x] == old(useEdge[x])
        invariant forall y' :: 0 <= y' < y ==> !SameLine(EdgeOf(u, y'), EdgeOf(t, x))
      {
        var y2 := (y + 1) % 3;
        if (Corner(t, x) == Corner(u, y) && Corner(t, x2) == Corner(u, y2)) || (Corner(t, x2) == Corner(u, y) && Corner(t, x) == Corner(u, y2)) {
          assert SameLine(EdgeOf(u, y), EdgeOf(t, x));
          useEdge[x] := false;
          break;
        }
        y := y + 1;
      }
    }
  }

  /** The search over the other triangles j for visible triangle i, with the
      early stop once all three edges are known to be shared. */
  method FindSharedEdges(n: nat, triangles: array<STriangle>, i: nat, useEdge: array<bool>)
    requires i < n <= triangles.Length && useEdge.Length == 3
    modifies useEdge
    ensures forall x :: 0 <= x < 3 ==> useEdge[x] == !Shared(triangles[..n], i, x)
  {
    ghost var ts := triangles[..n];
    for x := 0 to 3
      invariant forall x' :: 0 <= x' < x ==> useEdge[x']
    {
      useEdge[x] := true;
    }
    var j := 0;
    while j < n
      invariant j <= n
      invariant ts == triangles[..n]
      invariant forall x :: 0 <= x < 3 ==> useEdge[x] == !SharedAmong(ts, i, x, j)
    {
      if i == j || !triangles[j].visible {
        j := j + 1;
        continue;
      }
      CompareEdges(triangles[i], triangles[j], useEdge);
      if !useEdge[0] && !useEdge[1] && !useEdge[2] {
        SharedAmongGrows(ts, i, 0, j + 1, n);
        SharedAmongGrows(ts, i, 1, j + 1, n);
        SharedAmongGrows(ts, i, 2, j + 1, n);
        return;
      }
      j := j + 1;
    }
  }

  /** Appends edge x of t for every x whose flag is still set. */
  method AppendEdges(t: STriangle, useEdge: array<bool>, out: seq<Edge>, ghost ts: seq<STriangle>, ghost i: nat)
    returns (r: seq<Edge>)
    requires useEdge.Length == 3 && i < |ts| && ts[i] == t
    requires forall x :: 0 <= x < 3 ==> useEdge[x] == !Shared(ts, i, x)
    ensures r == out + KeptFrom(ts, i, 0)
  {
    r := out;
    for x := 0 to 3
      invariant r + KeptFrom(ts, i, x) == out + KeptFrom(ts, i, 0)
    {
      ghost var before := r;
      ghost var here := if Shared(ts, i, x) then [] else [EdgeOf(ts[i], x)];
      assert KeptFrom(ts, i, x) == here + KeptFrom(ts, i, x + 1);
      Associative(before, here, KeptFrom(ts, i, x + 1));
      if useEdge[x] {
        var x2 := (x + 1) % 3;
        r := r + [Edge(Corner(t, x), Corner(t, x2))];
      }
      assert r == before + here;
    }
  }

  /** `GetShadowEdges`: appends the silhouette edges of the first n
      triangles to result, whose earlier contents stay as they were. */
  method GetShadowEdges(n: nat, triangles: array<STriangle>, result: seq<Edge>) returns (out: seq<Edge>)
    requires n <= triangles.Length
    ensures out == result + ShadowEdges(triangles[..n])
  {
    ghost var ts := triangles[..n];
    var useEdge := new bool[3];
    out := result;
    var i := 0;
    while i < n
      invariant i <= n && ts == triangles[..n]
      invariant out + Silhouette(ts, i) == result + Silhouette(ts, 0)
    {
      SilhouetteStep(ts, i, out, result + Silhouette(ts, 0));
      out := TriangleEdges(n, triangles, i, useEdge, out, ts);
      i := i + 1;
    }
    assert out + [] == out;
  }

  /** The outer loop body of `GetShadowEdges` for triangle i. */
  method TriangleEdges(n: nat, triangles: array<STriangle>, i: nat, useEdge: array<bool>, out: seq<Edge>, ghost ts: seq<STriangle>)
    returns (r: seq<Edge>)
    requires i < n <= triangles.Length && useEdge.Length == 3 && ts == triangles[..n]
    modifies useEdge
    ensures r == out + Kept(ts, i)
  {
    if !triangles[i].visible {
      assert out + [] == out;
      return out;
    }
    FindSharedEdges(n, triangles, i, useEdge);
    r := AppendEdges(triangles[i], useEdge, out, ts, i);
  }

  lemma SilhouetteStep(ts: seq<STriangle>, i: nat, out: seq<Edge>, whole: seq<Edge>)
    requires i < |ts| && out + Silhouette(ts, i) == whole
    ensures (out + Kept(ts, i)) + Silhouette(ts, i + 1) == whole
  {
    Associative(out, Kept(ts, i), Silhouette(ts, i + 1));
  }

  lemma Associative(a: seq<Edge>, b: seq<Edge>, c: seq<Edge>)
    ensures (a + b) + c == a + (b + c)
  {
  }

  // ---------------------------------------------------------------------
  // GetTriangles

  /** A mesh face: the vertices of one polygon, in order. */
  type Face = seq<Vertex>

  /** The corner triples one face is split into: (0, 1, 2) for a triangle,
      also (0, 2, 3) for a face of four or more vertices, nothing for fewer
      than three. */
  function FaceTriangles(f: Face): (r: seq<(Vertex, Vertex, Vertex)>)
    ensures |r| == (if |f| >= 4 then 2 else if |f| == 3 then 1 else 0)
  {
    if |f| >= 4 then [(f[0], f[1], f[2]), (f[0], f[2], f[3])]
    else if |f| == 3 then [(f[0], f[1], f[2])]
    else []
  }

  /** The corner triples of all faces, face by face. */
  function Fan(faces: seq<Face>): seq<(Vertex, Vertex, Vertex)>
  {
    if faces == [] then [] else Fan(faces[..|faces| - 1]) + FaceTriangles(faces[|faces| - 1])
  }

  lemma {:induction false} FanSize(faces: seq<Face>)
    ensures |Fan(faces)| <= 2 * |faces|
  {
    if faces != [] {
      FanSize(faces[..|faces| - 1]);
    }
  }

  /** Every triangle comes from a face and has three of that face's
      vertices as corners. */
  lemma {:induction false} FanCornersFromFaces(faces: seq<Face>, k: nat)
    requires k < |Fan(faces)|
    ensures exists f :: f in faces && Fan(faces)[k].0 in f && Fan(faces)[k].1 in f && Fan(faces)[k].2 in f
  {
    var init := faces[..|faces| - 1];
    var last := faces[|faces| - 1];
    if k < |Fan(init)| {
      FanCornersFromFaces(init, k);
      var f :| f in init && Fan(init)[k].0 in f && Fan(init)[k].1 in f && Fan(init)[k].2 in f;
      assert f in faces;
    } else {
      assert Fan(faces)[k] == FaceTriangles(last)[k - |Fan(init)|];
      assert last in faces;
    }
  }

  /** The two triangles of a four-sided face, when both are visible, cast
      their shadow from the face's outline: the diagonal they share is not
      a silhouette edge. */
  lemma QuadOutline(a: Vertex, b: Vertex, c: Vertex, d: Vertex)
    requires a != b && a != c && a != d && b != c && b != d && c != d
    ensures var ts := [STriangle(a, b, c, true), STriangle(a, c, d, true)];
      ShadowEdges(ts) == [Edge(a, b), Edge(b, c), Edge(c, d), Edge(d, a)]
  {
    var ts := [STriangle(a, b, c, true), STriangle(a, c, d, true)];
    forall x | 0 <= x < 3
      ensures Shared(ts, 0, x) == HasEdge(ts[1], EdgeOf(ts[0], x))
      ensures Shared(ts, 1, x) == HasEdge(ts[0], EdgeOf(ts[1], x))
    {
      assert !SharedAmong(ts, 0, x, 0) && !SharedAmong(ts, 1, x, 0);
      assert !SharedAmong(ts, 0, x, 1);
      assert SharedAmong(ts, 1, x, 1) == HasEdge(ts[0], EdgeOf(ts[1], x));
    }
    assert Kept(ts, 0) == [Edge(a, b), Edge(b, c)];
    assert Kept(ts, 1) == [Edge(c, d), Edge(d, a)];
    assert Silhouette(ts, 2) == [];
    assert Silhouette(ts, 1) == Kept(ts, 1) + [];
  }

  /** `GetTriangles`: writes the corners of the fan triangles of the faces
      into the buffer, leaves each slot's visibility flag and every later
      slot untouched, and returns how many it wrote. */
  method GetTriangles(faces: seq<Face>, triangles: array<STriangle>) returns (count: nat)
    requires |Fan(faces)| <= triangles.Length
    modifies triangles
    ensures count == |Fan(faces)|
    ensures forall k :: 0 <= k < count ==>
      triangles[k] == STriangle(Fan(faces)[k].0, Fan(faces)[k].1, Fan(faces)[k].2, old(triangles[k].visible))
    ensures forall k :: count <= k < triangles.Length ==> triangles[k] == old(triangles[k])
  {
    var i := 0;
    for face := 0 to |faces|
      invariant i == |Fan(faces[..face])| <= triangles.Length
      invariant forall k :: 0 <= k < i ==>
        triangles[k] == STriangle(Fan(faces[..face])[k].0, Fan(faces[..face])[k].1, Fan(faces[..face])[k].2, old(triangles[k].visible))
      invariant forall k :: i <= k < triangles.Length ==> triangles[k] == old(triangles[k])
    {
      FanPrefix(faces, face + 1);
      assert faces[..face + 1][..face] == faces[..face];
      ghost var done := Fan(faces[..face]);
      assert Fan(faces[..face + 1]) == done + FaceTriangles(faces[face]);
      i := WriteFace(faces[face], triangles, i);
    }
    assert faces[..|faces|] == faces;
    count := i;
  }

  /** The triangles of one face written from slot i on; returns the next
      free slot. */
  method WriteFace(f: Face, triangles: array<STriangle>, i: nat) returns (next: nat)
    requires i + |FaceTriangles(f)| <= triangles.Length
    modifies triangles
    ensures next == i + |FaceTriangles(f)|
    ensures forall k :: i <= k < next ==>
      triangles[k] == STriangle(FaceTriangles(f)[k - i].0, FaceTriangles(f)[k - i].1, FaceTriangles(f)[k - i].2, old(triangles[k].visible))
    ensures forall k :: 0 <= k < triangles.Length && !(i <= k < next) ==> triangles[k] == old(triangles[k])
  {
    var m := 0;
    if |f| >= 3 {
      m := m + 1;
    }
    if |f| >= 4 {
      m := m + 1;
    }
    next := i;
    for u := 0 to m
      invariant next == i + u
      invariant forall k :: i <= k < next ==>
        triangles[k] == STriangle(FaceTriangles(f)[k - i].0, FaceTriangles(f)[k - i].1, FaceTriangles(f)[k - i].2, old(triangles[k].visible))
      invariant forall k :: 0 <= k < triangles.Length && !(i <= k < next) ==> triangles[k] == old(triangles[k])
    {
      var corners := if u == 0 then (f[0], f[1], f[2]) else (f[0], f[2], f[3]);
      triangles[next] := triangles[next].(p0 := corners.0, p1 := corners.1, p2 := corners.2);
      next := next + 1;
    }
  }

  /** The fan of the first n faces is a prefix of the fan of all faces. */
  lemma {:induction false} FanPrefix(faces: seq<Face>, n: nat)
    requires n <= |faces|
    ensures |Fan(faces[..n])| <= |Fan(faces)|
    decreases |faces| - n
  {
    if n < |faces| {
      FanPrefix(faces, n + 1);
      assert faces[..n + 1][..n] == faces[..n];
    } else {
      assert faces[..n] == faces;
    }
  }

  // ---------------------------------------------------------------------
  // The scene's camera and input state

  /** The nearest the camera may come to the player. */
  const MinDistance: real := 0.5

  /** How far the camera pitch may turn either way. */
  const MaxPitch: real := 1.5

  /** SDL key codes and the left-button mask of a motion event's state. */
  const KeySpace: int := 32
  const KeyB: int := 98
  const KeyN: int := 110
  const KeyZ: int := 122
  const LeftButtonMask: bv32 := 1

  /** The camera distance after the wheel turned by wheelY (positive
      zooms in). */
  function Zoom(dist: real, wheelY: int): (r: real)
    ensures r >= MinDistance
    ensures dist - 0.3 * wheelY as real >= MinDistance ==> r == dist - 0.3 * wheelY as real
    ensures dist - 0.3 * wheelY as real < MinDistance ==> r == MinDistance
  {
    var d := dist - 0.3 * wheelY as real;
    if d < MinDistance then MinDistance else d
  }

  /** Turning the wheel further in never puts the camera further away. */
  lemma ZoomMonotone(dist: real, w1: int, w2: int)
    requires w1 <= w2
    ensures Zoom(dist, w2) <= Zoom(dist, w1)
  {
  }

  /** The pitch after an update, kept within [-MaxPitch, MaxPitch]. */
  function ClampPitch(a: real): (r: real)
    ensures -MaxPitch <= r <= MaxPitch
    ensures -MaxPitch <= a <= MaxPitch ==> r == a
    ensures a > MaxPitch ==> r == MaxPitch
    ensures a < -MaxPitch ==> r == -MaxPitch
  {
    var b := if a > MaxPitch then MaxPitch else a;
    if b < -MaxPitch then -MaxPitch else b
  }

  /** The state a key event may change: the vertical speed and the three
      display toggles. */
  datatype KeyState = KeyState(vy: real, showBones: bool, showNormals: bool, showTriangles: bool)

  /** A keyboard event: whether the key went down, and its key code. */
  datatype KeyEvent = KeyEvent(down: bool, sym: int)

  /** The effect of a key event: on key-down, space jumps while on the
      ground, and b, n and z each flip one toggle; nothing else changes. */
  function KeyEffect(e: KeyEvent, onGround: bool, s: KeyState): (r: KeyState)
    ensures !e.down ==> r == s
    ensures r.vy != s.vy ==> e.down && e.sym == KeySpace && onGround && r.vy == 15.0
    ensures r.showBones != s.showBones ==> e.down && e.sym == KeyB
    ensures r.showNormals != s.showNormals ==> e.down && e.sym == KeyN
    ensures r.showTriangles != s.showTriangles ==> e.down && e.sym == KeyZ
    ensures e.down && e.sym == KeySpace && onGround ==> r == s.(vy := 15.0)
    ensures e.down && e.sym == KeyB ==> r == s.(showBones := !s.showBones)
    ensures e.down && e.sym == KeyN ==> r == s.(showNormals := !s.showNormals)
    ensures e.down && e.sym == KeyZ ==> r == s.(showTriangles := !s.showTriangles)
  {
    if !e.down then s
    else if e.sym == KeySpace && onGround then s.(vy := 15.0)
    else if e.sym == KeyB then s.(showBones := !s.showBones)
    else if e.sym == KeyN then s.(showNormals := !s.showNormals)
    else if e.sym == KeyZ then s.(showTriangles := !s.showTriangles)
    else s
  }

  /** Pressing a toggle key twice puts the toggles back. */
  lemma ToggleTwice(sym: int, onGround: bool, s: KeyState)
    requires sym == KeyB || sym == KeyN || sym == KeyZ
    ensures KeyEffect(KeyEvent(true, sym), onGround, KeyEffect(KeyEvent(true, sym), onGround, s)) == s
  {
  }

  /** `ShadowScene`: the camera angles and distance, the player's vertical
      speed and ground contact, and the display toggles. */
  class ShadowScene {
    var frame: int
    var angleX: real
    var angleY: real
    var distCamera: real
    var vy: real
    var onGround: bool
    var touchDown: bool
    var showBones: bool
    var showNormals: bool
    var showTriangles: bool

    /** The camera stays at least MinDistance away and its pitch within
        [-MaxPitch, MaxPitch]. */
    predicate Valid()
      reads this
    {
      distCamera >= MinDistance && -MaxPitch <= angleX <= MaxPitch
    }

    function Keys(): KeyState
      reads this
    {
      KeyState(vy, showBones, showNormals, showTriangles)
    }

    constructor ()
      ensures frame == 0 && angleX == 0.3 && angleY == 0.0 && distCamera == 7.0 && vy == 0.0
      ensures !onGround && !touchDown && !showBones && !showNormals && !showTriangles
      ensures Valid()
    {
      frame := 0;
      angleX := 0.3;
      angleY := 0.0;
      distCamera := 7.0;
      vy := 0.0;
      onGround := false;
      touchDown := false;
      showBones := false;
      showNormals := false;
      showTriangles := false;
    }

    /** Zooms by the wheel's vertical turn, never nearer than MinDistance. */
    method OnMouseWheel(wheelY: int)
      modifies this
      ensures distCamera == Zoom(old(distCamera), wheelY)
      ensures frame == old(frame) && angleX == old(angleX) && angleY == old(angleY) && Keys() == old(Keys())
      ensures onGround == old(onGround) && touchDown == old(touchDown)
      ensures old(Valid()) ==> Valid()
    {
      distCamera := distCamera - 0.3 * wheelY as real;
      if distCamera < MinDistance {
        distCamera := MinDistance;
      }
    }

    /** Flips a display toggle or makes the player jump. */
    method OnKeyPress(e: KeyEvent)
      modifies this
      ensures Keys() == KeyEffect(e, old(onGround), old(Keys()))
      ensures frame == old(frame) && angleX == old(angleX) && angleY == old(angleY) && distCamera == old(distCamera)
      ensures onGround == old(onGround) && touchDown == old(touchDown)
      ensures old(Valid()) ==> Valid()
    {
      if e.down {
        if e.sym == KeySpace && onGround {
          vy := 15.0;
        } else if e.sym == KeyB {
          showBones := !showBones;
        } else if e.sym == KeyN {
          showNormals := !showNormals;
        } else if e.sym == KeyZ {
          showTriangles := !showTriangles;
        }
      }
    }

    /** Turns the camera while the left button is held: yaw by 0.01 per
        pixel across, pitch by 0.01 per pixel down, clamped. */
    method OnMouseMove(state: bv32, xrel: int, yrel: int)
      modifies this
      ensures state & LeftButtonMask != 0 ==>
        angleY == old(angleY) + 0.01 * xrel as real && angleX == ClampPitch(old(angleX) + 0.01 * yrel as real)
      ensures state & LeftButtonMask == 0 ==> angleY == old(angleY) && angleX == old(angleX)
      ensures frame == old(frame) && distCamera == old(distCamera) && Keys() == old(Keys())
      ensures onGround == old(onGround) && touchDown == old(touchDown)
      ensures old(Valid()) ==> Valid()
    {
      if state & LeftButtonMask != 0 {
        angleY := angleY + 0.01 * xrel as real;
        angleX := angleX + 0.01 * yrel as real;
        if angleX > MaxPitch {
          angleX := MaxPitch;
        }
        if angleX < -MaxPitch {
          angleX := -MaxPitch;
        }
      }
    }
  }
}
