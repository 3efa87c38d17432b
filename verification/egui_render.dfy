/**
 * The Rust side of the UI bridge: the egui state guard, the font-atlas
 * capture and RGBA expansion, and the per-frame mesh compaction that
 * drops off-screen vertices, renumbers indices and packs colours.
 */
module EguiRender {
  import opened Optional

  /** egui's Color32, one byte per channel. */
  datatype Color32 = Color32(r: bv8, g: bv8, b: bv8, a: bv8)

  datatype Pos2 = Pos2(x: real, y: real)

  /** An epaint mesh vertex. */
  datatype MeshVertex = MeshVertex(pos: Pos2, uv: Pos2, color: Color32)

  /** The `#[repr(C)]` UIVertex shared with C++: the colour packed into a u32. */
  datatype UIVertex = UIVertex(pos: Pos2, texCoord: Pos2, color: bv32)

  type U32 = x: nat | x < 0x1_0000_0000

  datatype Mesh = Mesh(vertices: seq<MeshVertex>, indices: seq<U32>)

  /** A tessellated clipped primitive: only meshes are drawn. */
  datatype Primitive = MeshPrimitive(mesh: Mesh) | CallbackPrimitive

  /** The two global render buffers. */
  datatype Buffers = Buffers(vertices: seq<UIVertex>, indices: seq<nat>)

  // ---- Colour packing ---------------------------------------------------

  /** r in bits 0-7, g in 8-15, b in 16-23, a in 24-31. */
  function PackColor(c: Color32): bv32 {
    ((c.a as bv32) << 24) | ((c.b as bv32) << 16) | ((c.g as bv32) << 8) | (c.r as bv32)
  }

  /** Each channel sits in its own byte of the packed word. */
  lemma PackColorLayout(c: Color32)
    ensures PackColor(c) & 0xFF == c.r as bv32
    ensures (PackColor(c) >> 8) & 0xFF == c.g as bv32
    ensures (PackColor(c) >> 16) & 0xFF == c.b as bv32
    ensures (PackColor(c) >> 24) & 0xFF == c.a as bv32
  {
  }

  // ---- Vertex filtering ---------------------------------------------------

  function Abs(x: real): real {
    if x < 0.0 then -x else x
  }

  /**
   * The vertex keep-test: within 100 pixels of the screen, and not a
   * transparent vertex at the origin. (A real is always finite.)
   */
  predicate IsValidVertex(v: MeshVertex, width: real, height: real) {
    && v.pos.x >= -100.0 && v.pos.x <= width + 100.0
    && v.pos.y >= -100.0 && v.pos.y <= height + 100.0
    && !(Abs(v.pos.x) < 1.0 && Abs(v.pos.y) < 1.0 && v.color.a == 0)
  }

  function ToUIVertex(v: MeshVertex): UIVertex {
    UIVertex(v.pos, v.uv, PackColor(v.color))
  }

  /** How many of the first `i` vertices of `vs` survive the keep-test. */
  function CountBefore(vs: seq<MeshVertex>, i: nat, w: real, h: real): (n: nat)
    requires i <= |vs|
    ensures n <= i
    decreases i
  {
    if i == 0 then 0
    else CountBefore(vs, i - 1, w, h) + (if IsValidVertex(vs[i - 1], w, h) then 1 else 0)
  }

  /** How many vertices of `vs` survive the keep-test. */
  function CountValid(vs: seq<MeshVertex>, w: real, h: real): (n: nat)
    ensures n <= |vs|
  {
    CountBefore(vs, |vs|, w, h)
  }

  /** The survivors among the first `i` vertices, converted, in their original order. */
  function KeptBefore(vs: seq<MeshVertex>, i: nat, w: real, h: real): (r: seq<UIVertex>)
    requires i <= |vs|
    ensures |r| == CountBefore(vs, i, w, h)
    decreases i
  {
    if i == 0 then []
    else KeptBefore(vs, i - 1, w, h)
         + (if IsValidVertex(vs[i - 1], w, h) then [ToUIVertex(vs[i - 1])] else [])
  }

  /** The surviving vertices, converted, in their original order. */
  function Kept(vs: seq<MeshVertex>, w: real, h: real): (r: seq<UIVertex>)
    ensures |r| == CountValid(vs, w, h)
  {
    KeptBefore(vs, |vs|, w, h)
  }

  /** Entry `i` of old_to_new_idx: start plus the number of kept vertices before `i`. */
  function RemapEntry(vs: seq<MeshVertex>, start: nat, i: nat, w: real, h: real): Option<nat>
    requires i < |vs|
  {
    if IsValidVertex(vs[i], w, h) then Some(start + CountBefore(vs, i, w, h)) else None
  }

  function Remap(vs: seq<MeshVertex>, start: nat, w: real, h: real): (r: seq<Option<nat>>)
    ensures |r| == |vs|
    ensures forall i :: 0 <= i < |vs| ==> r[i] == RemapEntry(vs, start, i, w, h)
  {
    seq(|vs|, i requires 0 <= i < |vs| => RemapEntry(vs, start, i, w, h))
  }

  lemma {:induction false} CountValidMonotone(vs: seq<MeshVertex>, a: nat, b: nat, w: real, h: real)
    requires a <= b <= |vs|
    ensures CountBefore(vs, a, w, h) <= CountBefore(vs, b, w, h)
    decreases b - a
  {
    if a < b {
      CountValidMonotone(vs, a, b - 1, w, h);
    }
  }

  /** A kept vertex is counted before every later position. */
  lemma CountValidStrict(vs: seq<MeshVertex>, j: nat, i: nat, w: real, h: real)
    requires j < i <= |vs| && IsValidVertex(vs[j], w, h)
    ensures CountBefore(vs, j, w, h) < CountBefore(vs, i, w, h)
  {
    CountValidMonotone(vs, j + 1, i, w, h);
  }

  /** Kept vertex `i` lands at position CountBefore(vs, i) of the survivors of any longer prefix. */
  lemma {:induction false} KeptBeforeAt(vs: seq<MeshVertex>, n: nat, i: nat, w: real, h: real)
    requires i < n <= |vs| && IsValidVertex(vs[i], w, h)
    ensures CountBefore(vs, i, w, h) < |KeptBefore(vs, n, w, h)|
    ensures KeptBefore(vs, n, w, h)[CountBefore(vs, i, w, h)] == ToUIVertex(vs[i])
    decreases n
  {
    if i < n - 1 {
      KeptBeforeAt(vs, n - 1, i, w, h);
    }
  }

  /** Kept vertex `i` lands at position CountBefore(vs, i) of the kept sequence. */
  lemma KeptAt(vs: seq<MeshVertex>, i: nat, w: real, h: real)
    requires i < |vs| && IsValidVertex(vs[i], w, h)
    ensures CountBefore(vs, i, w, h) < |Kept(vs, w, h)|
    ensures Kept(vs, w, h)[CountBefore(vs, i, w, h)] == ToUIVertex(vs[i])
  {
    KeptBeforeAt(vs, |vs|, i, w, h);
  }

  /**
   * What old_to_new_idx promises: an entry is present exactly for kept
   * vertices, and it names that vertex's converted copy in the buffer.
   */
  lemma RemapSound(prefix: seq<UIVertex>, vs: seq<MeshVertex>, w: real, h: real)
    ensures var remap := Remap(vs, |prefix|, w, h);
            var out := prefix + Kept(vs, w, h);
            forall i :: 0 <= i < |vs| ==>
              && (remap[i].Some? <==> IsValidVertex(vs[i], w, h))
              && (remap[i].Some? ==> remap[i].value < |out| && out[remap[i].value] == ToUIVertex(vs[i]))
  {
    var remap := Remap(vs, |prefix|, w, h);
    var out := prefix + Kept(vs, w, h);
    forall i | 0 <= i < |vs| && remap[i].Some?
      ensures remap[i].value < |out| && out[remap[i].value] == ToUIVertex(vs[i])
    {
      KeptAt(vs, i, w, h);
    }
  }

  /** Kept vertices keep their relative order. */
  lemma RemapOrdered(vs: seq<MeshVertex>, start: nat, w: real, h: real)
    ensures var remap := Remap(vs, start, w, h);
            forall j, i :: 0 <= j < i < |vs| && remap[j].Some? && remap[i].Some? ==>
              remap[j].value < remap[i].value
  {
    var remap := Remap(vs, start, w, h);
    forall j, i | 0 <= j < i < |vs| && remap[j].Some? && remap[i].Some?
      ensures remap[j].value < remap[i].value
    {
      CountValidStrict(vs, j, i, w, h);
    }
  }

  // ---- Triangle emission ------------------------------------------------

  /** Source triangle `t` is complete, in range, and has three kept corners. */
  predicate TriOk(remap: seq<Option<nat>>, ind: seq<U32>, t: nat) {
    && 3 * t + 2 < |ind|
    && ind[3 * t] < |remap| && ind[3 * t + 1] < |remap| && ind[3 * t + 2] < |remap|
    && remap[ind[3 * t]].Some? && remap[ind[3 * t + 1]].Some? && remap[ind[3 * t + 2]].Some?
  }

  function TriangleOut(remap: seq<Option<nat>>, ind: seq<U32>, t: nat): seq<nat>
    requires TriOk(remap, ind, t)
  {
    [remap[ind[3 * t]].value, remap[ind[3 * t + 1]].value, remap[ind[3 * t + 2]].value]
  }

  /** The renumbered indices emitted for the first `n` source triangles. */
  function Triangles(remap: seq<Option<nat>>, ind: seq<U32>, n: nat): seq<nat>
    decreases n
  {
    if n == 0 then []
    else Triangles(remap, ind, n - 1)
         + (if TriOk(remap, ind, n - 1) then TriangleOut(remap, ind, n - 1) else [])
  }

  /** The numbers of the source triangles among the first `n` that are emitted. */
  function KeptTriangles(remap: seq<Option<nat>>, ind: seq<U32>, n: nat): seq<nat>
    decreases n
  {
    if n == 0 then []
    else KeptTriangles(remap, ind, n - 1) + (if TriOk(remap, ind, n - 1) then [n - 1] else [])
  }

  lemma {:induction false} TrianglesLength(remap: seq<Option<nat>>, ind: seq<U32>, n: nat)
    ensures |Triangles(remap, ind, n)| == 3 * |KeptTriangles(remap, ind, n)|
    decreases n
  {
    if n > 0 {
      TrianglesLength(remap, ind, n - 1);
    }
  }

  /** A source triangle is emitted iff it is complete and has three kept corners. */
  lemma {:induction false} KeptTrianglesMembers(remap: seq<Option<nat>>, ind: seq<U32>, n: nat)
    ensures forall t: nat :: t in KeptTriangles(remap, ind, n) <==> t < n && TriOk(remap, ind, t)
    decreases n
  {
    if n > 0 {
      KeptTrianglesMembers(remap, ind, n - 1);
    }
  }

  /** Emission keeps the source order of triangles. */
  lemma {:induction false} KeptTrianglesSorted(remap: seq<Option<nat>>, ind: seq<U32>, n: nat)
    ensures forall a :: 0 <= a < |KeptTriangles(remap, ind, n)| ==> KeptTriangles(remap, ind, n)[a] < n
    ensures forall a, b :: 0 <= a < b < |KeptTriangles(remap, ind, n)| ==>
              KeptTriangles(remap, ind, n)[a] < KeptTriangles(remap, ind, n)[b]
    decreases n
  {
    if n > 0 {
      KeptTrianglesSorted(remap, ind, n - 1);
      var K0 := KeptTriangles(remap, ind, n - 1);
      var K := KeptTriangles(remap, ind, n);
      assert K == K0 + (if TriOk(remap, ind, n - 1) then [n - 1] else []);
      assert forall a :: 0 <= a < |K0| ==> K0[a] < n - 1;
      assert forall a :: 0 <= a < |K0| ==> K[a] == K0[a];
      assert |K| > |K0| ==> K[|K0|] == n - 1;
      forall a | 0 <= a < |K| ensures K[a] < n {
        if a < |K0| {
          assert K[a] == K0[a];
        }
      }
      forall a, b | 0 <= a < b < |K| ensures K[a] < K[b] {
        if b < |K0| {
          assert K[a] == K0[a] && K[b] == K0[b];
        } else {
          assert K[a] == K0[a];
        }
      }
    }
  }

  /** The k-th emitted triple is the renumbering of the k-th emitted source triangle. */
  lemma {:induction false} TriangleAt(remap: seq<Option<nat>>, ind: seq<U32>, n: nat, k: nat)
    requires k < |KeptTriangles(remap, ind, n)|
    ensures var K := KeptTriangles(remap, ind, n);
            var T := Triangles(remap, ind, n);
            && TriOk(remap, ind, K[k])
            && 3 * k + 2 < |T|
            && T[3 * k] == remap[ind[3 * K[k]]].value
            && T[3 * k + 1] == remap[ind[3 * K[k] + 1]].value
            && T[3 * k + 2] == remap[ind[3 * K[k] + 2]].value
    decreases n
  {
    var K := KeptTriangles(remap, ind, n);
    var T := Triangles(remap, ind, n);
    var K0 := KeptTriangles(remap, ind, n - 1);
    var T0 := Triangles(remap, ind, n - 1);
    TrianglesLength(remap, ind, n - 1);
    TrianglesStep(remap, ind, n - 1);
    var ok := TriOk(remap, ind, n - 1);
    assert K == K0 + (if ok then [n - 1] else []);
    assert T == T0 + (if ok then TriangleOut(remap, ind, n - 1) else []);
    if k < |K0| {
      TriangleAt(remap, ind, n - 1, k);
      assert K[k] == K0[k];
      assert T[3 * k] == T0[3 * k] && T[3 * k + 1] == T0[3 * k + 1] && T[3 * k + 2] == T0[3 * k + 2];
    } else {
      assert ok && k == |K0| && K[k] == n - 1;
      assert T[3 * k..] == TriangleOut(remap, ind, n - 1);
    }
  }

  /** Renumbered indices inherit any bound that holds for every remap entry. */
  lemma {:induction false} TrianglesBounded(remap: seq<Option<nat>>, ind: seq<U32>, n: nat, bound: nat)
    requires forall i :: 0 <= i < |remap| && remap[i].Some? ==> remap[i].value < bound
    ensures forall m :: 0 <= m < |Triangles(remap, ind, n)| ==> Triangles(remap, ind, n)[m] < bound
    decreases n
  {
    if n > 0 {
      TrianglesBounded(remap, ind, n - 1, bound);
    }
  }

  /**
   * Indices past the first `n` triangles change nothing about them: cutting
   * the index list anywhere after triangle `n` leaves them as they were.
   */
  lemma {:induction false} TrailingIndicesIgnored(remap: seq<Option<nat>>, ind: seq<U32>, n: nat, m: nat)
    requires 3 * n <= m <= |ind|
    ensures Triangles(remap, ind, n) == Triangles(remap, ind[..m], n)
    decreases n
  {
    if n > 0 {
      TrailingIndicesIgnored(remap, ind, n - 1, m);
      var t := n - 1;
      assert ind[..m][3 * t] == ind[3 * t];
      assert ind[..m][3 * t + 1] == ind[3 * t + 1];
      assert ind[..m][3 * t + 2] == ind[3 * t + 2];
      var cut := ind[..m];
      assert TriOk(remap, cut, t) == TriOk(remap, ind, t);
      var step := if TriOk(remap, ind, t) then TriangleOut(remap, ind, t) else [];
      assert step == if TriOk(remap, cut, t) then TriangleOut(remap, cut, t) else [];
      assert Triangles(remap, ind, n) == Triangles(remap, ind, t) + step;
      assert Triangles(remap, cut, n) == Triangles(remap, cut, t) + step;
    }
  }

  // ---- One mesh, functional reference ----------------------------------

  /** The buffers after one mesh is appended. */
  function MeshStep(b: Buffers, mesh: Mesh, w: real, h: real): Buffers {
    var remap := Remap(mesh.vertices, |b.vertices|, w, h);
    Buffers(b.vertices + Kept(mesh.vertices, w, h),
            b.indices + Triangles(remap, mesh.indices, |mesh.indices| / 3))
  }

  /** Every index in range and whole triangles only. */
  ghost predicate WellFormed(b: Buffers) {
    && |b.indices| % 3 == 0
    && forall k :: 0 <= k < |b.indices| ==> b.indices[k] < |b.vertices|
  }

  /** Output slot `slot` names an in-range vertex that is the conversion of `v`. */
  ghost predicate CornerDrawn(out: Buffers, slot: nat, v: MeshVertex) {
    slot < |out.indices| && out.indices[slot] < |out.vertices| && out.vertices[out.indices[slot]] == ToUIVertex(v)
  }

  /** An output slot holding remap entry `i` draws source vertex `i`. */
  lemma CornerFromRemap(b: Buffers, mesh: Mesh, w: real, h: real, slot: nat, i: nat)
    requires var remap := Remap(mesh.vertices, |b.vertices|, w, h);
             var T := Triangles(remap, mesh.indices, |mesh.indices| / 3);
             && |b.indices| <= slot < |b.indices| + |T|
             && i < |mesh.vertices| && remap[i].Some?
             && T[slot - |b.indices|] == remap[i].value
    ensures CornerDrawn(MeshStep(b, mesh, w, h), slot, mesh.vertices[i])
  {
    var remap := Remap(mesh.vertices, |b.vertices|, w, h);
    var T := Triangles(remap, mesh.indices, |mesh.indices| / 3);
    var b' := MeshStep(b, mesh, w, h);
    assert b'.indices == b.indices + T;
    assert b'.indices[slot] == remap[i].value;
    KeptAt(mesh.vertices, i, w, h);
  }

  /** Corner `j` of the `k`-th emitted triangle of a mesh draws that corner's source vertex. */
  lemma MeshCorner(b: Buffers, mesh: Mesh, w: real, h: real, remap: seq<Option<nat>>, K: seq<nat>, k: nat, j: nat)
    requires remap == Remap(mesh.vertices, |b.vertices|, w, h)
    requires K == KeptTriangles(remap, mesh.indices, |mesh.indices| / 3)
    requires k < |K| && j < 3
    ensures TriOk(remap, mesh.indices, K[k])
    ensures CornerDrawn(MeshStep(b, mesh, w, h), |b.indices| + 3 * k + j, mesh.vertices[mesh.indices[3 * K[k] + j]])
  {
    var n := |mesh.indices| / 3;
    var T := Triangles(remap, mesh.indices, n);
    TriangleAt(remap, mesh.indices, n, k);
    var i := mesh.indices[3 * K[k] + j];
    assert T[3 * k + j] == remap[i].value;
    CornerFromRemap(b, mesh, w, h, |b.indices| + 3 * k + j, i);
  }

  /** A mesh only appends: what was in the buffers stays in front. */
  lemma MeshStepAppends(b: Buffers, mesh: Mesh, w: real, h: real)
    ensures var b' := MeshStep(b, mesh, w, h);
            var remap := Remap(mesh.vertices, |b.vertices|, w, h);
            && b'.vertices[..|b.vertices|] == b.vertices
            && b'.indices[..|b.indices|] == b.indices
            && |b'.vertices| == |b.vertices| + CountValid(mesh.vertices, w, h)
            && |b'.indices| == |b.indices| + 3 * |KeptTriangles(remap, mesh.indices, |mesh.indices| / 3)|
  {
    var remap := Remap(mesh.vertices, |b.vertices|, w, h);
    TrianglesLength(remap, mesh.indices, |mesh.indices| / 3);
  }

  /**
   * One mesh, end to end, for `out` the buffers after the mesh and `kept`
   * its emitted source triangles: a source triangle is emitted iff it is
   * complete with three kept corners, and the k-th emitted triangle draws
   * exactly the converted corners of the k-th emitted source triangle.
   */
  /** The three corners of the `k`-th emitted triangle of a mesh. */
  lemma MeshTriangleAt(b: Buffers, mesh: Mesh, w: real, h: real, out: Buffers,
                       remap: seq<Option<nat>>, kept: seq<nat>, k: nat)
    requires out == MeshStep(b, mesh, w, h)
    requires remap == Remap(mesh.vertices, |b.vertices|, w, h)
    requires kept == KeptTriangles(remap, mesh.indices, |mesh.indices| / 3)
    requires k < |kept|
    ensures TriOk(remap, mesh.indices, kept[k])
    ensures CornerDrawn(out, |b.indices| + 3 * k, mesh.vertices[mesh.indices[3 * kept[k]]])
    ensures CornerDrawn(out, |b.indices| + 3 * k + 1, mesh.vertices[mesh.indices[3 * kept[k] + 1]])
    ensures CornerDrawn(out, |b.indices| + 3 * k + 2, mesh.vertices[mesh.indices[3 * kept[k] + 2]])
  {
    MeshCorner(b, mesh, w, h, remap, kept, k, 0);
    MeshCorner(b, mesh, w, h, remap, kept, k, 1);
    MeshCorner(b, mesh, w, h, remap, kept, k, 2);
  }

  lemma MeshDrawsSourceTriangles(b: Buffers, mesh: Mesh, w: real, h: real,
                                 out: Buffers, remap: seq<Option<nat>>, kept: seq<nat>)
    requires out == MeshStep(b, mesh, w, h)
    requires remap == Remap(mesh.vertices, |b.vertices|, w, h)
    requires kept == KeptTriangles(remap, mesh.indices, |mesh.indices| / 3)
    ensures forall t: nat :: t in kept <==> TriOk(remap, mesh.indices, t)
    ensures forall k :: 0 <= k < |kept| ==>
              && TriOk(remap, mesh.indices, kept[k])
              && CornerDrawn(out, |b.indices| + 3 * k, mesh.vertices[mesh.indices[3 * kept[k]]])
              && CornerDrawn(out, |b.indices| + 3 * k + 1, mesh.vertices[mesh.indices[3 * kept[k] + 1]])
              && CornerDrawn(out, |b.indices| + 3 * k + 2, mesh.vertices[mesh.indices[3 * kept[k] + 2]])
  {
    var n := |mesh.indices| / 3;
    KeptTrianglesMembers(remap, mesh.indices, n);
    forall t: nat | TriOk(remap, mesh.indices, t) ensures t < n {
    }
    forall k | 0 <= k < |kept|
      ensures && TriOk(remap, mesh.indices, kept[k])
              && CornerDrawn(out, |b.indices| + 3 * k, mesh.vertices[mesh.indices[3 * kept[k]]])
              && CornerDrawn(out, |b.indices| + 3 * k + 1, mesh.vertices[mesh.indices[3 * kept[k] + 1]])
              && CornerDrawn(out, |b.indices| + 3 * k + 2, mesh.vertices[mesh.indices[3 * kept[k] + 2]])
    {
      MeshTriangleAt(b, mesh, w, h, out, remap, kept, k);
    }
  }

  /** Every emitted index stays below the vertex count, and only whole triangles are emitted. */
  lemma MeshStepWellFormed(b: Buffers, mesh: Mesh, w: real, h: real)
    requires WellFormed(b)
    ensures WellFormed(MeshStep(b, mesh, w, h))
  {
    var b' := MeshStep(b, mesh, w, h);
    var remap := Remap(mesh.vertices, |b.vertices|, w, h);
    var n := |mesh.indices| / 3;
    var T := Triangles(remap, mesh.indices, n);
    TrianglesLength(remap, mesh.indices, n);
    RemapSound(b.vertices, mesh.vertices, w, h);
    TrianglesBounded(remap, mesh.indices, n, |b'.vertices|);
    assert b'.indices == b.indices + T;
    forall k | 0 <= k < |b'.indices| ensures b'.indices[k] < |b'.vertices| {
      if k >= |b.indices| {
        assert b'.indices[k] == T[k - |b.indices|];
      }
    }
  }

  // ---- The whole frame --------------------------------------------------

  /** Buffers after the given primitives, appended one after the other. */
  function ProcessFrom(b: Buffers, prims: seq<Primitive>, w: real, h: real): Buffers
    decreases |prims|
  {
    if |prims| == 0 then b
    else
      var b1 := match prims[0]
        case MeshPrimitive(mesh) => MeshStep(b, mesh, w, h)
        case CallbackPrimitive => b;
      ProcessFrom(b1, prims[1..], w, h)
  }

  /** The frame's buffers: cleared first, so nothing of the last frame survives. */
  function RenderFrame(prims: seq<Primitive>, w: real, h: real): Buffers {
    ProcessFrom(Buffers([], []), prims, w, h)
  }

  lemma {:induction false} ProcessFromWellFormed(b: Buffers, prims: seq<Primitive>, w: real, h: real)
    requires WellFormed(b)
    ensures WellFormed(ProcessFrom(b, prims, w, h))
    decreases |prims|
  {
    if |prims| > 0 {
      match prims[0]
      case MeshPrimitive(mesh) =>
        MeshStepWellFormed(b, mesh, w, h);
        ProcessFromWellFormed(MeshStep(b, mesh, w, h), prims[1..], w, h);
      case CallbackPrimitive =>
        ProcessFromWellFormed(b, prims[1..], w, h);
    }
  }

  /** Whatever egui tessellates, the frame's index buffer is whole triangles of valid indices. */
  lemma RenderFrameWellFormed(prims: seq<Primitive>, w: real, h: real)
    ensures var b := RenderFrame(prims, w, h);
            |b.indices| % 3 == 0 && forall k :: 0 <= k < |b.indices| ==> b.indices[k] < |b.vertices|
  {
    ProcessFromWellFormed(Buffers([], []), prims, w, h);
  }

  // ---- The loops as written ---------------------------------------------

  /** The vertex loop of one mesh: keep, convert, and record old_to_new_idx. */
  method CompactVertices(prefix: seq<UIVertex>, vs: seq<MeshVertex>, w: real, h: real)
    returns (vertices: seq<UIVertex>, remap: seq<Option<nat>>)
    ensures vertices == prefix + Kept(vs, w, h)
    ensures remap == Remap(vs, |prefix|, w, h)
  {
    var start := |prefix|;
    remap := seq(|vs|, _ => None);
    var counter: nat := 0;
    vertices := prefix;
    var i := 0;
    while i < |vs|
      invariant 0 <= i <= |vs| && |remap| == |vs|
      invariant counter == CountBefore(vs, i, w, h)
      invariant vertices == prefix + KeptBefore(vs, i, w, h)
      invariant forall j :: 0 <= j < i ==> remap[j] == RemapEntry(vs, start, j, w, h)
      invariant forall j :: i <= j < |vs| ==> remap[j] == None
    {
      if IsValidVertex(vs[i], w, h) {
        vertices := vertices + [ToUIVertex(vs[i])];
        remap := remap[i := Some(start + counter)];
        counter := counter + 1;
      }
      i := i + 1;
    }
  }

  /** The `step_by(3)` index loop of one mesh. */
  method EmitTriangles(prefix: seq<nat>, remap: seq<Option<nat>>, ind: seq<U32>)
    returns (indices: seq<nat>)
    ensures indices == prefix + Triangles(remap, ind, |ind| / 3)
  {
    indices := prefix;
    var t := 0;
    ghost var n: nat := 0;
    while t < |ind|
      invariant t == 3 * n && n <= |ind| / 3 + 1
      invariant t < |ind| ==> n <= |ind| / 3
      invariant indices == prefix + Triangles(remap, ind, n)
    {
      var ok := false;
      if t + 2 < |ind| {
        var i0 := ind[t];
        var i1 := ind[t + 1];
        var i2 := ind[t + 2];
        if i0 < |remap| && i1 < |remap| && i2 < |remap| {
          if remap[i0].Some? && remap[i1].Some? && remap[i2].Some? {
            ok := true;
            indices := indices + [remap[i0].value, remap[i1].value, remap[i2].value];
          }
        }
      }
      assert ok == TriOk(remap, ind, n);
      assert ok ==> indices == prefix + Triangles(remap, ind, n) + TriangleOut(remap, ind, n);
      TrianglesStep(remap, ind, n);
      t := t + 3;
      n := n + 1;
    }
    assert n == |ind| / 3 || (n == |ind| / 3 + 1 && !TriOk(remap, ind, |ind| / 3));
    if n != |ind| / 3 {
      TrianglesStep(remap, ind, |ind| / 3);
    }
  }

  /** Unfolding `Triangles` by one source triangle. */
  lemma TrianglesStep(remap: seq<Option<nat>>, ind: seq<U32>, n: nat)
    ensures Triangles(remap, ind, n + 1)
            == Triangles(remap, ind, n) + (if TriOk(remap, ind, n) then TriangleOut(remap, ind, n) else [])
  {
  }

  /** One mesh of `egui_render`, loop for loop. */
  method ProcessMesh(b: Buffers, mesh: Mesh, w: real, h: real) returns (r: Buffers)
    ensures r == MeshStep(b, mesh, w, h)
  {
    var vertices, remap := CompactVertices(b.vertices, mesh.vertices, w, h);
    var indices := EmitTriangles(b.indices, remap, mesh.indices);
    r := Buffers(vertices, indices);
  }

  /** The tessellation loop of `egui_render`: clear, then append each mesh. */
  method RenderPrimitives(prims: seq<Primitive>, w: real, h: real) returns (b: Buffers)
    ensures b == RenderFrame(prims, w, h)
  {
    b := Buffers([], []);
    var i := 0;
    while i < |prims|
      invariant 0 <= i <= |prims|
      invariant ProcessFrom(b, prims[i..], w, h) == RenderFrame(prims, w, h)
    {
      assert prims[i..][1..] == prims[i + 1..];
      match prims[i] {
        case MeshPrimitive(mesh) =>
          b := ProcessMesh(b, mesh, w, h);
        case CallbackPrimitive =>
      }
      i := i + 1;
    }
    assert prims[i..] == [];
  }

  // ---- Font atlas -------------------------------------------------------

  /** An entry of `textures_delta.set`: an alpha font image or a colour image. */
  datatype ImageDelta =
    | FontImage(fontWidth: nat, fontHeight: nat, coverage: seq<real>)
    | ColorImage(colorWidth: nat, colorHeight: nat, pixels: seq<Color32>)

  datatype FontTexture = FontTexture(rgba: seq<bv8>, width: nat, height: nat)

  /** `(alpha * 255.0).clamp(0.0, 255.0) as u8`: clamp, then truncate. */
  function AlphaByte(alpha: real): bv8 {
    var x := alpha * 255.0;
    var c := if x < 0.0 then 0.0 else if x > 255.0 then 255.0 else x;
    assert 0 <= c.Floor <= 255;
    c.Floor as bv8
  }

  /** White pixels carrying the font coverage as alpha. */
  function ExpandAlpha(coverage: seq<real>): (r: seq<bv8>)
    ensures |r| == 4 * |coverage|
    ensures forall i :: 0 <= i < |coverage| ==>
              r[4 * i] == 255 && r[4 * i + 1] == 255 && r[4 * i + 2] == 255
              && r[4 * i + 3] == AlphaByte(coverage[i])
  {
    var white := seq(|coverage|, i requires 0 <= i < |coverage| => Color32(255, 255, 255, AlphaByte(coverage[i])));
    assert forall i :: 0 <= i < |coverage| ==> white[i] == Color32(255, 255, 255, AlphaByte(coverage[i]));
    ExpandColor(white)
  }

  /** Color32 pixels laid out as R, G, B, A bytes. */
  function ExpandColor(pixels: seq<Color32>): (r: seq<bv8>)
    ensures |r| == 4 * |pixels|
    ensures forall i :: 0 <= i < |pixels| ==>
              r[4 * i] == pixels[i].r && r[4 * i + 1] == pixels[i].g
              && r[4 * i + 2] == pixels[i].b && r[4 * i + 3] == pixels[i].a
    decreases |pixels|
  {
    if |pixels| == 0 then []
    else [pixels[0].r, pixels[0].g, pixels[0].b, pixels[0].a] + ExpandColor(pixels[1..])
  }

  /** The texture an image delta yields, if it is non-empty. */
  function TextureOf(d: ImageDelta): Option<FontTexture> {
    match d
    case FontImage(w, h, cov) =>
      if w > 0 && h > 0 && |cov| > 0 then Some(FontTexture(ExpandAlpha(cov), w, h)) else None
    case ColorImage(w, h, px) =>
      if w > 0 && h > 0 && |px| > 0 then Some(FontTexture(ExpandColor(px), w, h)) else None
  }

  /** The index of the first delta that yields a texture, or |deltas| when none does. */
  function FirstUsable(deltas: seq<ImageDelta>): (k: nat)
    ensures k <= |deltas|
    ensures forall j :: 0 <= j < k ==> TextureOf(deltas[j]).None?
    ensures k < |deltas| ==> TextureOf(deltas[k]).Some?
    decreases |deltas|
  {
    if |deltas| == 0 then 0
    else if TextureOf(deltas[0]).Some? then 0
    else
      var k := FirstUsable(deltas[1..]);
      assert forall j :: 1 <= j < |deltas| ==> deltas[1..][j - 1] == deltas[j];
      k + 1
  }

  /** The first usable delta wins (the loop breaks there). */
  function CaptureFont(deltas: seq<ImageDelta>): (r: Option<FontTexture>)
    ensures r.None? <==> forall i :: 0 <= i < |deltas| ==> TextureOf(deltas[i]).None?
    ensures r.Some? ==> exists i :: 0 <= i < |deltas| && r == TextureOf(deltas[i])
                          && forall j :: 0 <= j < i ==> TextureOf(deltas[j]).None?
  {
    var k := FirstUsable(deltas);
    if k < |deltas| then TextureOf(deltas[k]) else None
  }

  /** A captured texture holds exactly four bytes per pixel of its source. */
  lemma CapturedTextureSize(d: ImageDelta)
    requires TextureOf(d).Some?
    ensures d.FontImage? ==> |TextureOf(d).value.rgba| == 4 * |d.coverage|
    ensures d.ColorImage? ==> |TextureOf(d).value.rgba| == 4 * |d.pixels|
  {
  }

  // ---- FFI state ----------------------------------------------------------

  /** EguiState: screen size and the last pointer position. */
  datatype Context = Context(width: real, height: real, pointer: Option<Pos2>, initialized: bool)

  /**
   * The library's globals: the mutex-guarded state, the two render
   * buffers, the font texture and size, and the function-local latch
   * FONT_TEXTURE_UPDATED inside `egui_render`.
   */
  datatype Ffi = Ffi(state: Option<Context>, buffers: Buffers, font: Option<FontTexture>, fontUpdated: bool)

  const Unloaded: Ffi := Ffi(None, Buffers([], []), None, false)

  /** egui_init: true either way; a second call leaves everything as it is. */
  function EguiInit(f: Ffi): (r: (Ffi, bool))
    ensures r.1
    ensures f.state.Some? ==> r.0 == f
    ensures f.state.None? ==> r.0.state == Some(Context(1920.0, 1080.0, None, true)) && r.0.font.None?
    ensures r.0.fontUpdated == f.fontUpdated && r.0.buffers == f.buffers
  {
    if f.state.Some? then (f, true)
    else (f.(state := Some(Context(1920.0, 1080.0, None, true)), font := None), true)
  }

  function EguiCleanup(f: Ffi): Ffi {
    f.(state := None)
  }

  function EguiIsInitialized(f: Ffi): bool {
    f.state.Some? && f.state.value.initialized
  }

  function EguiSetScreenSize(f: Ffi, width: real, height: real): Ffi {
    if f.state.Some? then f.(state := Some(f.state.value.(width := width, height := height))) else f
  }

  /**
   * egui_render for a frame whose output carried `deltas` and tessellated
   * into `prims`: false without a state; otherwise capture the font once,
   * rebuild both buffers and report whether any vertex survived.
   */
  function EguiRenderFrame(f: Ffi, deltas: seq<ImageDelta>, prims: seq<Primitive>): (r: (Ffi, bool))
    ensures f.state.None? ==> r == (f, false)
    ensures f.state.Some? ==>
              && r.0.buffers == RenderFrame(prims, f.state.value.width, f.state.value.height)
              && (r.1 <==> |r.0.buffers.vertices| > 0)
    ensures f.state.Some? ==> r.0.state == f.state
    ensures f.fontUpdated ==> r.0.font == f.font && r.0.fontUpdated
    ensures f.state.Some? && !f.fontUpdated && CaptureFont(deltas).Some? ==>
              r.0.font == CaptureFont(deltas) && r.0.fontUpdated
    ensures f.state.Some? && (f.fontUpdated || CaptureFont(deltas).None?) ==>
              r.0.font == f.font && r.0.fontUpdated == f.fontUpdated
  {
    match f.state
    case None => (f, false)
    case Some(ctx) =>
      var captured := if f.fontUpdated then None else CaptureFont(deltas);
      var f1 := if captured.Some? then f.(font := captured, fontUpdated := true) else f;
      var b := RenderFrame(prims, ctx.width, ctx.height);
      (f1.(buffers := b), |b.vertices| > 0)
  }

  /** Frames in sequence, each with its texture deltas and primitives. */
  function EguiRenderFrames(f: Ffi, frames: seq<(seq<ImageDelta>, seq<Primitive>)>): (r: Ffi)
    ensures f.state.Some? ==> r.state == f.state
    ensures f.fontUpdated ==> r.font == f.font && r.fontUpdated
    decreases |frames|
  {
    if |frames| == 0 then f
    else EguiRenderFrames(EguiRenderFrame(f, frames[0].0, frames[0].1).0, frames[1..])
  }

  /**
   * The font is captured at most once: after a frame that captured one,
   * every later frame keeps that texture, whatever deltas it carries.
   */
  lemma FontCapturedOnce(f: Ffi, deltas: seq<ImageDelta>, prims: seq<Primitive>,
                         later: seq<(seq<ImageDelta>, seq<Primitive>)>)
    requires f.state.Some? && !f.fontUpdated && CaptureFont(deltas).Some?
    ensures EguiRenderFrames(EguiRenderFrame(f, deltas, prims).0, later).font == CaptureFont(deltas)
  {
  }

  /** RenderData handed to C++. */
  datatype RenderData = RenderData(verticesCount: nat, indicesCount: nat, texturesCount: nat)

  /** egui_get_render_data: false iff there is no vertex. */
  function EguiGetRenderData(f: Ffi): (r: Option<RenderData>)
    ensures r.None? <==> f.buffers.vertices == []
    ensures r.Some? ==> r.value == RenderData(|f.buffers.vertices|, |f.buffers.indices|, 1)
  {
    if |f.buffers.vertices| == 0 then None
    else Some(RenderData(|f.buffers.vertices|, |f.buffers.indices|, 1))
  }

  function EguiGetFontTextureData(f: Ffi): Option<FontTexture> {
    f.font
  }

  /**
   * The state guard: init leaves the library initialized, cleanup drops the
   * state so that every later frame returns false without touching the
   * buffers, and a screen size reaches the state only once it exists.
   */
  lemma EguiLifecycle(f: Ffi, width: real, height: real, deltas: seq<ImageDelta>, prims: seq<Primitive>)
    ensures f.state.None? || f.state.value.initialized ==> EguiIsInitialized(EguiInit(f).0)
    ensures !EguiIsInitialized(EguiCleanup(f))
    ensures EguiRenderFrame(EguiCleanup(f), deltas, prims) == (EguiCleanup(f), false)
    ensures EguiCleanup(f).buffers == f.buffers && EguiCleanup(f).font == f.font
    ensures f.state.None? ==> EguiSetScreenSize(f, width, height) == f
    ensures f.state.Some? ==> EguiSetScreenSize(f, width, height).state
                              == Some(f.state.value.(width := width, height := height))
  {
  }

  /**
   * The latch is a function-local static that egui_init never resets: once
   * a font was captured, cleanup and init lose the atlas for good, however
   * many frames later carry one.
   */
  lemma ReinitLosesFont(f: Ffi, d1: seq<ImageDelta>, d2: seq<ImageDelta>, p: seq<Primitive>)
    requires f.state.None? && !f.fontUpdated && CaptureFont(d1).Some?
    ensures var f1 := EguiRenderFrame(EguiInit(f).0, d1, p).0;
            var f2 := EguiRenderFrame(EguiInit(EguiCleanup(f1)).0, d2, p).0;
            EguiGetFontTextureData(f1).Some? && EguiGetFontTextureData(f2).None?
  {
  }
}
