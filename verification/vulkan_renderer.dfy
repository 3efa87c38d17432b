/**
 * The integer and size decisions of the Vulkan UI renderer: the memory-type
 * search, the 1 KiB buffer growth rule, the updateBuffers guards, and the
 * font-texture recreation, size guard and deferred-update flag. The Vulkan
 * calls themselves are reduced to their success or failure.
 */
module VulkanRenderer {
  import opened Optional
  import E = EguiRender

  /** VK_MAX_MEMORY_TYPES from the Vulkan 1.0 specification. */
  const MaxMemoryTypes: nat := 32

  /** size_t and VkDeviceSize are 64 bits wide. */
  const SizeModulus: nat := 0x1_0000_0000_0000_0000

  const U32Modulus: nat := 0x1_0000_0000

  type U32 = x: nat | x < 0x1_0000_0000

  /** sizeof(UIVertex): two float pairs and a packed colour. */
  const VertexStride: nat := 20

  const IndexStride: nat := 4

  /** The largest font texture edge the upload accepts. */
  const MaxFontEdge: nat := 4096

  // ---- findMemoryType -----------------------------------------------------

  /** Memory type `i` is allowed by `typeFilter` and has every requested property. */
  predicate Suitable(typeFilter: bv32, properties: bv32, typeFlags: seq<bv32>, i: nat)
    requires i < |typeFlags| <= MaxMemoryTypes
  {
    typeFilter & ((1 as bv32) << i) != 0 && typeFlags[i] & properties == properties
  }

  /**
   * The first suitable memory type of the table, or None where the source
   * throws. `typeFlags` lists the propertyFlags of the device's memory
   * types; its length is memoryTypeCount, which Vulkan bounds by 32.
   */
  method FindMemoryType(typeFilter: bv32, properties: bv32, typeFlags: seq<bv32>) returns (r: Option<nat>)
    requires |typeFlags| <= MaxMemoryTypes
    ensures r.Some? ==> r.value < |typeFlags| && Suitable(typeFilter, properties, typeFlags, r.value)
    ensures r.Some? ==> forall j :: 0 <= j < r.value ==> !Suitable(typeFilter, properties, typeFlags, j)
    ensures r.None? <==> forall j :: 0 <= j < |typeFlags| ==> !Suitable(typeFilter, properties, typeFlags, j)
  {
    var i := 0;
    while i < |typeFlags|
      invariant 0 <= i <= |typeFlags|
      invariant forall j :: 0 <= j < i ==> !Suitable(typeFilter, properties, typeFlags, j)
    {
      if typeFilter & ((1 as bv32) << i) != 0 && typeFlags[i] & properties == properties {
        assert Suitable(typeFilter, properties, typeFlags, i);
        return Some(i);
      }
      i := i + 1;
    }
    return None;
  }

  /** A filter with no bits set admits no memory type at all. */
  lemma EmptyFilterFindsNothing(properties: bv32, typeFlags: seq<bv32>)
    requires |typeFlags| <= MaxMemoryTypes
    ensures forall j :: 0 <= j < |typeFlags| ==> !Suitable(0, properties, typeFlags, j)
  {
  }

  // ---- ensureBufferSize ---------------------------------------------------

  /** A buffer handle (null or not) with the size last recorded for it. */
  datatype BufferSlot = BufferSlot(live: bool, size: nat)

  const EmptySlot := BufferSlot(false, 0)

  /**
   * How createBuffer ends: both steps succeed, vkCreateBuffer fails (the
   * handle stays null), or the buffer is made but its memory is not (the
   * handle is left set). The last two throw.
   */
  datatype CreateOutcome = Created | BufferFailed | MemoryFailed

  /** `max(((required + 1023) / 1024) * 1024, 1024)` in size_t arithmetic. */
  function RoundUpSize(required: nat): nat
    requires required < SizeModulus
  {
    var granules := ((required + 1023) % SizeModulus) / 1024;
    var rounded := granules * 1024;
    if rounded < 1024 then 1024 else rounded
  }

  /**
   * Without wrap-around the new size is the smallest multiple of 1024 that
   * is at least `required` and at least 1024.
   */
  lemma RoundUpSizeSpec(required: nat)
    requires required <= SizeModulus - 1024
    ensures var n := RoundUpSize(required);
            && n % 1024 == 0 && n >= required && n >= 1024
            && (n > 1024 ==> n - 1024 < required)
  {
    var granules := (required + 1023) / 1024;
    assert (required + 1023) % SizeModulus == required + 1023;
    assert granules * 1024 <= required + 1023 < granules * 1024 + 1024;
  }

  /** Within the top 1023 values of size_t the `+ 1023` wraps and the rule yields 1024. */
  lemma RoundUpSizeWraps()
    ensures RoundUpSize(SizeModulus - 1) == 1024
  {
  }

  /** ensureBufferSize: the slot afterwards and whether an exception escapes. */
  function EnsureBufferSize(s: BufferSlot, required: nat, create: CreateOutcome): (r: (BufferSlot, bool))
    requires required < SizeModulus
    ensures required <= s.size && s.live ==> r == (s, false)
    ensures !(required <= s.size && s.live) ==>
              match create
              case Created => r == (BufferSlot(true, RoundUpSize(required)), false)
              case BufferFailed => r == (BufferSlot(false, s.size), true)
              case MemoryFailed => r == (BufferSlot(true, s.size), true)
  {
    if required <= s.size && s.live then (s, false)
    else match create
      case Created => (BufferSlot(true, RoundUpSize(required)), false)
      case BufferFailed => (BufferSlot(false, s.size), true)
      case MemoryFailed => (BufferSlot(true, s.size), true)
  }

  /** After a call that does not throw, the buffer exists and is big enough. */
  lemma EnsureBufferSizeSuffices(s: BufferSlot, required: nat, create: CreateOutcome)
    requires required <= SizeModulus - 1024
    ensures var (s', threw) := EnsureBufferSize(s, required, create);
            !threw ==> s'.live && s'.size >= required
  {
    RoundUpSizeSpec(required);
  }

  /** A failed vkCreateBuffer leaves the handle null, so the next call reallocates. */
  lemma BufferFailureForcesReallocation(s: BufferSlot, required: nat, later: nat, create: CreateOutcome)
    requires required < SizeModulus && later < SizeModulus
    requires !(required <= s.size && s.live)
    ensures var s1 := EnsureBufferSize(s, required, BufferFailed).0;
            EnsureBufferSize(s1, later, create) ==
              match create
              case Created => (BufferSlot(true, RoundUpSize(later)), false)
              case BufferFailed => (BufferSlot(false, s.size), true)
              case MemoryFailed => (BufferSlot(true, s.size), true)
  {
  }

  /**
   * A failed memory allocation leaves the buffer handle set and the old
   * size recorded, so a later request that fits the old size returns early
   * with that buffer.
   */
  lemma MemoryFailureKeepsStaleHandle(s: BufferSlot, required: nat, later: nat, create: CreateOutcome)
    requires required < SizeModulus && later < SizeModulus && later <= s.size
    requires !(required <= s.size && s.live)
    ensures var s1 := EnsureBufferSize(s, required, MemoryFailed).0;
            s1.live && EnsureBufferSize(s1, later, create) == (s1, false)
  {
  }

  // ---- updateBuffers ------------------------------------------------------

  datatype BufferUpdate = Skipped | Threw | NullBuffers | Mapped

  /** vertexCount * sizeof(UIVertex) and indexCount * sizeof(uint32_t) in size_t. */
  function VertexBytes(vertexCount: nat): nat {
    (vertexCount * VertexStride) % SizeModulus
  }

  function IndexBytes(indexCount: nat): nat {
    (indexCount * IndexStride) % SizeModulus
  }

  /**
   * updateBuffers up to the memory mapping: nothing for an empty mesh;
   * otherwise the vertex buffer, then the index buffer, are grown, and an
   * exception from the first means the second is never touched.
   */
  function UpdateBuffers(vertex: BufferSlot, index: BufferSlot, vertexCount: nat, indexCount: nat,
                         vertexCreate: CreateOutcome, indexCreate: CreateOutcome): (r: (BufferSlot, BufferSlot, BufferUpdate))
    ensures vertexCount == 0 || indexCount == 0 ==> r == (vertex, index, Skipped)
    ensures vertexCount > 0 && indexCount > 0 ==> r.0 == EnsureBufferSize(vertex, VertexBytes(vertexCount), vertexCreate).0
    ensures vertexCount > 0 && indexCount > 0 && EnsureBufferSize(vertex, VertexBytes(vertexCount), vertexCreate).1 ==>
              r == (EnsureBufferSize(vertex, VertexBytes(vertexCount), vertexCreate).0, index, Threw)
    ensures vertexCount > 0 && indexCount > 0 && !EnsureBufferSize(vertex, VertexBytes(vertexCount), vertexCreate).1 ==>
              && r.1 == EnsureBufferSize(index, IndexBytes(indexCount), indexCreate).0
              && (r.2 == Threw <==> EnsureBufferSize(index, IndexBytes(indexCount), indexCreate).1)
  {
    if vertexCount == 0 || indexCount == 0 then (vertex, index, Skipped)
    else
      var (v, vThrew) := EnsureBufferSize(vertex, VertexBytes(vertexCount), vertexCreate);
      if vThrew then (v, index, Threw)
      else
        var (i, iThrew) := EnsureBufferSize(index, IndexBytes(indexCount), indexCreate);
        if iThrew then (v, i, Threw)
        else if !v.live || !i.live then (v, i, NullBuffers)
        else (v, i, Mapped)
  }

  /**
   * The null-buffer check never fires: a call that does not throw leaves
   * both buffers live and large enough for the requested bytes.
   */
  lemma UpdateBuffersNeverNull(vertex: BufferSlot, index: BufferSlot, vertexCount: nat, indexCount: nat,
                               vertexCreate: CreateOutcome, indexCreate: CreateOutcome)
    requires vertexCount > 0 && indexCount > 0
    requires VertexBytes(vertexCount) <= SizeModulus - 1024 && IndexBytes(indexCount) <= SizeModulus - 1024
    ensures var (v, i, outcome) := UpdateBuffers(vertex, index, vertexCount, indexCount, vertexCreate, indexCreate);
            && outcome != NullBuffers
            && (outcome == Mapped ==> v.size >= VertexBytes(vertexCount) && i.size >= IndexBytes(indexCount))
            && (outcome == Mapped || outcome == Threw)
  {
    EnsureBufferSizeSuffices(vertex, VertexBytes(vertexCount), vertexCreate);
    var v := EnsureBufferSize(vertex, VertexBytes(vertexCount), vertexCreate).0;
    EnsureBufferSizeSuffices(index, IndexBytes(indexCount), indexCreate);
  }

  /** Below 2^64 bytes the requested sizes are the plain products. */
  lemma BufferBytesExact(vertexCount: nat, indexCount: nat)
    requires vertexCount * VertexStride < SizeModulus && indexCount * IndexStride < SizeModulus
    ensures VertexBytes(vertexCount) == 20 * vertexCount && IndexBytes(indexCount) == 4 * indexCount
  {
  }

  // ---- Colour unpacking -----------------------------------------------------

  /** The renderer's byte extraction: channel k is `(c >> 8k) & 0xFF`. */
  function UnpackColor(c: bv32): E.Color32 {
    E.Color32((c & 0xFF) as bv8, ((c >> 8) & 0xFF) as bv8, ((c >> 16) & 0xFF) as bv8, ((c >> 24) & 0xFF) as bv8)
  }

  /** Unpacking recovers exactly the four bytes the Rust side packed. */
  lemma UnpackPackRoundTrip(c: E.Color32)
    ensures UnpackColor(E.PackColor(c)) == c
  {
    E.PackColorLayout(c);
  }

  // ---- Font texture ---------------------------------------------------------

  /** The font image handle and the fontImageWidth/Height fields. */
  datatype FontImage = FontImage(present: bool, width: U32, height: U32)

  const NoFontImage := FontImage(false, 0, 0)

  /**
   * How updateFontTexture ends: rejected before any work, the staging
   * createBuffer threw, the size guard abandoned the upload, or the upload
   * was submitted.
   */
  datatype FontUpload = Rejected | StagingThrew | Abandoned | Uploaded

  /** The texture is rebuilt iff there is none or its size differs. */
  predicate NeedsRecreation(f: FontImage, width: U32, height: U32) {
    !f.present || f.width != width || f.height != height
  }

  /** `width * height * 4` as computed, in 32-bit unsigned arithmetic. */
  function StagingBytes(width: U32, height: U32): nat {
    (width * height * 4) % U32Modulus
  }

  lemma StagingBytesExact(width: U32, height: U32)
    requires width <= MaxFontEdge && height <= MaxFontEdge
    ensures StagingBytes(width, height) == 4 * width * height
  {
    assert width * height <= MaxFontEdge * MaxFontEdge by {
      assert width * height <= MaxFontEdge * height <= MaxFontEdge * MaxFontEdge;
    }
  }

  /**
   * updateFontTexture: reject missing pixels or a zero edge; otherwise
   * recreate the image when needed, then create the staging buffer, and
   * only then refuse an edge above 4096. The third component is the size
   * requested for the staging buffer, None when none was requested.
   * Image creation is taken to succeed; `staging` is how the staging
   * createBuffer ends, and either failure throws out of the call.
   */
  function UpdateFontTexture(f: FontImage, hasPixels: bool, width: U32, height: U32, staging: CreateOutcome)
    : (r: (FontImage, FontUpload, Option<nat>))
    ensures !hasPixels || width == 0 || height == 0 <==> r.1 == Rejected
    ensures r.1 == Rejected ==> r.0 == f && r.2 == None
    ensures r.1 != Rejected ==> r.0 == FontImage(true, width, height) && r.2 == Some(StagingBytes(width, height))
    ensures r.1 != Rejected ==> (r.1 == StagingThrew <==> staging != Created)
    ensures r.1 != Rejected && staging == Created ==>
              (r.1 == Abandoned <==> width > MaxFontEdge || height > MaxFontEdge)
  {
    if !hasPixels || width == 0 || height == 0 then (f, Rejected, None)
    else
      var f1 := if NeedsRecreation(f, width, height) then FontImage(true, width, height) else f;
      var bytes := Some(StagingBytes(width, height));
      if staging != Created then (f1, StagingThrew, bytes)
      else if width > MaxFontEdge || height > MaxFontEdge then (f1, Abandoned, bytes)
      else (f1, Uploaded, bytes)
  }

  /**
   * With pixels, both edges in 1..4096 and the staging buffer created, the
   * texture is uploaded and staged whole: exactly 4 bytes per pixel.
   */
  lemma UploadStagesWholeImage(f: FontImage, width: U32, height: U32)
    requires 0 < width <= MaxFontEdge && 0 < height <= MaxFontEdge
    ensures var (_, outcome, bytes) := UpdateFontTexture(f, true, width, height, Created);
            outcome == Uploaded && bytes == Some(4 * width * height)
  {
    StagingBytesExact(width, height);
  }

  /**
   * The staging size is computed in 32 bits, so an oversized atlas can ask
   * for a buffer far smaller than its pixels: 32768 x 32768 requests 0 bytes.
   */
  lemma OversizeStagingWraps()
    ensures UpdateFontTexture(NoFontImage, true, 32768, 32768, Created) == (FontImage(true, 32768, 32768), Abandoned, Some(0))
  {
  }

  /** A texture of the same size is reused rather than rebuilt. */
  lemma SameSizeNotRecreated(f: FontImage, width: U32, height: U32)
    requires f.present && f.width == width && f.height == height
    ensures !NeedsRecreation(f, width, height)
    ensures forall staging :: UpdateFontTexture(f, true, width, height, staging).0 == f
  {
  }

  /**
   * The size guard runs after recreation: an oversized atlas replaces the
   * current image by one of its own size and is then never uploaded, on
   * this or any repeat call.
   */
  lemma OversizeRecreatesButNeverUploads(f: FontImage, width: U32, height: U32)
    requires width > 0 && height > 0 && (width > MaxFontEdge || height > MaxFontEdge)
    ensures var (f1, o1, _) := UpdateFontTexture(f, true, width, height, Created);
            var (f2, o2, _) := UpdateFontTexture(f1, true, width, height, Created);
            && f1 == FontImage(true, width, height) && o1 == Abandoned
            && !NeedsRecreation(f1, width, height) && f2 == f1 && o2 == Abandoned
  {
  }

  /** The FontTextureData egui hands over. */
  datatype FontData = FontData(hasData: bool, hasPixels: bool, width: U32, height: U32)

  const NoFontData := FontData(false, false, 0, 0)

  /** egui reports a texture with data and both edges non-zero. */
  predicate Usable(available: Option<FontData>) {
    available.Some? && available.value.hasData && available.value.width > 0 && available.value.height > 0
  }

  /**
   * One renderer's font bookkeeping between frames. The detection latch
   * `fontTextureDetected` is a function-local static, shared by every
   * renderer of the process, so it is passed alongside rather than kept here.
   */
  datatype FontState = FontState(image: FontImage, pending: bool, pendingData: FontData)

  /** createFontTexture() with no size: egui's atlas size when it has one, otherwise 512 x 512. */
  function InitialFontImage(available: Option<FontData>): (r: FontImage)
    ensures r.present
    ensures Usable(available) ==> r.width == available.value.width && r.height == available.value.height
    ensures !Usable(available) ==> r.width == 512 && r.height == 512
  {
    if Usable(available) then FontImage(true, available.value.width, available.value.height)
    else FontImage(true, 512, 512)
  }

  /**
   * The font part of Initialize: the image is created, and when egui
   * already has usable data it is uploaded at once. A staging failure
   * there is caught by Initialize, which returns false (None); image
   * creation is taken to succeed. Nothing is pending afterwards.
   */
  function InitializeFont(available: Option<FontData>, staging: CreateOutcome): (r: Option<FontState>)
    ensures r.Some? ==> r.value == FontState(InitialFontImage(available), false, NoFontData)
    ensures r.None? <==> Usable(available) && available.value.hasPixels && staging != Created
  {
    var image := InitialFontImage(available);
    if Usable(available) then
      var (img, outcome, _) := UpdateFontTexture(image, available.value.hasPixels, available.value.width,
                                                 available.value.height, staging);
      if outcome == StagingThrew then None else Some(FontState(img, false, NoFontData))
    else Some(FontState(image, false, NoFontData))
  }

  /**
   * The detection step inside Render: once per process, and only while
   * this renderer has nothing pending, a usable texture from egui is
   * recorded for later upload. The second component is the latch.
   */
  function DetectFontTexture(s: FontState, detected: bool, available: Option<FontData>): (r: (FontState, bool))
    ensures detected || s.pending ==> r == (s, detected)
    ensures !detected && !s.pending && Usable(available) ==>
              r == (s.(pending := true, pendingData := available.value), true)
    ensures !detected && !s.pending && !Usable(available) ==> r == (s, false)
  {
    if detected || s.pending then (s, detected)
    else if Usable(available) then (s.(pending := true, pendingData := available.value), true)
    else (s, false)
  }

  /**
   * UpdateFontTextureIfNeeded: nothing without a pending update; otherwise
   * the pending flag is cleared after the attempt, unless the staging
   * createBuffer threw out of updateFontTexture before that point, in which
   * case the update stays pending for the next frame.
   */
  function UpdateFontTextureIfNeeded(s: FontState, staging: CreateOutcome): (r: (FontState, Option<FontUpload>))
    ensures !s.pending ==> r == (s, None)
    ensures s.pending ==> r.0.pendingData == s.pendingData
    ensures s.pending ==> (r.0.pending <==> r.1 == Some(StagingThrew))
    ensures s.pending && (!s.pendingData.hasData || s.pendingData.width == 0 || s.pendingData.height == 0) ==>
              r == (s.(pending := false), None)
    ensures r.1.Some? ==>
              var u := UpdateFontTexture(s.image, s.pendingData.hasPixels, s.pendingData.width, s.pendingData.height, staging);
              r.0.image == u.0 && r.1.value == u.1
  {
    if !s.pending then (s, None)
    else if !s.pendingData.hasData || s.pendingData.width == 0 || s.pendingData.height == 0 then
      (s.(pending := false), None)
    else
      var (img, outcome, _) := UpdateFontTexture(s.image, s.pendingData.hasPixels, s.pendingData.width, s.pendingData.height, staging);
      (s.(image := img, pending := outcome == StagingThrew), Some(outcome))
  }

  /**
   * A staging failure is retried: the same data is still pending, the next
   * attempt finds the image already at its size and does not recreate it,
   * and with the staging buffer created it uploads an atlas within 4096.
   */
  lemma StagingFailureRetried(s: FontState, first: CreateOutcome, next: CreateOutcome)
    requires s.pending && UpdateFontTextureIfNeeded(s, first).1 == Some(StagingThrew)
    ensures var (s1, _) := UpdateFontTextureIfNeeded(s, first);
            && s1.pending && s1.pendingData == s.pendingData
            && !NeedsRecreation(s1.image, s.pendingData.width, s.pendingData.height)
            && (next == Created && s.pendingData.width <= MaxFontEdge && s.pendingData.height <= MaxFontEdge ==>
                  UpdateFontTextureIfNeeded(s1, next) == (s1.(pending := false), Some(Uploaded)))
  {
  }

  /** What egui reports and how the staging buffer ends, for one frame. */
  datatype FontFrame = FontFrame(available: Option<FontData>, staging: CreateOutcome)

  /**
   * A renderer over several frames: detection during Render, then
   * UpdateFontTextureIfNeeded after it. The second component is the
   * process-wide latch.
   */
  function RunFontFrames(s: FontState, detected: bool, frames: seq<FontFrame>): (r: (FontState, bool))
    ensures detected ==> r.1
    decreases |frames|
  {
    if |frames| == 0 then (s, detected)
    else
      var (s1, d1) := DetectFontTexture(s, detected, frames[0].available);
      var (s2, _) := UpdateFontTextureIfNeeded(s1, frames[0].staging);
      RunFontFrames(s2, d1, frames[1..])
  }

  /**
   * Once the latch is set, a renderer with nothing pending never changes
   * its font image again, whatever egui reports: a renderer created after
   * the first detection in the process keeps the image its Initialize made.
   */
  lemma {:induction false} LatchedRendererKeepsImage(s: FontState, frames: seq<FontFrame>)
    requires !s.pending
    ensures RunFontFrames(s, true, frames) == (s, true)
    decreases |frames|
  {
    if |frames| > 0 {
      LatchedRendererKeepsImage(s, frames[1..]);
    }
  }

  /**
   * A second renderer after re-initialization: egui_init has dropped the
   * atlas, so Initialize makes the 512 x 512 placeholder, and because the
   * latch is already set it is never replaced by the real atlas.
   */
  lemma SecondRendererKeepsPlaceholder(staging: CreateOutcome, frames: seq<FontFrame>)
    ensures InitializeFont(None, staging) == Some(FontState(FontImage(true, 512, 512), false, NoFontData))
    ensures RunFontFrames(InitializeFont(None, staging).value, true, frames).0.image == FontImage(true, 512, 512)
  {
    LatchedRendererKeepsImage(InitializeFont(None, staging).value, frames);
  }

  /**
   * The first renderer of the process, created before egui has an atlas,
   * starts from the 512 x 512 placeholder; a usable atlas of at most 4096
   * per edge is detected in one frame and uploaded after it, into an image
   * of its size, and the latch stops any later detection.
   */
  lemma FirstFontUploadedAfterFrame(staging: CreateOutcome, d: FontData, later: Option<FontData>)
    requires d.hasData && d.hasPixels && 0 < d.width <= MaxFontEdge && 0 < d.height <= MaxFontEdge
    ensures var s0 := InitializeFont(None, staging).value;
            var (s1, latch) := DetectFontTexture(s0, false, Some(d));
            var (s2, outcome) := UpdateFontTextureIfNeeded(s1, Created);
            && s0.image == FontImage(true, 512, 512)
            && latch && outcome == Some(Uploaded)
            && s2.image == FontImage(true, d.width, d.height)
            && DetectFontTexture(s2, latch, later) == (s2, true)
  {
  }
}
