# Engine core logic in Dafny

This project models the sequential logic inside a small C++/Rust game engine
modelled on Unreal. Each component is a pure state-transition system over
immutable datatypes, with the properties the engine's code relies on proved
about it. The components are:

- the render command queue, a FIFO of deferred closures with a permanent
  shutdown flag (`RenderCommandQueue`);
- the thread manager's lifecycle flags, loop guards, delta clamp and
  game/render dispatch (`ThreadManager`);
- the Rust UI bridge (`EguiRender`), covering:
  - the egui state guard;
  - font-atlas capture and RGBA expansion;
  - per-frame mesh compaction, which drops off-screen vertices, renumbers
    indices through an old-to-new map, keeps only whole triangles and packs
    colours into a u32;
- the Vulkan UI renderer's integer decisions (`VulkanRenderer`):
  - the first-match memory-type search over the device's memory-type table
    (Device Memory section of the Vulkan 1.0 specification, at most
    VK_MAX_MEMORY_TYPES = 32 entries);
  - the 1 KiB buffer-growth rule;
  - the updateBuffers guards;
  - font-texture recreation, the 4096 edge limit and the deferred-update
    flag;
- UObject flags (a 32-bit mask), the root-set bit, the pending-kill latch,
  and identity from a global 32-bit id counter (`UObject`);
- the UClass superclass chain and name-keyed class registry (`UClass`);
- the UI layer:
  - the IPanel widget list and its render/update traversals (`UIBase`);
  - the UIManager panel and window registries, visibility and draw order
    (`UIManager`);
  - the console panel's 1000-entry log buffer (`ConsolePanel`);
- input edge detection over the 512 key and 8 mouse-button arrays
  (`InputManager`);
- the storage layout of the column-major 4x4 matrix (`Matrix`);
- the log's routing decisions: verbosity filter, helpers that bypass it,
  stderr/stdout choice, Fatal abort, level names and colours (`Log`).

How things are represented:

- Closures, threads and GPU calls are not modelled as code. A queued
  closure is a record of what it does when invoked: return, throw a
  std::exception, or be an empty function, and which commands it enqueues
  meanwhile.
- The calling thread is a parameter.
- Each createBuffer call, for the vertex, index and staging buffers, is an
  outcome parameter: success, buffer failure or memory failure.
- Hash-map iteration order is a parameter that must list every key exactly
  once.
- Integer widths are explicit where they matter: size_t products and the
  `+ 1023` rounding wrap modulo 2^64, the u32 staging size and the object id
  counter wrap modulo 2^32, and flags are `bv32`. The Rust side's u32 vertex
  indices are the exception: they are unbounded (see "Left out").

## Model

| member | source | states |
|---|---|---|
| RenderCommandQueue.EventFor | Engine/Core/Threading/RenderCommandQueue.cpp:55-61 | an empty function is skipped, a throwing closure is caught, anything else ran |
| RenderCommandQueue.Events | Engine/Core/Threading/RenderCommandQueue.cpp:53-64 | the trace of a drained batch has one event per command, in order |
| RenderCommandQueue.EventsAppend | Engine/Core/Threading/RenderCommandQueue.cpp:53-64 | the trace of two batches run back to back is the first trace followed by the second |
| RenderCommandQueue.Enqueue | Engine/Core/Threading/RenderCommandQueue.cpp:10-22 | after shutdown the queue is unchanged; before, exactly the given command is added at the tail; the flag is untouched |
| RenderCommandQueue.EnqueueBatch | Engine/Core/Threading/RenderCommandQueue.cpp:24-37 | after shutdown nothing changes; before, the whole batch follows the existing commands in batch order |
| RenderCommandQueue.EnqueueEachIsBatch | Engine/Core/Threading/RenderCommandQueue.cpp:10-37 | enqueueing commands one at a time is the same as enqueueing them as one batch |
| RenderCommandQueue.NoReentryNoSpawn | Engine/Core/Threading/RenderCommandQueue.cpp:53-64 | a batch whose closures enqueue nothing leaves nothing behind |
| RenderCommandQueue.RunOne | Engine/Core/Threading/RenderCommandQueue.cpp:54-62 | running one command yields its event, and what the closure enqueued is appended even when it threw |
| RenderCommandQueue.Drain | Engine/Core/Threading/RenderCommandQueue.cpp:53-64 | the batch runs front to back, every command once, and the queue ends up holding exactly what the closures enqueued |
| RenderCommandQueue.ExecuteAll | Engine/Core/Threading/RenderCommandQueue.cpp:39-69 | every pending command runs exactly once in FIFO order, a throw does not stop the rest, and the queue is empty afterwards unless a closure re-enqueued |
| RenderCommandQueue.Clear | Engine/Core/Threading/RenderCommandQueue.cpp:77-81 | the queue is emptied, nothing runs, and the shutdown flag is kept |
| RenderCommandQueue.IsEmptyIffSizeZero | Engine/Core/Threading/RenderCommandQueue.cpp:83-91 | IsEmpty holds iff Size is 0 iff nothing is pending |
| RenderCommandQueue.Shutdown | Engine/Core/Threading/RenderCommandQueue.cpp:104-108 | the flag is set and the queue emptied |
| RenderCommandQueue.ShutdownIsPermanent | Engine/Core/Threading/RenderCommandQueue.cpp:11-14 | once shut down, every later sequence of calls leaves the queue shut and empty |
| RenderCommandQueue.OpsPreserveValid | Engine/Core/Threading/RenderCommandQueue.cpp:10-108 | no sequence of calls produces a shut-down queue that still holds commands |
| RenderCommandQueue.FifoAcrossDrains | Engine/Core/Threading/RenderCommandQueue.cpp:24-64 | two rounds of enqueue-then-drain execute the first batch then the second, each command once |
| RenderCommandQueue.TotalWeightAppend | Engine/Core/Threading/RenderCommandQueue.cpp:71-75 | the number of executions a set of commands causes (themselves plus what they spawn) adds up over concatenation |
| RenderCommandQueue.WeightSplit | Engine/Core/Threading/RenderCommandQueue.cpp:71-75 | a command's executions are itself plus those of what it enqueues |
| RenderCommandQueue.SpawnedWeight | Engine/Core/Threading/RenderCommandQueue.cpp:71-75 | one drain consumes one execution per pending command; the rest remain in what was spawned |
| RenderCommandQueue.ExecuteUntilEmpty | Engine/Core/Threading/RenderCommandQueue.cpp:71-75 | the loop ends with an empty queue; the commands initially pending run first, in order, and the total run count is their weight; without re-entry exactly the pending commands run |
| ThreadManager.Initialize | Engine/Core/Threading/ThreadManager.cpp:16-57 | a second Initialize changes nothing; a first one leaves the manager initialized, not shutting down, both loops running and both thread ids recorded |
| ThreadManager.Shutdown | Engine/Core/Threading/ThreadManager.cpp:59-88 | nothing happens unless initialized and not already shutting down; otherwise shutting-down is set, the command queue is shut down, the loops stop and initialized ends false |
| ThreadManager.ShutdownIdempotent | Engine/Core/Threading/ThreadManager.cpp:60-62 | a second Shutdown is a no-op |
| ThreadManager.InitializeThenQueries | Engine/Core/Threading/ThreadManager.cpp:16-57 | after Initialize, the recorded threads answer the thread queries, both loop guards pass, and a repeat Initialize changes nothing |
| ThreadManager.ShutdownStopsLoops | Engine/Core/Threading/ThreadManager.cpp:102 | after a completed Shutdown neither loop guard passes |
| ThreadManager.ReinitializeKeepsQueueShut | Engine/Core/Threading/ThreadManager.cpp:25 | Initialize after Shutdown runs the loops again but the command queue stays shut, so work deferred to the render thread is dropped |
| ThreadManager.LoopContinues | Engine/Core/Threading/ThreadManager.cpp:152 | a loop continues only while running and never while shutting down |
| ThreadManager.ClampDelta | Engine/Core/Threading/ThreadManager.cpp:158-160 | the delta passed to a tick never exceeds 0.1 and is unchanged when it is at most 0.1 |
| ThreadManager.RenderIteration | Engine/Core/Threading/ThreadManager.cpp:152-168 | one render iteration ticks with the clamped delta iff a tick is set, then drains the queue exactly once, last; nothing but the queue changes |
| ThreadManager.RenderIterationDrains | Engine/Core/Threading/ThreadManager.cpp:163-168 | the drain of an iteration runs the pending commands followed by what the render tick enqueued, and the queue is what that drain leaves |
| ThreadManager.RenderTickWorkDrainedSameIteration | Engine/Core/Threading/ThreadManager.cpp:163-168 | commands the render tick enqueues run, in order, in the drain of the same iteration and leave the queue empty |
| ThreadManager.GameIteration | Engine/Core/Threading/ThreadManager.cpp:102-134 | one game iteration ticks with the clamped delta iff a tick is set, and the commands the tick enqueues are queued |
| ThreadManager.RenderLoop | Engine/Core/Threading/ThreadManager.cpp:152-180 | while the guard passes there is one iteration per frame and every one is a tick of at most 0.1 (if set) then one drain; otherwise nothing happens; only the queue changes |
| ThreadManager.RenderLoopShape | Engine/Core/Threading/ThreadManager.cpp:152-169 | each iteration of the loop, by index, is a tick of at most 0.1 (if set) then exactly one drain |
| ThreadManager.GameToRenderHandOff | Engine/Core/Threading/ThreadManager.cpp:113-115 | what a game tick enqueues is executed, in order and completely, by the next render iteration |
| ThreadManager.RunInline | Engine/Core/Threading/ThreadManager.cpp:196 | an inline call keeps what the closure enqueued and reports to the caller whether it returned normally |
| ThreadManager.ExecuteInRenderThread | Engine/Core/Threading/ThreadManager.cpp:205-212 | on the render thread the closure runs inline; from any other thread it is enqueued as a Custom command |
| ThreadManager.ExecuteInGameThread | Engine/Core/Threading/ThreadManager.cpp:194-203 | the closure runs inline whatever the calling thread |
| ThreadManager.DispatchAsymmetry | Engine/Core/Threading/ThreadManager.cpp:194-212 | game dispatch gives the same result from any thread, while render dispatch runs inline on the render thread and defers from elsewhere |
| EguiRender.PackColorLayout | Engine/UI/Rust/src/lib.rs:253-257 | the packed colour holds r in bits 0-7, g in 8-15, b in 16-23 and a in 24-31 |
| EguiRender.CountValid | Engine/UI/Rust/src/lib.rs:251-276 | no more vertices survive than the mesh has |
| EguiRender.Kept | Engine/UI/Rust/src/lib.rs:267-275 | one output vertex per surviving input vertex |
| EguiRender.Remap | Engine/UI/Rust/src/lib.rs:248 | the old-to-new map has one entry per source vertex; a kept vertex maps to start plus the number of kept vertices before it |
| EguiRender.CountValidMonotone | Engine/UI/Rust/src/lib.rs:274 | the kept count never decreases along the mesh |
| EguiRender.CountValidStrict | Engine/UI/Rust/src/lib.rs:274 | a kept vertex raises the count for every later position |
| EguiRender.KeptBeforeAt | Engine/UI/Rust/src/lib.rs:268-274 | among the survivors of any longer prefix, kept vertex i sits at the number of survivors before it |
| EguiRender.KeptAt | Engine/UI/Rust/src/lib.rs:268-274 | kept vertex i sits at the position its map entry names, converted unchanged |
| EguiRender.RemapSound | Engine/UI/Rust/src/lib.rs:262-275 | a map entry exists iff the vertex passed the keep-test, and it names that vertex's converted copy in the buffer |
| EguiRender.RemapOrdered | Engine/UI/Rust/src/lib.rs:247-275 | kept vertices keep their relative order |
| EguiRender.TrianglesLength | Engine/UI/Rust/src/lib.rs:278-290 | three indices are emitted per emitted triangle |
| EguiRender.KeptTrianglesMembers | Engine/UI/Rust/src/lib.rs:279-290 | a source triangle is emitted iff it is complete, its indices are in range and all three corners were kept |
| EguiRender.KeptTrianglesSorted | Engine/UI/Rust/src/lib.rs:278 | triangles are emitted in source order |
| EguiRender.TriangleAt | Engine/UI/Rust/src/lib.rs:280-289 | the k-th emitted triple is the renumbering of the k-th emitted source triangle's corners |
| EguiRender.TrianglesBounded | Engine/UI/Rust/src/lib.rs:285-289 | every emitted index is one of the map's values, so any bound on those bounds them |
| EguiRender.TrailingIndicesIgnored | Engine/UI/Rust/src/lib.rs:278-279 | cutting the index list anywhere after triangle n leaves the first n triangles unchanged, so a trailing one or two indices are ignored |
| EguiRender.CornerFromRemap | Engine/UI/Rust/src/lib.rs:273-289 | an output index slot holding a vertex's map entry draws that vertex |
| EguiRender.MeshCorner | Engine/UI/Rust/src/lib.rs:273-289 | each corner of an emitted triangle draws the converted source vertex that the triangle named |
| EguiRender.MeshTriangleAt | Engine/UI/Rust/src/lib.rs:244-290 | each emitted triangle of a mesh draws exactly the converted corners of its source triangle |
| EguiRender.MeshStepAppends | Engine/UI/Rust/src/lib.rs:247-290 | a mesh only appends to both buffers, by its kept vertices and three indices per emitted triangle |
| EguiRender.MeshDrawsSourceTriangles | Engine/UI/Rust/src/lib.rs:244-290 | one mesh end to end: emitted iff complete with three kept corners, and the k-th output triangle draws the k-th emitted source triangle |
| EguiRender.MeshStepWellFormed | Engine/UI/Rust/src/lib.rs:273-291 | after a mesh the index buffer is whole triangles and every index is below the vertex count |
| EguiRender.ProcessFromWellFormed | Engine/UI/Rust/src/lib.rs:244-297 | the well-formed buffers stay well formed over any sequence of primitives |
| EguiRender.RenderFrameWellFormed | Engine/UI/Rust/src/lib.rs:236-298 | the buffers are cleared and rebuilt each frame, and the index buffer is a multiple of 3 long with every index in range |
| EguiRender.CompactVertices | Engine/UI/Rust/src/lib.rs:247-276 | the vertex loop produces exactly the kept vertices and the old-to-new map |
| EguiRender.EmitTriangles | Engine/UI/Rust/src/lib.rs:278-293 | the step_by(3) loop emits exactly the renumbered whole triangles |
| EguiRender.ProcessMesh | Engine/UI/Rust/src/lib.rs:246-294 | the two loops of one mesh compute the reference mesh step |
| EguiRender.RenderPrimitives | Engine/UI/Rust/src/lib.rs:236-298 | the tessellation loop computes the reference frame, skipping non-mesh primitives |
| EguiRender.ExpandAlpha | Engine/UI/Rust/src/lib.rs:174-181 | an alpha font image becomes exactly 4 bytes per pixel, R=G=B=255 and A the clamped coverage byte |
| EguiRender.ExpandColor | Engine/UI/Rust/src/lib.rs:204-208 | a colour image becomes its R, G, B, A bytes, 4 per pixel, in pixel order |
| EguiRender.FirstUsable | Engine/UI/Rust/src/lib.rs:163-220 | the index where the capture loop stops: every earlier delta is unusable and the one there, if any, is usable |
| EguiRender.CaptureFont | Engine/UI/Rust/src/lib.rs:159-233 | no texture is captured iff no delta is usable; otherwise the first usable delta's texture is |
| EguiRender.CapturedTextureSize | Engine/UI/Rust/src/lib.rs:174-208 | a captured texture has 4 bytes per source pixel |
| EguiRender.EguiInit | Engine/UI/Rust/src/lib.rs:66-103 | returns true either way; an existing state is left alone; otherwise a 1920x1080 state is made and the font data is cleared |
| EguiRender.EguiLifecycle | Engine/UI/Rust/src/lib.rs:107-113 | init leaves the library initialized, cleanup makes later frames return false without touching the buffers, and a screen size is stored only once a state exists |
| EguiRender.EguiRenderFrame | Engine/UI/Rust/src/lib.rs:147-320 | without a state it returns false; otherwise the state is kept, both buffers are rebuilt and the result says whether any vertex survived; once the latch is set it stays set and the font is kept, and before that the first usable delta is captured and sets the latch, or nothing changes when there is none |
| EguiRender.EguiRenderFrames | Engine/UI/Rust/src/lib.rs:147-320 | over any run of frames the state is kept, and a set latch keeps the captured font |
| EguiRender.FontCapturedOnce | Engine/UI/Rust/src/lib.rs:156-159 | after a frame that captured a font, every later frame keeps that texture whatever deltas it carries |
| EguiRender.EguiGetRenderData | Engine/UI/Rust/src/lib.rs:324-337 | false iff the vertex buffer is empty; otherwise the counts are the buffer lengths and one texture |
| EguiRender.ReinitLosesFont | Engine/UI/Rust/src/lib.rs:156-159 | the capture latch survives cleanup and re-init, so the re-initialized library never captures the atlas again |
| VulkanRenderer.FindMemoryType | Engine/UI/VulkanRenderer.cpp:41-53 | the smallest index allowed by the filter with every requested property, or failure iff there is none |
| VulkanRenderer.EmptyFilterFindsNothing | Engine/UI/VulkanRenderer.cpp:46 | a type filter with no bits admits no memory type |
| VulkanRenderer.RoundUpSizeSpec | Engine/UI/VulkanRenderer.cpp:567 | without wrap-around the new size is the least multiple of 1024 that is at least the request and at least 1024 |
| VulkanRenderer.RoundUpSizeWraps | Engine/UI/VulkanRenderer.cpp:567 | near the top of size_t the rounding wraps and yields 1024, below the request |
| VulkanRenderer.EnsureBufferSize | Engine/UI/VulkanRenderer.cpp:548-582 | a live buffer that is big enough is kept; otherwise success records the rounded size, and a failure rethrows with the old size still recorded |
| VulkanRenderer.EnsureBufferSizeSuffices | Engine/UI/VulkanRenderer.cpp:551-572 | a call that does not throw leaves a live buffer of at least the requested size |
| VulkanRenderer.BufferFailureForcesReallocation | Engine/UI/VulkanRenderer.cpp:556-563 | after a failed buffer creation the handle is null, so the next call always reallocates |
| VulkanRenderer.MemoryFailureKeepsStaleHandle | Engine/UI/VulkanRenderer.cpp:569-581 | after a failed memory allocation the handle stays set with the old size, so a later fitting request returns early |
| VulkanRenderer.UpdateBuffers | Engine/UI/VulkanRenderer.cpp:584-600 | nothing happens when either count is 0; otherwise the vertex buffer is grown first, a throw there returns with the index buffer untouched, and otherwise the index buffer is grown and the call throws iff that does |
| VulkanRenderer.UpdateBuffersNeverNull | Engine/UI/VulkanRenderer.cpp:584-600 | a call that does not throw leaves both buffers live and large enough |
| VulkanRenderer.BufferBytesExact | Engine/UI/VulkanRenderer.cpp:595-596 | below 2^64 the requested sizes are 20 bytes per vertex and 4 per index |
| VulkanRenderer.UnpackPackRoundTrip | Engine/UI/VulkanRenderer.cpp:734-738 | the renderer's byte extraction recovers the four channels the Rust side packed |
| VulkanRenderer.StagingBytesExact | Engine/UI/VulkanRenderer.cpp:960 | for edges within 4096 the staging size is exactly 4 bytes per pixel |
| VulkanRenderer.UpdateFontTexture | Engine/UI/VulkanRenderer.cpp:898-1031 | missing pixels or a zero edge are rejected with no change and no staging buffer; otherwise the image ends at the given size and a staging buffer of the 32-bit `w*h*4` is requested; the call throws iff that creation fails, and otherwise the upload is abandoned iff an edge exceeds 4096 |
| VulkanRenderer.UploadStagesWholeImage | Engine/UI/VulkanRenderer.cpp:960-966 | an atlas with both edges in 1..4096 whose staging buffer is created is uploaded, from a staging buffer of exactly 4 bytes per pixel |
| VulkanRenderer.OversizeStagingWraps | Engine/UI/VulkanRenderer.cpp:960 | a 32768 x 32768 atlas requests a 0-byte staging buffer, then is abandoned |
| VulkanRenderer.SameSizeNotRecreated | Engine/UI/VulkanRenderer.cpp:905-906 | an existing image of the same size is not recreated |
| VulkanRenderer.OversizeRecreatesButNeverUploads | Engine/UI/VulkanRenderer.cpp:905-1031 | an oversized atlas replaces the image with one of its size and is never uploaded, on any repeat either |
| VulkanRenderer.InitialFontImage | Engine/UI/VulkanRenderer.cpp:354-377 | the image Initialize creates has egui's atlas size when egui has usable data, otherwise 512 x 512 |
| VulkanRenderer.InitializeFont | Engine/UI/VulkanRenderer.cpp:117-138 | Initialize leaves nothing pending and the image at its initial size; it fails iff egui already had usable data with pixels and the staging buffer for its upload could not be created |
| VulkanRenderer.DetectFontTexture | Engine/UI/VulkanRenderer.cpp:655-666 | a usable egui texture is recorded as pending only while the process-wide latch is clear and this renderer has nothing pending, and doing so sets the latch; otherwise nothing changes |
| VulkanRenderer.UpdateFontTextureIfNeeded | Engine/UI/VulkanRenderer.cpp:1087-1111 | nothing happens without a pending update; otherwise an upload is attempted only for data with both edges non-zero, and the pending flag stays set iff the staging creation threw before it is cleared |
| VulkanRenderer.StagingFailureRetried | Engine/UI/VulkanRenderer.cpp:1104-1110 | after a staging failure the same data stays pending, the image is not recreated again, and a next attempt whose staging succeeds uploads an atlas within 4096 |
| VulkanRenderer.FirstFontUploadedAfterFrame | Engine/UI/VulkanRenderer.cpp:655-666 | the process's first renderer, created before egui has an atlas, starts from the 512 x 512 placeholder, detects a usable atlas in one frame, uploads it after that frame into an image of its size, and never detects again |
| VulkanRenderer.RunFontFrames | Engine/UI/VulkanRenderer.cpp:655-666 | over a run of frames (detect during Render, then UpdateFontTextureIfNeeded) a set latch stays set |
| VulkanRenderer.LatchedRendererKeepsImage | Engine/UI/VulkanRenderer.cpp:655-656 | once the process-wide latch is set, a renderer with nothing pending keeps its font image and state through any frames |
| VulkanRenderer.SecondRendererKeepsPlaceholder | Engine/UI/VulkanRenderer.cpp:655 | a renderer made after re-initialization, when egui has no atlas yet, keeps the 512 x 512 placeholder for good, because the latch is already set |
| UObject.NamedFlagsAreSingleBits | Engine/Core/Object/UObject.h:11-24 | the eleven named flags are bits 0 through 10 |
| UObject.NamedFlagsDisjoint | Engine/Core/Object/UObject.h:11-24 | distinct named flags share no bit |
| UObject.HasAnyFlagsBitwise | Engine/Core/Object/UObject.h:63-65 | HasAnyFlags holds iff the object and the query share a set bit |
| UObject.HasAllFlagsBitwise | Engine/Core/Object/UObject.h:67-69 | HasAllFlags holds iff every bit of the query is set on the object |
| UObject.NoFlagsQueries | Engine/Core/Object/UObject.h:63-69 | HasAnyFlags(RF_NoFlags) is always false and HasAllFlags(RF_NoFlags) always true |
| UObject.SetFlags | Engine/Core/Object/UObject.h:71-73 | afterwards every requested flag is set |
| UObject.SetFlagsKeepsSetBits | Engine/Core/Object/UObject.h:71-73 | SetFlags keeps every previously set bit |
| UObject.SetFlagsLeavesOthers | Engine/Core/Object/UObject.h:71-73 | SetFlags changes no bit outside the request |
| UObject.SetFlagsBitwise | Engine/Core/Object/UObject.h:71-73 | bit by bit, SetFlags is set union |
| UObject.ClearFlags | Engine/Core/Object/UObject.h:75-77 | afterwards none of the requested flags is set |
| UObject.ClearFlagsLeavesOthers | Engine/Core/Object/UObject.h:75-77 | ClearFlags changes no bit outside the request |
| UObject.ClearFlagsOnlyClears | Engine/Core/Object/UObject.h:75-77 | ClearFlags sets no new bit |
| UObject.ClearFlagsBitwise | Engine/Core/Object/UObject.h:75-77 | bit by bit, ClearFlags is set difference |
| UObject.DecimalString | Engine/Core/Object/UObject.cpp:16 | std::to_string gives a non-empty string of digits with no leading zero |
| UObject.ParseDecimalString | Engine/Core/Object/UObject.cpp:16 | reading the decimal string back gives the id |
| UObject.DefaultNameEncodesId | Engine/Core/Object/UObject.cpp:9-16 | the default name is "UObject_" followed by the id, so distinct ids give distinct names |
| UObject.Construct | Engine/Core/Object/UObject.cpp:5-17 | a new object takes the counter's value as its id, the counter advances by one modulo 2^32, and the object has no flags, no outer, is enabled and not pending kill |
| UObject.ConstructManyIds | Engine/Core/Object/UObject.cpp:5-8 | until the counter wraps, successive objects get consecutive ids |
| UObject.ConstructManyAt | Engine/Core/Object/UObject.cpp:5-17 | until the counter wraps, the i-th of a run of objects is exactly the object a single construction with id start + i makes |
| UObject.ConstructManyIncreasing | Engine/Core/Object/UObject.cpp:5-8 | until the counter wraps, ids are strictly increasing |
| UObject.CounterWraps | Engine/Core/Object/UObject.cpp:8 | after the largest id the uint32 counter wraps to 0 |
| UObject.AddToRoot | Engine/Core/Object/UObject.cpp:23-27 | IsRootSet becomes true and no other flag bit or field changes |
| UObject.RemoveFromRoot | Engine/Core/Object/UObject.cpp:29-33 | IsRootSet becomes false and no other flag bit or field changes |
| UObject.PendingKillIsPermanent | Engine/Core/Object/UObject.h:99-101 | once marked pending kill an object stays invalid under every operation, and no operation changes its id |
| UObject.EqualityIsIdentity | Engine/Core/Object/UObject.h:112-118 | an object compares equal to itself after any sequence of changes, since equality is the id alone |
| UClass.Chain | Engine/Core/Object/UClass.cpp:26-33 | the walked chain starts at the class, stays among existing earlier classes and ends at a root |
| UClass.IsChildOf | Engine/Core/Object/UClass.cpp:23-34 | false for null, otherwise true iff the other class is on the superclass chain |
| UClass.ChainReflexive | Engine/Core/Object/UClass.cpp:26-29 | a class is a child of itself |
| UClass.ChainOfMemberIsSuffix | Engine/Core/Object/UClass.cpp:26-33 | the chain of any ancestor lies inside the original chain |
| UClass.ChainTransitive | Engine/Core/Object/UClass.cpp:26-33 | IsChildOf is transitive |
| UClass.NotChildOfLater | Engine/Core/Object/UClass.cpp:26-33 | a class is never a child of a class made after it |
| UClass.RegisterClass | Engine/Core/Object/UClass.cpp:36-41 | null is ignored; otherwise the class's name is bound to it, replacing any earlier entry |
| UClass.Construct | Engine/Core/Object/UClass.cpp:7-13 | a new class is registered under its name at once and other names are unaffected |
| UClass.Destroy | Engine/Core/Object/UClass.cpp:15-21 | the entry for the name is removed only if it still names this class; other names are unaffected |
| UClass.FindClass | Engine/Core/Object/UClass.cpp:43-49 | the registered class for the name, or null iff none is registered |
| UClass.EqualityIgnoresHierarchy | Engine/Core/Object/UClass.h:22-24 | classes with the same name are equal whatever their superclasses |
| UClass.StepConsistent | Engine/Core/Object/UClass.cpp:12-49 | each registry operation keeps every entry naming an existing class of that name, and only adds classes |
| UClass.RunConsistent | Engine/Core/Object/UClass.cpp:43-49 | over any history, FindClass is null for a name no class was ever made with |
| UClass.LaterClassSurvivesEarlierDestruction | Engine/Core/Object/UClass.cpp:15-21 | with two classes of one name, destroying the earlier leaves the later one registered |
| UIBase.ContainsEdges | Engine/UI/UIBase.h:30-32 | Contains is inclusive on all four edges and false outside them |
| UIBase.NewObjectDefaults | Engine/UI/UIBase.h:71-72 | widgets and panels start visible and enabled; windows start resizable, movable and not minimized |
| UIBase.AddWidget | Engine/UI/UIBase.cpp:5-9 | null is ignored; otherwise the widget is appended at the end |
| UIBase.Without | Engine/UI/UIBase.cpp:13-18 | removal never lengthens the list and leaves no occurrence of the widget |
| UIBase.WithoutCounts | Engine/UI/UIBase.cpp:11-19 | removal deletes every occurrence of the widget and keeps every other entry as often as before |
| UIBase.WithoutAppend | Engine/UI/UIBase.cpp:13-18 | removal distributes over concatenation, so the survivors keep their order |
| UIBase.WithoutAbsent | Engine/UI/UIBase.cpp:13-18 | removing a widget that is not in the list changes nothing |
| UIBase.RemoveWidget | Engine/UI/UIBase.cpp:11-19 | afterwards the widget is gone and every other entry occurs as often as before |
| UIBase.RemoveWidgetKeepsOrder | Engine/UI/UIBase.cpp:11-19 | removal preserves order (it distributes over any split of the list) and leaves a list without the widget unchanged |
| UIBase.AddRemoveRoundTrip | Engine/UI/UIBase.cpp:5-19 | adding a widget that was not present and removing it restores the panel |
| UIBase.ClearWidgets | Engine/UI/UIBase.cpp:21-23 | the list ends empty |
| UIBase.SelectedMembers | Engine/UI/UIBase.cpp:29-33 | a child is visited iff some non-null entry points at it and it passes the visible/enabled test |
| UIBase.SelectedAppend | Engine/UI/UIBase.cpp:29-33 | the traversal visits list order: visiting a concatenation visits the first part then the second |
| UIBase.SelectedCounts | Engine/UI/UIBase.cpp:29-33 | a picked widget is called once per list entry naming it, an unpicked one never |
| UIBase.RenderPanel | Engine/UI/UIBase.cpp:25-34 | an invisible panel renders nothing; a visible one renders exactly its non-null visible children, each once per list entry |
| UIBase.UpdatePanel | Engine/UI/UIBase.cpp:36-45 | a disabled panel updates nothing; an enabled one updates exactly its non-null enabled children, each once per list entry |
| UIBase.HiddenPanelStillUpdates | Engine/UI/UIBase.cpp:26-37 | Update is gated on enabled, not visible |
| UIBase.RenderAfterAdd | Engine/UI/UIBase.cpp:5-34 | a widget added to a visible panel is rendered last, after the existing ones |
| UIManager.Initialize | Engine/UI/UIManager.cpp:15-28 | the manager ends initialized and its registries are untouched |
| UIManager.Shutdown | Engine/UI/UIManager.cpp:30-42 | an uninitialized manager is unchanged; otherwise both registries are emptied and initialized ends false |
| UIManager.RegistrationOutlivesUninitializedShutdown | Engine/UI/UIManager.cpp:30-42 | Shutdown before Initialize keeps registrations; Shutdown after it drops them |
| UIManager.SetShowDebugOverlay | Engine/UI/UIManager.h:51 | sets the overlay flag and nothing else |
| UIManager.RegisterPanel | Engine/UI/UIManager.cpp:96-104 | a null panel is refused; otherwise the name is bound, replacing any earlier panel, and no other name changes |
| UIManager.UnregisterPanel | Engine/UI/UIManager.cpp:106-112 | the name is gone afterwards, other names are unaffected, and an unknown name is a no-op |
| UIManager.GetPanel | Engine/UI/UIManager.cpp:114-120 | the registered panel, or null iff the name is unregistered |
| UIManager.RegisterWindow | Engine/UI/UIManager.cpp:122-130 | a null window is refused; otherwise the name is bound, replacing any earlier window |
| UIManager.UnregisterWindow | Engine/UI/UIManager.cpp:132-138 | the name is gone afterwards, other names are unaffected, and an unknown name is a no-op |
| UIManager.GetWindow | Engine/UI/UIManager.cpp:140-146 | the registered window, or null iff the name is unregistered |
| UIManager.RegistriesAreSeparate | Engine/UI/UIManager.cpp:96-146 | a name can be both a panel and a window, and removing one leaves the other |
| UIManager.RegisterUnregister | Engine/UI/UIManager.cpp:96-112 | registering then unregistering a name is the same as unregistering it |
| UIManager.WithPanelVisible | Engine/UI/UIManager.cpp:151 | SetVisible changes the panel's visibility and nothing else |
| UIManager.WithWindowVisible | Engine/UI/UIManager.cpp:172 | SetVisible changes the window's visibility and nothing else |
| UIManager.SetPanelVisible | Engine/UI/UIManager.cpp:148-160 | a registered panel gets the requested visibility, others are untouched, and an unknown name is a no-op |
| UIManager.ShowPanel | Engine/UI/UIManager.cpp:148-153 | afterwards the panel is visible iff it is registered |
| UIManager.HidePanel | Engine/UI/UIManager.cpp:155-160 | afterwards the panel is not visible |
| UIManager.TogglePanel | Engine/UI/UIManager.cpp:162-167 | a registered panel's visibility flips; an unknown name is a no-op |
| UIManager.TogglePanelTwice | Engine/UI/UIManager.cpp:162-167 | toggling twice restores the manager exactly |
| UIManager.SetWindowVisible | Engine/UI/UIManager.cpp:169-181 | a registered window gets the requested visibility, others are untouched, and an unknown name is a no-op |
| UIManager.ShowWindow | Engine/UI/UIManager.cpp:169-174 | afterwards the window is visible iff it is registered |
| UIManager.HideWindow | Engine/UI/UIManager.cpp:176-181 | afterwards the window is not visible |
| UIManager.ToggleWindow | Engine/UI/UIManager.cpp:183-188 | a registered window's visibility flips; an unknown name is a no-op |
| UIManager.ToggleWindowTwice | Engine/UI/UIManager.cpp:183-188 | toggling twice restores the manager exactly |
| UIManager.PanelVisibilityIndependentOfWindows | Engine/UI/UIManager.cpp:148-204 | showing or hiding a panel never changes the window of the same name |
| UIManager.PanelVisibility | Engine/UI/UIManager.cpp:190-196 | IsPanelVisible for every registered panel |
| UIManager.WindowVisibility | Engine/UI/UIManager.cpp:198-204 | IsWindowVisible for every registered window |
| UIManager.VisibleInOrder | Engine/UI/UIManager.cpp:48-59 | an iteration visits exactly the registered visible names |
| UIManager.PanelCalls | Engine/UI/UIManager.cpp:50 | one panel call per visited name, in order |
| UIManager.WindowCalls | Engine/UI/UIManager.cpp:57 | one window call per visited name, in order |
| UIManager.Update | Engine/UI/UIManager.cpp:44-60 | an uninitialized manager updates nothing |
| UIManager.UpdatePanels | Engine/UI/UIManager.cpp:47-52 | an initialized manager updates exactly the visible panels |
| UIManager.UpdateWindows | Engine/UI/UIManager.cpp:54-59 | an initialized manager updates exactly the visible windows |
| UIManager.UpdatePanelsFirst | Engine/UI/UIManager.cpp:44-60 | every panel is updated before every window |
| UIManager.PanelsBeforeWindows | Engine/UI/UIManager.cpp:44-60 | in panel calls followed by window calls, no window call precedes a panel call |
| UIManager.PanelCallsMembers | Engine/UI/UIManager.cpp:48-52 | a panel is called iff its name was visited |
| UIManager.WindowCallsMembers | Engine/UI/UIManager.cpp:55-59 | a window is called iff its name was visited |
| UIManager.MenuBarCall | Engine/UI/UIManager.cpp:69-72 | at most one call, on the MenuBar panel |
| UIManager.OverlayCall | Engine/UI/UIManager.cpp:82-87 | at most one call, on the DebugOverlay panel |
| UIManager.StatusBarCall | Engine/UI/UIManager.cpp:90-93 | at most one call, on the StatusBar panel |
| UIManager.Render | Engine/UI/UIManager.cpp:62-94 | an uninitialized manager renders nothing |
| UIManager.RenderPanels | Engine/UI/UIManager.cpp:68-93 | Render reaches only MenuBar and StatusBar when registered and visible, and DebugOverlay when registered and the flag is set |
| UIManager.RenderWindows | Engine/UI/UIManager.cpp:74-79 | Render reaches exactly the visible windows |
| UIManager.RenderLayering | Engine/UI/UIManager.cpp:62-94 | a visible MenuBar comes first, before every window, and a visible StatusBar comes last |
| UIManager.HiddenOverlayStillRendered | Engine/UI/UIManager.cpp:82-87 | a hidden DebugOverlay is still rendered while the flag is on |
| InputManager.AllUp | Engine/Input/InputManager.h:58-63 | the state arrays start all false |
| InputManager.InitialValid | Engine/Input/InputManager.h:58-73 | the initial state has 512 keys and 8 buttons and reports no key pressed, just pressed or released |
| InputManager.KeyEdges | Engine/Input/InputManager.cpp:82-95 | out-of-range keys read as up; just-pressed and released are never both true; each implies the current state; with no edge the key is as it was |
| InputManager.ButtonEdges | Engine/Input/InputManager.cpp:97-105 | out-of-range buttons read as up, and just-pressed implies pressed |
| InputManager.ApplyAction | Engine/Input/InputManager.cpp:164-168 | PRESS sets, RELEASE clears, any other action keeps the state |
| InputManager.KeyCallback | Engine/Input/InputManager.cpp:161-170 | only the named in-range key changes, by the action rule; an out-of-range key changes nothing |
| InputManager.MouseButtonCallback | Engine/Input/InputManager.cpp:172-181 | only the named button in [0, 8) changes, by the action rule; others change nothing |
| InputManager.CursorPosCallback | Engine/Input/InputManager.cpp:183-187 | the cursor position is replaced and keys, buttons and scroll are kept |
| InputManager.ScrollCallback | Engine/Input/InputManager.cpp:189-192 | the stored scroll is the latest offset and nothing else changes |
| InputManager.ScrollOverwrites | Engine/Input/InputManager.cpp:189-192 | of two scroll events only the second survives |
| InputManager.SetMouseLocked | Engine/Input/InputManager.cpp:147-158 | the lock is set and the next locked frame starts afresh |
| InputManager.Update | Engine/Input/InputManager.cpp:18-25 | the current key and button arrays are copied into the last-frame arrays |
| InputManager.UpdateClearsEdges | Engine/Input/InputManager.cpp:18-25 | straight after Update no key is just pressed or released, no button is just pressed, and held keys stay held |
| InputManager.PressAfterUpdateIsJustPressed | Engine/Input/InputManager.cpp:87-95 | a press after Update is just pressed, a release of a held key is released, and a repeat is not a new press |
| InputManager.GetCameraInputState | Engine/Input/InputManager.cpp:121-145 | W forward, S backward, D left, A right, Space or E up, LeftShift or Q down; mouse position, scroll and buttons copied |
| InputManager.CameraMapping | Engine/Input/InputManager.cpp:127-129 | pressing D, not A, moves the camera left, and E alone lifts it |
| ConsolePanel.NewConsole | Engine/UI/Panels/ConsolePanel.cpp:7-15 | a resizable, movable "Output Log" window holding exactly the two start-up lines in order |
| ConsolePanel.AddLog | Engine/UI/Panels/ConsolePanel.cpp:28-38 | the entry goes at the back with timestamp 0; past 1000 entries only the oldest is dropped; scroll-to-bottom is set when auto-scroll is on and kept otherwise |
| ConsolePanel.ClearLogs | Engine/UI/Panels/ConsolePanel.cpp:40-42 | the log ends empty and nothing else changes |
| ConsolePanel.LastN | Engine/UI/Panels/ConsolePanel.h:58 | the window of at most n newest elements is a suffix of the sequence |
| ConsolePanel.AsEntries | Engine/UI/Panels/ConsolePanel.cpp:29 | one entry per added line |
| ConsolePanel.LastNStep | Engine/UI/Panels/ConsolePanel.cpp:29-33 | trimming before appending one element and trimming again equals trimming once |
| ConsolePanel.AddLogIsLastN | Engine/UI/Panels/ConsolePanel.cpp:29-33 | one AddLog on a log within capacity keeps the newest 1000 entries |
| ConsolePanel.LogIsLastThousand | Engine/UI/Panels/ConsolePanel.cpp:28-33 | however many lines are added, the log is exactly the last 1000 of everything added, in order |
| ConsolePanel.LastNOfLastN | Engine/UI/Panels/ConsolePanel.cpp:31-33 | trimming, appending more and trimming again equals trimming once |
| ConsolePanel.GetLogColor | Engine/UI/Panels/ConsolePanel.cpp:56-71 | Info white, Warning yellow, Error red, Verbose grey, each iff that level, always opaque |
| Matrix.Index | Engine/Core/Math/Matrix.h:47-48 | element (row, col) is stored at row + 4 col, inside the 16 elements |
| Matrix.IndexBijective | Engine/Core/Math/Matrix.h:47-48 | every storage index belongs to exactly one (row, col) |
| Matrix.Fill | Engine/Core/Math/Matrix.cpp:13-15 | every element holds the value |
| Matrix.Zero | Engine/Core/Math/Matrix.cpp:36-38 | every element is 0 |
| Matrix.FromRows | Engine/Core/Math/Matrix.cpp:17-28 | argument (row r, column c) is element (r, c) |
| Matrix.FromRowsIsTranspose | Engine/Core/Math/Matrix.cpp:23-27 | the written-out arguments, read as storage, are the transpose |
| Matrix.Identity | Engine/Core/Math/Matrix.cpp:30-34 | ones exactly at indices 0, 5, 10 and 15, zero elsewhere |
| Matrix.IdentityDiagonal | Engine/Core/Math/Matrix.cpp:30-34 | the ones of Identity are exactly where IsIdentity's `i % 5 == 0` test expects them, the diagonal |
| Matrix.Translation | Engine/Core/Math/Matrix.cpp:40-46 | the vector sits at indices 12-14 and everything else is the identity |
| Matrix.GetTranslation | Engine/Core/Math/Matrix.cpp:134-136 | the first three rows of the fourth column |
| Matrix.TranslationRoundTrip | Engine/Core/Math/Matrix.cpp:40-46 | GetTranslation reads a translation's vector back unchanged, and zero from the identity |
| Matrix.GetRow | Engine/Core/Math/Matrix.cpp:110-112 | the four elements of the row, by column |
| Matrix.GetColumn | Engine/Core/Math/Matrix.cpp:114-117 | the four elements of the column, by row |
| Matrix.SetRow | Engine/Core/Math/Matrix.cpp:119-124 | the row takes the vector and the other rows are unchanged |
| Matrix.SetColumn | Engine/Core/Math/Matrix.cpp:126-132 | the column takes the vector and the other columns are unchanged |
| Matrix.RowRoundTrip | Engine/Core/Math/Matrix.cpp:110-124 | SetRow then GetRow returns the vector, other rows read as before, and writing back a row changes nothing |
| Matrix.ColumnRoundTrip | Engine/Core/Math/Matrix.cpp:114-132 | SetColumn then GetColumn returns the vector, other columns read as before, and writing back a column changes nothing |
| Matrix.RowOfTransposeIsColumn | Engine/Core/Math/Matrix.cpp:265-273 | a row of the transpose is the matching column |
| Matrix.Transposed | Engine/Core/Math/Matrix.cpp:265-273 | element (i, j) of the result is element (j, i) of the input |
| Matrix.TransposeInvolution | Engine/Core/Math/Matrix.cpp:265-273 | transposing twice gives the original |
| Matrix.IdentityIsSymmetric | Engine/Core/Math/Matrix.cpp:30-34 | the identity is its own transpose |
| Matrix.TransposedLoop | Engine/Core/Math/Matrix.cpp:267-271 | the nested loop computes the transpose |
| Matrix.Inverse | Engine/Core/Math/Matrix.cpp:291-303 | it fails iff the determinant's magnitude is below 0.0001, leaving the output as it was; otherwise it writes the identity |
| Matrix.Abs | Engine/Core/Math/Matrix.cpp:293 | the magnitude of its argument |
| Matrix.InversedIsIdentity | Engine/Core/Math/Matrix.cpp:305-311 | Inversed is the identity whichever branch Inverse takes |
| Matrix.FailedInverseKeepsOut | Engine/Core/Math/Matrix.cpp:293-295 | a singular matrix leaves the caller's output untouched |
| Matrix.IsIdentityLoop | Engine/Core/Math/Matrix.cpp:338-346 | the loop answers true iff every element is strictly within tolerance of the identity's |
| Matrix.IdentityIsIdentity | Engine/Core/Math/Matrix.cpp:338-346 | the identity passes at every positive tolerance, and a far translation fails |
| Log.GetVerbosityString | Engine/Core/Log.cpp:115-126 | a name other than "Unknown" iff the level is one of the seven named ones |
| Log.VerbosityStringsDistinct | Engine/Core/Log.cpp:115-126 | the seven named levels have seven distinct names |
| Log.GetVerbosityColor | Engine/Core/Log.cpp:128-139 | the reset colour iff the level is not a named one |
| Log.VerbosityColors | Engine/Core/Log.cpp:128-139 | Verbose and VeryVerbose share a colour, and every other pair of named levels differs |
| Log.InternalLog | Engine/Core/Log.cpp:74-93 | to the console iff console output is on, to stderr iff at Warning or more severe, to the file iff it is enabled and open, and abort iff Fatal |
| Log.LogMessage | Engine/Core/Log.cpp:32-39 | written iff the verbosity is at most the minimum |
| Log.HelperLevel | Engine/Core/Log.cpp:142-182 | every helper writes at a named level from Fatal to Verbose |
| Log.LogWith | Engine/Core/Log.cpp:142-182 | a helper writes at its own level |
| Log.SetVerbosity | Engine/Core/Log.h:45 | changes the minimum and nothing else |
| Log.HelpersBypassFilter | Engine/Core/Log.cpp:142-182 | a helper writes even when the filter drops everything, where FLog::Log at that level is dropped |
| Log.InfoIsLogLevel | Engine/Core/Log.cpp:170-175 | Info writes at level Log, which the default Display filter drops for FLog::Log |
| Log.FatalAborts | Engine/Core/Log.cpp:87-93 | a Fatal line always aborts, and no other helper aborts |
| Log.NoLoggingIsWritten | Engine/Core/Log.cpp:33 | FLog::Log at NoLogging passes every filter, goes to stderr, and is labelled "Unknown" in the reset colour |
| Log.FilterMonotone | Engine/Core/Log.cpp:33 | raising the minimum never drops a message that was written before |

## Left out

- Real threading is not modelled: thread creation and join, condition-variable waits, frame-rate sleeps and clock reads. Each public call is one atomic step.
- RenderCommandQueue.WaitForCommands and NotifyCommandsAvailable are left out: they only block or wake threads.
- Exceptions that are not std::exception, escaping ExecuteAll, are left out. A command fails only in the caught way.
- A closure that re-enqueues itself forever is not expressible. Commands are finite records, so ExecuteUntilEmpty always terminates in the model.
- ThreadManager.Initialize records the game and render thread ids passed to it. The threads' start-up handshake is not modelled.
- ThreadManager.RenderIteration, ThreadManager.GameIteration: a tick callback that throws is not modelled. The tick call has no try/catch, so the exception leaves the thread function and std::terminate ends the process before the drain. In the model a tick always returns.
- ThreadManager.SetGameThreadTickFunction and SetRenderThreadTickFunction only record whether a tick is set. What a tick does is its effect on the queue: the commands it enqueues, a parameter of GameIteration and RenderIteration.
- The target FPS values, the FPS setters and the main-thread query are kept as fields without further use.
- All Vulkan API calls are left out: pipeline and descriptor creation, barriers, mapping, submit and push constants.
  - createBuffer is reduced to three outcomes: success, buffer failure, memory failure.
  - Font image creation (createFontTexture), and the rest of Initialize (command pool, pipeline), are taken to succeed; VulkanRenderer.InitializeFont models only the font part of Initialize, where the staging buffer of the initial upload may fail.
- VulkanRenderer.UpdateBuffers stops at the decision to map. The memcpy of vertex and index data is not modelled.
- EguiRender.Remap, EguiRender.EmitTriangles: the u32 arithmetic of `RENDER_VERTICES.len() as u32` and `start_vertex_idx + new_idx_counter` is unbounded, so the wrap past 2^32 accumulated vertices in one frame is not modelled.
- Float checks are modelled over real numbers. A real is always finite, so `is_finite` is always true in the model, and f32 rounding is not modelled.
  - EguiRender.IsValidVertex otherwise keeps the exact bounds: within 100 of the screen, and not a transparent vertex near the origin.
  - EguiRender.AlphaByte keeps the exact clamp-then-truncate, but on a real coverage value. A NaN coverage, which Rust converts to 0, has no counterpart.
- The egui demo UI, the egui Context calls, tessellation itself, and the mouse and frame-begin entry points of the Rust library are left out. Tessellated primitives and texture deltas are inputs.
- The font texture's pixel data is modelled. Its raw pointers and the FontTextureData struct layout are not.
- InputManager.Update leaves out the cursor re-read, the delta computation, recentring and the clearing of firstMouse, because they call GLFW. The camera state therefore leaves out the mouse delta.
- InputManager Initialize and Shutdown, which only install and remove GLFW callbacks, are left out.
- The ConsolePanel render stubs, filter setters and command input are left out: they are empty.
- The log entry timestamp is the constant 0, as in the source.
- Matrix arithmetic is not modelled: multiplication, Determinant, LookAt, Perspective and Orthographic.
  - The determinant is a parameter of Matrix.Inverse.
  - Matrix elements are reals, not floats.
- Log message formatting, timestamps and the actual console and file writes are left out.
- Log Initialize and Shutdown, which open and close the file and write start and end lines, are left out. Whether the file is open is a field of the logger.
- shared_ptr aliasing is not modelled. The UIManager holds panels and windows by value, so two names never share one panel object.
  - The widgets of a panel are ids into a widget pool, which models pointer equality for RemoveWidget.
- Unordered-map iteration order is a parameter: any order that lists every key once.
- UClass requires every superclass to be an earlier class, so self-parent cycles, where the source's IsChildOf walk would not terminate, are excluded.
- EWidgetState and the widget bounds setters are not modelled.
