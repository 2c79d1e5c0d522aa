/**
 * The renderer of Vulkan/Vulkan.cpp: a program whose state is a set of
 * globals (swapchain, per-image views, per-frame depth images, command
 * buffers and synchronisation objects, the frame and image indices and the
 * resize flag), built once by `initVulkan`, advanced by `drawFrame`, and
 * partly rebuilt by the main loop when the swapchain has to be replaced.
 * The globals are the fields of `Renderer`; the device is a `Device` whose
 * call log records every Vulkan call the globals are built with.
 */
module GlobalRenderer {
  import opened VkTypes
  import opened SwapchainSelection
  import opened CapabilitySearch
  import opened Commands
  import opened DeviceModel

  /** `IMAGES_IN_FLIGHT`: frames that may be in preparation at once. */
  const IMAGES_IN_FLIGHT: nat := 2
  const WINDOW_WIDTH: int := 800
  const WINDOW_HEIGHT: int := 600
  /** The length of the `vertices` list: a cube of 12 triangles. */
  const VERTEX_COUNT: nat := 36

  /** The messages of the exceptions the renderer throws. */
  const BEGIN_FAILED: string := "failed to begin recording command buffer!"
  const RECORD_FAILED: string := "failed to record command buffer!"
  const SUBMIT_FAILED: string := "failed to submit draw command buffer!"
  const PRESENT_FAILED: string := "failed to present swap chain image!"
  const SWAPCHAIN_FAILED: string := "failed to create swap chain!"
  const COMMAND_BUFFERS_FAILED: string := "failed to allocate command buffers!"
  const BAD_OPTIONAL: string := "bad optional access"

  /** Why a frame hangs: its wait is on a fence no submission will ever signal. */
  const FENCE_NEVER_SIGNALLED: string := "vkWaitForFences on a fence nothing will signal"

  /** The vectors `drawFrame` and `createSwapchain` index, as named in the source. */
  const AVAILABLE_FORMATS_VEC: string := "availableFormats"
  const IN_FLIGHT_FENCES_VEC: string := "inFlightFences"
  const IMAGE_AVAILABLE_SEMAPHORES_VEC: string := "imageAvailableSemaphores"
  const COMMAND_BUFFERS_VEC: string := "commandBuffers"
  const SWAPCHAIN_IMAGE_VIEWS_VEC: string := "swapchainImageViews"
  const RENDER_FINISHED_SEMAPHORES_VEC: string := "renderFinishedSemaphores"

  /**
   * What `recordCommandBuffer(image_Index, frame_Index)` records: colour
   * image and per-frame depth image transitioned for rendering, dynamic
   * rendering into both over the whole swapchain extent, the pipeline,
   * viewport, scissor, vertex buffer and push constants bound, one
   * non-instanced draw of every vertex, and the colour image transitioned
   * for presentation.
   */
  function FrameCommands(colorImage: Handle, colorView: Handle, depthImage: Handle, depthView: Handle,
                         extent: Extent2D, vertexCount: nat): seq<Command>
  {
    [ImageBarrier(colorImage, ColorAspect, IMAGE_LAYOUT_UNDEFINED, IMAGE_LAYOUT_COLOR_ATTACHMENT_OPTIMAL),
     ImageBarrier(depthImage, DepthAspect, IMAGE_LAYOUT_UNDEFINED, IMAGE_LAYOUT_DEPTH_ATTACHMENT_OPTIMAL),
     BeginRendering(extent,
                    Attachment(colorView, colorImage, IMAGE_LAYOUT_COLOR_ATTACHMENT_OPTIMAL),
                    Attachment(depthView, depthImage, IMAGE_LAYOUT_DEPTH_ATTACHMENT_OPTIMAL)),
     BindPipeline,
     SetViewport(extent),
     SetScissor(extent),
     BindVertexBuffer,
     PushConstants,
     Draw(vertexCount, 1),
     EndRendering,
     ImageBarrier(colorImage, ColorAspect, IMAGE_LAYOUT_COLOR_ATTACHMENT_OPTIMAL, IMAGE_LAYOUT_PRESENT_SRC_KHR)]
  }

  /**
   * Whatever layouts the images were left in, the recorded list is
   * consistent: every attachment is in the layout it declares when
   * rendering begins, the present transition starts from the layout the
   * colour image is in, and the list leaves the colour image ready for
   * presentation and the depth image in its attachment layout.
   */
  lemma FrameCommandsConsistent(layouts: map<Handle, ImageLayout>, colorImage: Handle, colorView: Handle,
                                depthImage: Handle, depthView: Handle, extent: Extent2D, vertexCount: nat)
    requires colorImage != depthImage
    ensures Replay(layouts, FrameCommands(colorImage, colorView, depthImage, depthView, extent, vertexCount)) ==
      Some(layouts[colorImage := IMAGE_LAYOUT_PRESENT_SRC_KHR][depthImage := IMAGE_LAYOUT_DEPTH_ATTACHMENT_OPTIMAL])
  {
    var cmds := FrameCommands(colorImage, colorView, depthImage, depthView, extent, vertexCount);
    var l1 := layouts[colorImage := IMAGE_LAYOUT_COLOR_ATTACHMENT_OPTIMAL];
    var l2 := l1[depthImage := IMAGE_LAYOUT_DEPTH_ATTACHMENT_OPTIMAL];
    var l3 := l2[colorImage := IMAGE_LAYOUT_PRESENT_SRC_KHR];
    assert Step(layouts, cmds[0]) == Some(l1);
    assert Step(l1, cmds[1]) == Some(l2);
    assert Step(l2, cmds[2]) == Some(l2);
    ReplayNeutral(l2, cmds[3..10]);
    assert Step(l2, cmds[10]) == Some(l3);
    assert Replay(l3, cmds[11..]) == Some(l3);
    assert Replay(l2, cmds[10..]) == Some(l3);
    ReplayAppend(l2, cmds[3..10], cmds[10..]);
    assert cmds[3..10] + cmds[10..] == cmds[3..];
    assert Replay(l2, cmds[2..]) == Some(l3);
    assert Replay(l1, cmds[1..]) == Some(l3);
    assert l3 == layouts[colorImage := IMAGE_LAYOUT_PRESENT_SRC_KHR][depthImage := IMAGE_LAYOUT_DEPTH_ATTACHMENT_OPTIMAL];
  }

  /** Draws sit inside the list's one rendering scope, and no transition happens inside it. */
  lemma FrameCommandsWellScoped(colorImage: Handle, colorView: Handle, depthImage: Handle, depthView: Handle,
                                extent: Extent2D, vertexCount: nat)
    ensures WellScoped(FrameCommands(colorImage, colorView, depthImage, depthView, extent, vertexCount), false)
  {
    var cmds := FrameCommands(colorImage, colorView, depthImage, depthView, extent, vertexCount);
    assert WellScoped(cmds[11..], false);
    assert WellScoped(cmds[10..], false);
    assert WellScoped(cmds[9..], true);
    assert WellScoped(cmds[8..], true);
    assert WellScoped(cmds[7..], true);
    assert WellScoped(cmds[6..], true);
    assert WellScoped(cmds[5..], true);
    assert WellScoped(cmds[4..], true);
    assert WellScoped(cmds[3..], true);
    assert WellScoped(cmds[2..], false);
    assert WellScoped(cmds[1..], false);
  }

  /** The calls that create one depth image, its memory and its view. */
  function DepthResourceCalls(image: Handle, memory: Handle, view: Handle, extent: Extent2D, format: Format,
                              memoryType: nat): seq<Call>
  {
    [CreateImage(image, extent, format), AllocateMemory(memory, memoryType), BindImageMemory(image, memory),
     CreateImageView(view, image)]
  }

  /** The calls creating the depth resources of each frame in turn. */
  function DepthCalls(images: seq<Handle>, memory: seq<Handle>, views: seq<Handle>, extent: Extent2D, format: Format,
                      memoryType: nat): (cs: seq<Call>)
    requires |images| == |memory| == |views|
    ensures |cs| == 4 * |images|
    decreases |images|
  {
    if images == [] then []
    else
      var n := |images| - 1;
      DepthCalls(images[..n], memory[..n], views[..n], extent, format, memoryType) +
      DepthResourceCalls(images[n], memory[n], views[n], extent, format, memoryType)
  }

  /** Creating depth resources resets no fence and creates none unsignalled. */
  lemma {:induction false} DepthCallsKeepFences(images: seq<Handle>, memory: seq<Handle>, views: seq<Handle>, extent: Extent2D,
                                                format: Format, memoryType: nat)
    requires |images| == |memory| == |views|
    ensures forall k :: 0 <= k < 4 * |images| ==> NeverUnsignals(DepthCalls(images, memory, views, extent, format, memoryType)[k])
    decreases |images|
  {
    if images != [] {
      var n := |images| - 1;
      DepthCallsKeepFences(images[..n], memory[..n], views[..n], extent, format, memoryType);
      var init := DepthCalls(images[..n], memory[..n], views[..n], extent, format, memoryType);
      var last := DepthResourceCalls(images[n], memory[n], views[n], extent, format, memoryType);
      assert DepthCalls(images, memory, views, extent, format, memoryType) == init + last;
      assert forall k :: 0 <= k < 4 * |images| ==> (init + last)[k] == if k < 4 * n then init[k] else last[k - 4 * n];
    }
  }

  /** One more frame's resources extend the calls by that frame's calls. */
  lemma DepthCallsSnoc(images: seq<Handle>, memory: seq<Handle>, views: seq<Handle>, image: Handle, mem: Handle, view: Handle,
                       extent: Extent2D, format: Format, memoryType: nat)
    requires |images| == |memory| == |views|
    ensures DepthCalls(images + [image], memory + [mem], views + [view], extent, format, memoryType) ==
      DepthCalls(images, memory, views, extent, format, memoryType) + DepthResourceCalls(image, mem, view, extent, format, memoryType)
  {
    var n := |images|;
    assert (images + [image])[..n] == images;
    assert (memory + [mem])[..n] == memory;
    assert (views + [view])[..n] == views;
  }

  /** Creating one frame's depth resources adds its view and nothing else. */
  lemma DepthResourceViews(views: set<Handle>, swapchains: set<Handle>, image: Handle, memory: Handle, view: Handle,
                           extent: Extent2D, format: Format, memoryType: nat)
    ensures ViewsFrom(views, DepthResourceCalls(image, memory, view, extent, format, memoryType)) == views + {view}
    ensures SwapchainsFrom(swapchains, DepthResourceCalls(image, memory, view, extent, format, memoryType)) == swapchains
  {
    var cs := DepthResourceCalls(image, memory, view, extent, format, memoryType);
    assert cs[4..] == [];
    assert cs[3..][1..] == cs[4..] && cs[2..][1..] == cs[3..] && cs[1..][1..] == cs[2..];
    assert ViewsFrom(views, cs[3..]) == views + {view};
    assert ViewsFrom(views, cs[2..]) == views + {view};
    assert ViewsFrom(views, cs[1..]) == views + {view};
    assert SwapchainsFrom(swapchains, cs[3..]) == swapchains;
    assert SwapchainsFrom(swapchains, cs[2..]) == swapchains;
    assert SwapchainsFrom(swapchains, cs[1..]) == swapchains;
  }

  /** Creating depth resources brings exactly their views into existence and no swapchain. */
  lemma {:induction false} DepthCallsViews(views: set<Handle>, swapchains: set<Handle>, images: seq<Handle>,
                                           memory: seq<Handle>, views': seq<Handle>, extent: Extent2D, format: Format,
                                           memoryType: nat)
    requires |images| == |memory| == |views'|
    ensures ViewsFrom(views, DepthCalls(images, memory, views', extent, format, memoryType)) == views + Elements(views')
    ensures SwapchainsFrom(swapchains, DepthCalls(images, memory, views', extent, format, memoryType)) == swapchains
    decreases |images|
  {
    if images != [] {
      var n := |images| - 1;
      var init := DepthCalls(images[..n], memory[..n], views'[..n], extent, format, memoryType);
      var calls := DepthResourceCalls(images[n], memory[n], views'[n], extent, format, memoryType);
      DepthCallsViews(views, swapchains, images[..n], memory[..n], views'[..n], extent, format, memoryType);
      FromAppend(views, swapchains, init, calls);
      DepthResourceViews(ViewsFrom(views, init), SwapchainsFrom(swapchains, init), images[n], memory[n], views'[n],
                         extent, format, memoryType);
      assert views' == views'[..n] + [views'[n]];
      ElementsSnoc(views'[..n], views'[n]);
    }
  }

  /** The calls that destroy one depth image, its memory and its view, in the main loop's order. */
  function DepthDestroyCalls(image: Handle, memory: Handle, view: Handle): seq<Call>
  {
    [DestroyImageView(view), DestroyImage(image), FreeMemory(memory)]
  }

  /** Destroying one frame's depth resources ends its view and nothing else. */
  lemma DepthDestroyCallsViews(views: set<Handle>, swapchains: set<Handle>, image: Handle, memory: Handle, view: Handle)
    ensures ViewsFrom(views, DepthDestroyCalls(image, memory, view)) == views - {view}
    ensures SwapchainsFrom(swapchains, DepthDestroyCalls(image, memory, view)) == swapchains
  {
    var cs := DepthDestroyCalls(image, memory, view);
    assert cs[3..] == [];
    assert cs[2..][1..] == cs[3..] && cs[1..][1..] == cs[2..];
    assert ViewsFrom(views - {view}, cs[2..]) == views - {view};
    assert ViewsFrom(views - {view}, cs[1..]) == views - {view};
    assert SwapchainsFrom(swapchains, cs[2..]) == swapchains;
    assert SwapchainsFrom(swapchains, cs[1..]) == swapchains;
  }

  /** The calls destroying the depth resources of each frame in turn. */
  function DepthDestroyAll(images: seq<Handle>, memory: seq<Handle>, views: seq<Handle>): (cs: seq<Call>)
    requires |images| == |memory| == |views|
    ensures |cs| == 3 * |images|
    decreases |images|
  {
    if images == [] then []
    else
      var n := |images| - 1;
      DepthDestroyAll(images[..n], memory[..n], views[..n]) + DepthDestroyCalls(images[n], memory[n], views[n])
  }

  /** Destroying depth resources creates nothing and resets no fence. */
  lemma {:induction false} DepthDestroyQuiet(images: seq<Handle>, memory: seq<Handle>, views: seq<Handle>)
    requires |images| == |memory| == |views|
    ensures forall k :: 0 <= k < 3 * |images| ==>
      NeverUnsignals(DepthDestroyAll(images, memory, views)[k]) && Created(DepthDestroyAll(images, memory, views)[k]).None?
    decreases |images|
  {
    if images != [] {
      var n := |images| - 1;
      DepthDestroyQuiet(images[..n], memory[..n], views[..n]);
      var init := DepthDestroyAll(images[..n], memory[..n], views[..n]);
      var last := DepthDestroyCalls(images[n], memory[n], views[n]);
      assert DepthDestroyAll(images, memory, views) == init + last;
      assert forall k :: 0 <= k < 3 * |images| ==> (init + last)[k] == if k < 3 * n then init[k] else last[k - 3 * n];
    }
  }

  /** Destroying depth resources ends exactly their views, and no swapchain. */
  lemma {:induction false} DepthDestroyViews(views: set<Handle>, swapchains: set<Handle>, images: seq<Handle>,
                                             memory: seq<Handle>, views': seq<Handle>)
    requires |images| == |memory| == |views'|
    ensures ViewsFrom(views, DepthDestroyAll(images, memory, views')) == views - Elements(views')
    ensures SwapchainsFrom(swapchains, DepthDestroyAll(images, memory, views')) == swapchains
    decreases |images|
  {
    if images != [] {
      var n := |images| - 1;
      var init := DepthDestroyAll(images[..n], memory[..n], views'[..n]);
      var last := DepthDestroyCalls(images[n], memory[n], views'[n]);
      DepthDestroyViews(views, swapchains, images[..n], memory[..n], views'[..n]);
      FromAppend(views, swapchains, init, last);
      DepthDestroyCallsViews(ViewsFrom(views, init), SwapchainsFrom(swapchains, init), images[n], memory[n], views'[n]);
      assert views' == views'[..n] + [views'[n]];
      ElementsSnoc(views'[..n], views'[n]);
    } else {
      assert views - Elements(views') == views;
    }
  }

  /**
   * The view bookkeeping of the rebuild: when the views that exist are the
   * old colour and depth views and the new colour views are fresh, ending
   * the old colour views, creating the new ones, ending the old depth views
   * and creating the new ones leaves exactly the new views.
   */
  lemma RebuiltViews(live: set<Handle>, oldColor: set<Handle>, oldDepth: set<Handle>, newColor: set<Handle>,
                     newDepth: set<Handle>, bound: nat)
    requires live == oldColor + oldDepth
    requires forall v :: v in oldDepth ==> v < bound
    requires forall v :: v in newColor ==> bound <= v
    ensures (((live - oldColor) + newColor) - oldDepth) + newDepth == newColor + newDepth
  {
  }

  /** The answers of the surface and physical-device queries made while building the swapchain. */
  datatype SurfaceQuery = SurfaceQuery(
    support: SwapchainSupport,
    families: seq<QueueFamily>,
    framebufferWidth: int,
    framebufferHeight: int)

  /** What `vkCreateSwapchainKHR` returns, and how many images the swapchain then reports. */
  datatype SwapchainAnswer = SwapchainAnswer(createResult: VkResult, imageCount: nat)

  /** The physical-device facts depth-buffer creation consults. */
  datatype DepthQuery = DepthQuery(
    optimalTilingFeatures: Format -> bv32,
    memoryTypes: seq<bv32>,
    memoryTypeBits: bv32)

  /**
   * Whether `createSwapchain` gets through with these answers: there is a
   * format to read, both queue families exist, and creation succeeds.
   */
  predicate SwapchainBuilds(query: SurfaceQuery, answer: SwapchainAnswer) {
    query.support.formats != [] &&
    (exists i :: 0 <= i < |query.families| && SupportsGraphics(query.families[i])) &&
    (exists i :: 0 <= i < |query.families| && SupportsPresent(query.families[i])) &&
    answer.createResult == SUCCESS
  }

  /** The creation call `createSwapchain` makes: image count, extent and present mode chosen from the surface. */
  function SwapchainCall(query: SurfaceQuery, swapchain: Handle, oldSwapchain: Handle): Call {
    Call.CreateSwapchain(swapchain, ImageCount(query.support.capabilities),
                         ChooseSwapExtent(query.support.capabilities, query.framebufferWidth, query.framebufferHeight),
                         ChooseSwapPresentMode(query.support.presentModes), oldSwapchain)
  }

  /** Whether `createDepthResources` gets through: a depth format and a device-local memory type are found. */
  predicate DepthBuilds(q: DepthQuery)
    requires |q.memoryTypes| <= MAX_MEMORY_TYPES
  {
    FindDepthFormat(q.optimalTilingFeatures).Ok? &&
    FindMemoryType(q.memoryTypeBits, MEMORY_PROPERTY_DEVICE_LOCAL_BIT, q.memoryTypes).Ok?
  }

  /** The results the driver hands back during one `drawFrame`. */
  datatype FrameAnswer = FrameAnswer(
    acquire: VkResult,
    acquiredIndex: u32,
    begin: VkResult,
    end: VkResult,
    submit: VkResult,
    present: VkResult)

  /** A driver that keeps the Vulkan contract: an acquire hands out an index into the swapchain's images. */
  predicate FrameAnswerPossible(a: FrameAnswer, imageCount: nat) {
    AcquireResultPossible(a.acquire) && (Acquired(a.acquire) ==> a.acquiredIndex as nat < imageCount)
  }

  /**
   * How `drawFrame` ends when every container it indexes is large enough
   * and its fence wait returns: an error from the acquire ends the program
   * with that code; otherwise a failed begin, end or submit throws, and a
   * present that is neither a success nor a request for a new swapchain
   * throws.
   */
  function FrameOutcome(a: FrameAnswer): (r: Outcome)
    ensures r.Exited? <==> a.acquire.IsError()
    ensures r.Exited? ==> r.code == a.acquire.code
    ensures r.Completed? <==>
      !a.acquire.IsError() && a.begin == SUCCESS && a.end == SUCCESS && a.submit == SUCCESS &&
      (a.present == SUCCESS || a.present == ERROR_OUT_OF_DATE_KHR || a.present == SUBOPTIMAL_KHR)
    ensures r.Completed? || r.Exited? || r.Threw?
  {
    if a.acquire.IsError() then Exited(a.acquire.code)
    else if a.begin != SUCCESS then Threw(BEGIN_FAILED)
    else if a.end != SUCCESS then Threw(RECORD_FAILED)
    else if a.submit != SUCCESS then Threw(SUBMIT_FAILED)
    else if a.present == SUCCESS || a.present == ERROR_OUT_OF_DATE_KHR || a.present == SUBOPTIMAL_KHR then Completed
    else Threw(PRESENT_FAILED)
  }

  /** A present result after which the main loop rebuilds the swapchain. */
  predicate AsksForNewSwapchain(r: VkResult) { r == ERROR_OUT_OF_DATE_KHR || r == SUBOPTIMAL_KHR }

  /** The frame after frame `f`: `(frame_Index + 1) % IMAGES_IN_FLIGHT`. */
  function NextFrame(f: u32): (r: u32)
    ensures r as nat < IMAGES_IN_FLIGHT
  {
    ((f as nat + 1) % IMAGES_IN_FLIGHT) as u32
  }

  /** The frame index visits every frame in flight in turn and comes back after IMAGES_IN_FLIGHT frames. */
  lemma NextFrameCycles(f: u32)
    requires f as nat < IMAGES_IN_FLIGHT
    ensures NextFrame(f) != f && NextFrame(NextFrame(f)) == f
  {
  }

  /**
   * `findQueueFamilies` as `createSwapchain` sees it: both indices are
   * known exactly when some family has graphics and some family can present.
   */
  method SwapchainQueueFamilies(families: seq<QueueFamily>) returns (complete: bool, graphicsFamily: nat, presentFamily: nat)
    ensures complete <==>
      (exists i :: 0 <= i < |families| && SupportsGraphics(families[i])) &&
      (exists i :: 0 <= i < |families| && SupportsPresent(families[i]))
    ensures complete ==> graphicsFamily < |families| && SupportsGraphics(families[graphicsFamily])
    ensures complete ==> presentFamily < |families| && SupportsPresent(families[presentFamily])
  {
    var indices := FindQueueFamilies(families);
    complete := indices.IsComplete();
    graphicsFamily := if indices.graphicsFamily.Some? then indices.graphicsFamily.value else 0;
    presentFamily := if indices.presentFamily.Some? then indices.presentFamily.value else 0;
  }

  /** The globals of Vulkan/Vulkan.cpp that the renderer's core reads and writes. */
  class Renderer {
    const device: Device
    var swapchain: Handle
    var swapchainImages: seq<Handle>
    var swapchainImageFormat: Format
    var swapchainExtent: Extent2D
    var swapchainImageViews: seq<Handle>
    const depthImages: array<Handle>
    const depthImagesMemory: array<Handle>
    const depthImageViews: array<Handle>
    var commandBuffers: seq<Handle>
    var imageAvailableSemaphores: seq<Handle>
    var renderFinishedSemaphores: seq<Handle>
    var inFlightFences: seq<Handle>
    var imageIndex: u32
    var frameIndex: u32
    var updateSwapchain: bool
    var windowWidth: int
    var windowHeight: int

    /**
     * The three depth arrays are distinct arrays of IMAGES_IN_FLIGHT
     * entries and the frame index stays below IMAGES_IN_FLIGHT.
     */
    ghost predicate Valid()
      reads this`frameIndex, device
    {
      device.Valid() &&
      depthImages.Length == IMAGES_IN_FLIGHT && depthImagesMemory.Length == IMAGES_IN_FLIGHT &&
      depthImageViews.Length == IMAGES_IN_FLIGHT &&
      depthImages != depthImagesMemory && depthImages != depthImageViews && depthImagesMemory != depthImageViews &&
      frameIndex as nat < IMAGES_IN_FLIGHT
    }

    /**
     * The swapchain handle and every image handle held were handed out by
     * the device, and swapchain images and depth images are never the same
     * image.
     */
    ghost predicate ImagesIssued()
      reads this`swapchain, this`swapchainImages, depthImages, device`nextHandle
    {
      swapchain < device.nextHandle &&
      (forall j :: 0 <= j < depthImages.Length ==> depthImages[j] < device.nextHandle) &&
      (forall i :: 0 <= i < |swapchainImages| ==> swapchainImages[i] < device.nextHandle) &&
      (forall i, j :: 0 <= i < |swapchainImages| && 0 <= j < depthImages.Length ==> swapchainImages[i] != depthImages[j])
    }

    /** Every container `drawFrame` indexes is long enough for any frame index and any acquired image. */
    ghost predicate FrameObjectsSized()
      reads this
    {
      |commandBuffers| >= IMAGES_IN_FLIGHT && |inFlightFences| >= IMAGES_IN_FLIGHT &&
      |imageAvailableSemaphores| >= IMAGES_IN_FLIGHT &&
      |renderFinishedSemaphores| >= |swapchainImages| && |swapchainImageViews| == |swapchainImages|
    }

    /**
     * The containers `drawFrame` indexes by the current frame index are long
     * enough for it, and the render-finished list is long enough for any
     * image the swapchain can hand out.  `FrameObjectsSized` implies this
     * for every frame index.
     */
    ghost predicate FrameSlotsReady()
      reads this
    {
      frameIndex as nat < |inFlightFences| && frameIndex as nat < |imageAvailableSemaphores| &&
      frameIndex as nat < |commandBuffers| &&
      |swapchainImageViews| == |swapchainImages| && |renderFinishedSemaphores| >= |swapchainImages|
    }

    /** The views and swapchains that exist on the device are exactly those the globals hold. */
    ghost predicate ResourcesAccounted()
      reads this, device, depthImageViews
    {
      LiveViews(device.log) == Elements(swapchainImageViews) + Elements(depthImageViews[..]) &&
      LiveSwapchains(device.log) == {swapchain}
    }

    /**
     * What a completed `drawFrame` at frame index `f` leaves behind, given
     * the log before it: the image it acquired is the current image, every
     * container it indexed was large enough, the log grew by exactly the
     * frame's calls, the submitted command list is consistent, and the
     * frame's fence awaits the submission.
     */
    ghost predicate FrameMade(log0: seq<Call>, f: u32, a: FrameAnswer)
      reads this, device, depthImages, depthImageViews
    {
      imageIndex == a.acquiredIndex && imageIndex as nat < |swapchainImages| &&
      f as nat < |inFlightFences| && f as nat < |imageAvailableSemaphores| && f as nat < |commandBuffers| &&
      f as nat < depthImages.Length && f as nat < depthImageViews.Length &&
      imageIndex as nat < |swapchainImageViews| && imageIndex as nat < |renderFinishedSemaphores| &&
      var cmds := FrameCommands(swapchainImages[imageIndex], swapchainImageViews[imageIndex], depthImages[f],
                                depthImageViews[f], swapchainExtent, VERTEX_COUNT);
      device.log == log0 +
        FrameCalls(swapchain, inFlightFences[f], imageAvailableSemaphores[f], renderFinishedSemaphores[imageIndex],
                   commandBuffers[f], cmds, imageIndex, a.acquire, a.present) &&
      Replay(map[], cmds).Some? && FenceAfter(device.log, inFlightFences[f]) == Pending
    }

    /** No in-flight fence is unsignalled with nothing submitted against it, so waiting on it returns. */
    ghost predicate FencesLive()
      reads this, device
    {
      forall i :: 0 <= i < |inFlightFences| ==> FenceAfter(device.log, inFlightFences[i]) != Unsignalled
    }

    /** The globals before `main` runs: null handles, empty vectors, indices 0, no resize pending. */
    constructor (device: Device)
      requires device.Valid()
      ensures Valid() && this.device == device
      ensures ImagesIssued()
      ensures swapchain == NULL_HANDLE && swapchainImages == [] && swapchainImageViews == []
      ensures commandBuffers == [] && imageAvailableSemaphores == [] && renderFinishedSemaphores == [] && inFlightFences == []
      ensures imageIndex == 0 && frameIndex == 0 && !updateSwapchain
      ensures windowWidth == WINDOW_WIDTH && windowHeight == WINDOW_HEIGHT
      ensures forall j :: 0 <= j < IMAGES_IN_FLIGHT ==> depthImages[j] == NULL_HANDLE
      ensures fresh(depthImages) && fresh(depthImagesMemory) && fresh(depthImageViews)
    {
      this.device := device;
      swapchain := NULL_HANDLE;
      swapchainImages := [];
      swapchainImageFormat := FORMAT_UNDEFINED;
      swapchainExtent := Extent2D(0, 0);
      swapchainImageViews := [];
      depthImages := new Handle[IMAGES_IN_FLIGHT](_ => NULL_HANDLE);
      depthImagesMemory := new Handle[IMAGES_IN_FLIGHT](_ => NULL_HANDLE);
      depthImageViews := new Handle[IMAGES_IN_FLIGHT](_ => NULL_HANDLE);
      commandBuffers := [];
      imageAvailableSemaphores := [];
      renderFinishedSemaphores := [];
      inFlightFences := [];
      imageIndex := 0;
      frameIndex := 0;
      updateSwapchain := false;
      windowWidth := WINDOW_WIDTH;
      windowHeight := WINDOW_HEIGHT;
    }

    /** `framebufferResizeCallback`: records the new size and asks for a new swapchain. */
    method FramebufferResizeCallback(width: int, height: int)
      modifies this`updateSwapchain, this`windowWidth, this`windowHeight
      ensures updateSwapchain && windowWidth == width && windowHeight == height
    {
      updateSwapchain := true;
      windowWidth := width;
      windowHeight := height;
    }

    /**
     * The part of `createSwapchain` after `vkCreateSwapchainKHR` succeeded:
     * the new swapchain becomes current, its images are fetched, and the
     * chosen format and extent are kept.
     */
    method InstallSwapchain(info: SwapchainCreateInfo, imageCount: nat)
      requires Valid()
      requires ImagesIssued()
      modifies this`swapchain, this`swapchainImages, this`swapchainImageFormat, this`swapchainExtent, device
      ensures Valid()
      ensures ImagesIssued()
      ensures swapchain == old(device.nextHandle) && swapchain != NULL_HANDLE
      ensures |swapchainImages| == imageCount
      ensures forall i :: 0 <= i < |swapchainImages| ==> old(device.nextHandle) < swapchainImages[i]
      ensures swapchainImageFormat == info.imageFormat && swapchainExtent == info.imageExtent
      ensures device.log == old(device.log) + [
        Call.CreateSwapchain(swapchain, info.minImageCount, info.imageExtent, info.presentMode, info.oldSwapchain),
        GetSwapchainImages(swapchain, swapchainImages)]
      ensures LiveSwapchains(device.log) == old(LiveSwapchains(device.log)) + {swapchain}
      ensures LiveViews(device.log) == old(LiveViews(device.log))
      ensures device.nextHandle >= old(device.nextHandle)
    {
      ghost var log0 := device.log;
      var sc := device.NewHandle();
      var c1 := Call.CreateSwapchain(sc, info.minImageCount, info.imageExtent, info.presentMode, info.oldSwapchain);
      device.Call(c1);
      ResourcesAfterSnoc(log0, c1);
      var images := device.NewHandles(imageCount);
      var c2 := GetSwapchainImages(sc, images);
      device.Call(c2);
      ResourcesAfterSnoc(log0 + [c1], c2);
      assert device.log == log0 + [c1, c2];
      swapchain := sc;
      swapchainImages := images;
      swapchainImageFormat := info.imageFormat;
      swapchainExtent := info.imageExtent;
    }

    /**
     * `createSwapchain(oldSwapchain)`: picks format, present mode, extent
     * and image count from the surface, shares the images between the two
     * queue families when they differ, creates the swapchain naming the one
     * it replaces, and fetches its images.  It reads element 0 of the format
     * list, takes the value of both family indices, and throws when
     * creation fails.  A failed creation leaves no trace on the device.
     */
    method CreateSwapchain(oldSwapchain: Handle, query: SurfaceQuery, answer: SwapchainAnswer) returns (outcome: Outcome)
      requires Valid()
      requires ImagesIssued()
      modifies this`swapchain, this`swapchainImages, this`swapchainImageFormat, this`swapchainExtent, device
      ensures Valid()
      ensures ImagesIssued()
      ensures outcome.Completed? || outcome.Threw? || outcome.IndexOutOfRange?
      ensures outcome.IndexOutOfRange? <==> query.support.formats == []
      ensures outcome.Completed? <==> SwapchainBuilds(query, answer)
      ensures !outcome.Completed? ==>
        device.log == old(device.log) && swapchain == old(swapchain) && swapchainImages == old(swapchainImages)
      ensures outcome.Completed? ==>
        swapchain == old(device.nextHandle) && swapchain != NULL_HANDLE &&
        |swapchainImages| == answer.imageCount &&
        (forall i :: 0 <= i < |swapchainImages| ==> old(device.nextHandle) < swapchainImages[i]) &&
        swapchainImageFormat == ChooseSwapSurfaceFormat(query.support.formats).format &&
        swapchainExtent == ChooseSwapExtent(query.support.capabilities, query.framebufferWidth, query.framebufferHeight) &&
        device.log == old(device.log) + [SwapchainCall(query, swapchain, oldSwapchain), GetSwapchainImages(swapchain, swapchainImages)]
      ensures outcome.Completed? ==> LiveSwapchains(device.log) == old(LiveSwapchains(device.log)) + {swapchain}
      ensures outcome.Completed? ==> LiveViews(device.log) == old(LiveViews(device.log))
      ensures device.nextHandle >= old(device.nextHandle)
    {
      if query.support.formats == [] {
        return IndexOutOfRange(AVAILABLE_FORMATS_VEC);
      }
      var complete, graphicsFamily, presentFamily := SwapchainQueueFamilies(query.families);
      if !complete {
        return Threw(BAD_OPTIONAL);
      }
      var info := SwapchainCreateInfoFor(query.support, graphicsFamily, presentFamily,
                                         query.framebufferWidth, query.framebufferHeight, oldSwapchain);
      if answer.createResult != SUCCESS {
        return Threw(SWAPCHAIN_FAILED);
      }
      InstallSwapchain(info, answer.imageCount);
      outcome := Completed;
    }

    /**
     * `createImageViews`: one fresh colour view per swapchain image, in
     * order; the view list is exactly as long as the image list.
     */
    method CreateImageViews()
      requires Valid()
      requires ImagesIssued()
      modifies this`swapchainImageViews, device
      ensures Valid()
      ensures ImagesIssued()
      ensures |swapchainImageViews| == |swapchainImages|
      ensures forall i :: 0 <= i < |swapchainImageViews| ==>
        old(device.nextHandle) <= swapchainImageViews[i] < device.nextHandle
      ensures device.log == old(device.log) + CreateViewCalls(swapchainImageViews, swapchainImages)
      ensures LiveViews(device.log) == old(LiveViews(device.log)) + Elements(swapchainImageViews)
      ensures LiveSwapchains(device.log) == old(LiveSwapchains(device.log))
      ensures old(FencesLive()) ==> FencesLive()
      ensures device.nextHandle >= old(device.nextHandle)
    {
      var views := device.CreateViews(swapchainImages);
      swapchainImageViews := views;
      LiveViewsAfterCreate(old(device.log), views, swapchainImages);
      if old(FencesLive()) {
        FencesStayLive(old(device.log), CreateViewCalls(views, swapchainImages), inFlightFences);
      }
    }

    /**
     * One turn of `createDepthResources`' loop: a depth image of the given
     * extent, then, once a memory type has been found, its memory, the
     * binding and its view.  `found` is what `findMemoryType` answers for
     * the image's memory requirements (the same for every depth image, so
     * the caller evaluates the search once); the image exists even when
     * the search throws.
     */
    method CreateDepthResource(extent: Extent2D, format: Format, found: Result<nat>)
      returns (outcome: Outcome, image: Handle, memory: Handle, view: Handle)
      requires device.Valid()
      modifies device
      ensures device.Valid()
      ensures outcome.Completed? <==> found.Ok?
      ensures !outcome.Completed? ==> outcome == Threw(found.message)
      ensures image == old(device.nextHandle) && image < device.nextHandle
      ensures outcome.Completed? ==> old(device.nextHandle) <= view < device.nextHandle
      ensures !outcome.Completed? ==> device.log == old(device.log) + [CreateImage(image, extent, format)]
      ensures outcome.Completed? ==>
        device.log == old(device.log) + DepthResourceCalls(image, memory, view, extent, format, found.value)
      ensures device.nextHandle >= old(device.nextHandle)
    {
      ghost var log0 := device.log;
      image := device.NewHandle();
      device.Call(CreateImage(image, extent, format));
      memory, view := NULL_HANDLE, NULL_HANDLE;
      if found.Err? {
        return Threw(found.message), image, memory, view;
      }
      memory := device.NewHandle();
      device.Call(AllocateMemory(memory, found.value));
      device.Call(BindImageMemory(image, memory));
      view := device.NewHandle();
      device.Call(CreateImageView(view, image));
      assert device.log == log0 + DepthResourceCalls(image, memory, view, extent, format, found.value);
      outcome := Completed;
    }

    /**
     * The loop of `createDepthResources`: the resources of each frame in
     * flight in turn, stopping at the first throw.
     */
    method CreateDepthResourcesLoop(format: Format, found: Result<nat>) returns (outcome: Outcome)
      requires Valid()
      requires ImagesIssued()
      modifies depthImages, depthImagesMemory, depthImageViews, device
      ensures Valid()
      ensures outcome.Completed? ==> ImagesIssued()
      ensures outcome.Completed? <==> found.Ok?
      ensures !outcome.Completed? ==> outcome == Threw(found.message)
      ensures outcome.Completed? ==>
        device.log == old(device.log) +
          DepthCalls(depthImages[..], depthImagesMemory[..], depthImageViews[..], swapchainExtent, format, found.value)
      ensures outcome.Completed? ==> forall j :: 0 <= j < IMAGES_IN_FLIGHT ==>
        old(device.nextHandle) <= depthImages[j] && old(device.nextHandle) <= depthImageViews[j] < device.nextHandle
      ensures device.nextHandle >= old(device.nextHandle)
    {
      ghost var images: seq<Handle> := [];
      ghost var memory: seq<Handle> := [];
      ghost var views: seq<Handle> := [];
      ghost var calls: seq<Call> := [];
      outcome := Completed;
      var i := 0;
      while i < IMAGES_IN_FLIGHT
        invariant 0 <= i <= IMAGES_IN_FLIGHT
        invariant device.Valid()
        invariant device.nextHandle >= old(device.nextHandle)
        invariant outcome.Completed?
        invariant i > 0 ==> found.Ok?
        invariant |images| == |memory| == |views| == i
        invariant forall j :: 0 <= j < i ==> depthImages[j] == images[j]
        invariant forall j :: 0 <= j < i ==> depthImagesMemory[j] == memory[j]
        invariant forall j :: 0 <= j < i ==> depthImageViews[j] == views[j]
        invariant forall j :: 0 <= j < i ==> old(device.nextHandle) <= images[j] < device.nextHandle
        invariant forall j :: 0 <= j < i ==> old(device.nextHandle) <= views[j] < device.nextHandle
        invariant device.log == old(device.log) + calls
        invariant i > 0 ==> calls == DepthCalls(images, memory, views, swapchainExtent, format, found.value)
        invariant i == 0 ==> calls == []
      {
        var image, mem, view;
        outcome, image, mem, view := CreateDepthResource(swapchainExtent, format, found);
        depthImages[i] := image;
        if !outcome.Completed? {
          return;
        }
        depthImagesMemory[i] := mem;
        depthImageViews[i] := view;
        DepthCallsSnoc(images, memory, views, image, mem, view, swapchainExtent, format, found.value);
        images, memory, views := images + [image], memory + [mem], views + [view];
        calls := calls + DepthResourceCalls(image, mem, view, swapchainExtent, format, found.value);
        i := i + 1;
      }
      assert depthImages[..] == images && depthImagesMemory[..] == memory && depthImageViews[..] == views;
      assert forall k :: 0 <= k < |swapchainImages| ==> swapchainImages[k] < old(device.nextHandle);
    }

    /**
     * `createDepthResources`: with the depth format `findDepthFormat`
     * picks, for each frame in flight a depth image of the swapchain's
     * extent, device-local memory of the first suitable type bound to it,
     * and a view of it.  Either search may throw; the format search does so
     * before any call.
     */
    method CreateDepthResources(q: DepthQuery) returns (outcome: Outcome)
      requires Valid() && |q.memoryTypes| <= MAX_MEMORY_TYPES
      requires ImagesIssued()
      modifies depthImages, depthImagesMemory, depthImageViews, device
      ensures Valid()
      ensures outcome.Completed? ==> ImagesIssued()
      ensures outcome.Completed? || outcome.Threw?
      ensures outcome.Completed? <==> DepthBuilds(q)
      ensures FindDepthFormat(q.optimalTilingFeatures).Err? ==> device.log == old(device.log)
      ensures outcome.Completed? ==>
        device.log == old(device.log) +
          DepthCalls(depthImages[..], depthImagesMemory[..], depthImageViews[..], swapchainExtent,
                     FindDepthFormat(q.optimalTilingFeatures).value,
                     FindMemoryType(q.memoryTypeBits, MEMORY_PROPERTY_DEVICE_LOCAL_BIT, q.memoryTypes).value)
      ensures outcome.Completed? ==> forall j :: 0 <= j < IMAGES_IN_FLIGHT ==>
        old(device.nextHandle) <= depthImages[j] && old(device.nextHandle) <= depthImageViews[j] < device.nextHandle
      ensures outcome.Completed? ==>
        LiveViews(device.log) == old(LiveViews(device.log)) + Elements(depthImageViews[..]) &&
        LiveSwapchains(device.log) == old(LiveSwapchains(device.log))
      ensures outcome.Completed? && old(FencesLive()) ==> FencesLive()
      ensures device.nextHandle >= old(device.nextHandle)
    {
      var depthFormat := FindDepthFormat(q.optimalTilingFeatures);
      if depthFormat.Err? {
        return Threw(depthFormat.message);
      }
      var found := FindMemoryType(q.memoryTypeBits, MEMORY_PROPERTY_DEVICE_LOCAL_BIT, q.memoryTypes);
      outcome := CreateDepthResourcesLoop(depthFormat.value, found);
      if outcome.Completed? {
        ghost var memoryType := found.value;
        ghost var calls := DepthCalls(depthImages[..], depthImagesMemory[..], depthImageViews[..], swapchainExtent,
                                      depthFormat.value, memoryType);
        LiveAppend(old(device.log), calls);
        DepthCallsKeepFences(depthImages[..], depthImagesMemory[..], depthImageViews[..], swapchainExtent,
                             depthFormat.value, memoryType);
        DepthCallsViews(old(LiveViews(device.log)), old(LiveSwapchains(device.log)), depthImages[..], depthImagesMemory[..],
                        depthImageViews[..], swapchainExtent, depthFormat.value, memoryType);
        if old(FencesLive()) {
          FencesStayLive(old(device.log), calls, inFlightFences);
        }
      }
    }

    /** `createCommandBuffers`: one primary command buffer per frame in flight; it throws when allocation fails. */
    method CreateCommandBuffers(allocateResult: VkResult) returns (outcome: Outcome)
      requires Valid()
      requires ImagesIssued()
      modifies this`commandBuffers, device
      ensures Valid()
      ensures ImagesIssued()
      ensures |commandBuffers| == IMAGES_IN_FLIGHT
      ensures outcome.Completed? <==> allocateResult == SUCCESS
      ensures !outcome.Completed? ==> outcome == Threw(COMMAND_BUFFERS_FAILED) && device.log == old(device.log)
      ensures outcome.Completed? ==> device.log == old(device.log) + [AllocateCommandBuffers(commandBuffers)]
      ensures LiveViews(device.log) == old(LiveViews(device.log)) && LiveSwapchains(device.log) == old(LiveSwapchains(device.log))
      ensures old(FencesLive()) ==> FencesLive()
      ensures device.nextHandle >= old(device.nextHandle)
    {
      var buffers := device.NewHandles(IMAGES_IN_FLIGHT);
      if allocateResult != SUCCESS {
        commandBuffers := seq(IMAGES_IN_FLIGHT, _ => NULL_HANDLE);
        return Threw(COMMAND_BUFFERS_FAILED);
      }
      ResourcesAfterSnoc(device.log, AllocateCommandBuffers(buffers));
      forall f {
        FenceAfterSnoc(device.log, AllocateCommandBuffers(buffers), f);
      }
      device.Call(AllocateCommandBuffers(buffers));
      commandBuffers := buffers;
      outcome := Completed;
    }

    /**
     * `createSyncObjects`: for each swapchain image an image-available
     * semaphore, a render-finished semaphore and a fence created signalled,
     * so that the first wait on each fence returns at once.  All three
     * vectors are as long as the image list.
     */
    method CreateSyncObjects()
      requires Valid()
      requires ImagesIssued()
      modifies this`imageAvailableSemaphores, this`renderFinishedSemaphores, this`inFlightFences, device
      ensures Valid()
      ensures ImagesIssued()
      ensures |imageAvailableSemaphores| == |renderFinishedSemaphores| == |inFlightFences| == |swapchainImages|
      ensures device.log == old(device.log) + SyncCalls(imageAvailableSemaphores, renderFinishedSemaphores, inFlightFences)
      ensures forall i :: 0 <= i < |inFlightFences| ==> FenceAfter(device.log, inFlightFences[i]) == Signalled
      ensures FencesLive()
      ensures LiveViews(device.log) == old(LiveViews(device.log)) && LiveSwapchains(device.log) == old(LiveSwapchains(device.log))
      ensures device.nextHandle >= old(device.nextHandle)
    {
      var acquire, render, fences := device.CreateSyncSets(|swapchainImages|);
      imageAvailableSemaphores, renderFinishedSemaphores, inFlightFences := acquire, render, fences;
      SyncCallsQuiet(acquire, render, fences);
      LiveAppend(old(device.log), SyncCalls(acquire, render, fences));
      NeutralFrom(old(LiveViews(device.log)), old(LiveSwapchains(device.log)), SyncCalls(acquire, render, fences));
    }

    /**
     * The synchronisation objects as `drawFrame` indexes them: an
     * image-available semaphore and a fence created signalled per frame in
     * flight, and a render-finished semaphore per swapchain image.
     */
    method CreateFrameSyncObjects()
      requires Valid()
      requires ImagesIssued()
      modifies this`imageAvailableSemaphores, this`renderFinishedSemaphores, this`inFlightFences, device
      ensures Valid()
      ensures ImagesIssued()
      ensures |imageAvailableSemaphores| == |inFlightFences| == IMAGES_IN_FLIGHT
      ensures |renderFinishedSemaphores| == |swapchainImages|
      ensures device.log == old(device.log) + SemaphoreCalls(imageAvailableSemaphores) +
        SemaphoreCalls(renderFinishedSemaphores) + FenceCalls(inFlightFences)
      ensures forall i :: 0 <= i < |inFlightFences| ==> FenceAfter(device.log, inFlightFences[i]) == Signalled
      ensures FencesLive()
      ensures LiveViews(device.log) == old(LiveViews(device.log)) && LiveSwapchains(device.log) == old(LiveSwapchains(device.log))
      ensures device.nextHandle >= old(device.nextHandle)
    {
      var acquire := device.CreateSemaphores(IMAGES_IN_FLIGHT);
      var render := device.CreateSemaphores(|swapchainImages|);
      var fences := device.CreateFences(IMAGES_IN_FLIGHT);
      imageAvailableSemaphores, renderFinishedSemaphores, inFlightFences := acquire, render, fences;
    }

    /**
     * The first two steps `initVulkan` takes after the device exists:
     * `createSwapchain` with no swapchain to replace, then
     * `createImageViews`; a throw from the first ends it.
     */
    method CreateSwapchainAndViews(query: SurfaceQuery, answer: SwapchainAnswer) returns (outcome: Outcome)
      requires Valid()
      requires ImagesIssued()
      modifies this`swapchain, this`swapchainImages, this`swapchainImageFormat, this`swapchainExtent,
               this`swapchainImageViews, device
      ensures Valid()
      ensures ImagesIssued()
      ensures outcome.Completed? <==> SwapchainBuilds(query, answer)
      ensures outcome.Completed? ==>
        |swapchainImages| == |swapchainImageViews| == answer.imageCount &&
        LiveViews(device.log) == old(LiveViews(device.log)) + Elements(swapchainImageViews) &&
        LiveSwapchains(device.log) == old(LiveSwapchains(device.log)) + {swapchain}
      ensures device.nextHandle >= old(device.nextHandle)
    {
      outcome := CreateSwapchain(NULL_HANDLE, query, answer);
      if outcome.Completed? {
        CreateImageViews();
      }
    }

    /**
     * The part of `initVulkan` that builds what depends on the swapchain:
     * `createSwapchain` with no swapchain to replace, `createImageViews`,
     * `createDepthResources` and `createCommandBuffers`, in that order,
     * stopping at the first throw.  On a device with no view and no
     * swapchain yet, the views and the swapchain that then exist are
     * exactly the ones the globals hold.
     */
    method BuildSwapchainResources(query: SurfaceQuery, answer: SwapchainAnswer, q: DepthQuery, allocateResult: VkResult)
      returns (outcome: Outcome)
      requires Valid() && |q.memoryTypes| <= MAX_MEMORY_TYPES
      requires ImagesIssued()
      requires LiveViews(device.log) == {} && LiveSwapchains(device.log) == {}
      modifies this`swapchain, this`swapchainImages, this`swapchainImageFormat, this`swapchainExtent,
               this`swapchainImageViews, depthImages, depthImagesMemory, depthImageViews, this`commandBuffers, device
      ensures Valid()
      ensures outcome.Completed? <==> SwapchainBuilds(query, answer) && DepthBuilds(q) && allocateResult == SUCCESS
      ensures outcome.Completed? ==>
        ImagesIssued() && ResourcesAccounted() &&
        |swapchainImages| == |swapchainImageViews| == answer.imageCount && |commandBuffers| == IMAGES_IN_FLIGHT
      ensures device.nextHandle >= old(device.nextHandle)
    {
      outcome := CreateSwapchainAndViews(query, answer);
      if !outcome.Completed? {
        return;
      }
      outcome := CreateDepthResources(q);
      if !outcome.Completed? {
        return;
      }
      outcome := CreateCommandBuffers(allocateResult);
    }

    /**
     * `initVulkan` from the swapchain on: the swapchain and what depends on
     * it, then `createSyncObjects`.  Every synchronisation vector is as long
     * as the image list, so the frame objects are large enough exactly when
     * the swapchain has at least IMAGES_IN_FLIGHT images.
     */
    method InitVulkan(query: SurfaceQuery, answer: SwapchainAnswer, q: DepthQuery, allocateResult: VkResult)
      returns (outcome: Outcome)
      requires Valid() && |q.memoryTypes| <= MAX_MEMORY_TYPES
      requires ImagesIssued()
      requires LiveViews(device.log) == {} && LiveSwapchains(device.log) == {}
      modifies this`swapchain, this`swapchainImages, this`swapchainImageFormat, this`swapchainExtent,
               this`swapchainImageViews, depthImages, depthImagesMemory, depthImageViews, this`commandBuffers,
               this`imageAvailableSemaphores, this`renderFinishedSemaphores, this`inFlightFences, device
      ensures Valid()
      ensures outcome.Completed? <==> SwapchainBuilds(query, answer) && DepthBuilds(q) && allocateResult == SUCCESS
      ensures outcome.Completed? ==> ImagesIssued() && ResourcesAccounted() && FencesLive()
      ensures outcome.Completed? ==>
        |swapchainImages| == |swapchainImageViews| == answer.imageCount && |commandBuffers| == IMAGES_IN_FLIGHT &&
        |imageAvailableSemaphores| == |renderFinishedSemaphores| == |inFlightFences| == answer.imageCount
      ensures outcome.Completed? ==> (FrameObjectsSized() <==> answer.imageCount >= IMAGES_IN_FLIGHT)
    {
      outcome := BuildSwapchainResources(query, answer, q, allocateResult);
      if outcome.Completed? {
        CreateSyncObjects();
      }
    }

    /**
     * `initVulkan` with the frame-indexed synchronisation objects sized by
     * the number of frames in flight: whatever number of images the
     * swapchain has, every container `drawFrame` indexes is large enough.
     */
    method InitVulkanFixed(query: SurfaceQuery, answer: SwapchainAnswer, q: DepthQuery, allocateResult: VkResult)
      returns (outcome: Outcome)
      requires Valid() && |q.memoryTypes| <= MAX_MEMORY_TYPES
      requires ImagesIssued()
      requires LiveViews(device.log) == {} && LiveSwapchains(device.log) == {}
      modifies this`swapchain, this`swapchainImages, this`swapchainImageFormat, this`swapchainExtent,
               this`swapchainImageViews, depthImages, depthImagesMemory, depthImageViews, this`commandBuffers,
               this`imageAvailableSemaphores, this`renderFinishedSemaphores, this`inFlightFences, device
      ensures Valid()
      ensures outcome.Completed? <==> SwapchainBuilds(query, answer) && DepthBuilds(q) && allocateResult == SUCCESS
      ensures outcome.Completed? ==> ImagesIssued() && ResourcesAccounted() && FencesLive() && FrameObjectsSized()
      ensures outcome.Completed? ==>
        |swapchainImages| == |swapchainImageViews| == |renderFinishedSemaphores| == answer.imageCount &&
        |commandBuffers| == IMAGES_IN_FLIGHT
    {
      outcome := BuildSwapchainResources(query, answer, q, allocateResult);
      if outcome.Completed? {
        CreateFrameSyncObjects();
      }
    }

    /** The opening of `drawFrame`: wait for the frame's fence, then reset it. */
    method WaitForFrameFence() returns (outcome: Outcome)
      requires Valid()
      modifies device
      ensures Valid() && device.nextHandle == old(device.nextHandle)
      ensures outcome.Completed? || outcome.IndexOutOfRange? || outcome.Hang?
      ensures outcome.IndexOutOfRange? <==> frameIndex as nat >= |inFlightFences|
      ensures outcome.IndexOutOfRange? ==> outcome.container == IN_FLIGHT_FENCES_VEC
      ensures outcome.Hang? <==>
        frameIndex as nat < |inFlightFences| && old(FenceAfter(device.log, inFlightFences[frameIndex])) == Unsignalled
      ensures old(FencesLive()) ==> !outcome.Hang?
      ensures !outcome.Completed? ==> device.log == old(device.log)
      ensures outcome.Completed? ==>
        device.log == old(device.log) + [WaitForFence(inFlightFences[frameIndex]), ResetFence(inFlightFences[frameIndex])]
      ensures LiveViews(device.log) == old(LiveViews(device.log)) && LiveSwapchains(device.log) == old(LiveSwapchains(device.log))
    {
      if frameIndex as nat >= |inFlightFences| {
        return IndexOutOfRange(IN_FLIGHT_FENCES_VEC);
      }
      var fence := inFlightFences[frameIndex];
      if FenceAfter(device.log, fence) == Unsignalled {
        assert !FencesLive() by {
          assert FenceAfter(device.log, inFlightFences[frameIndex]) == Unsignalled;
        }
        return Hang(FENCE_NEVER_SIGNALLED);
      }
      device.Call(WaitForFence(fence));
      device.Call(ResetFence(fence));
      outcome := Completed;
    }

    /**
     * The acquire of `drawFrame`: the image index is set when an image is
     * handed out; an error result ends the program with that code after
     * asking for a new swapchain if the old one is out of date.
     */
    method AcquireImage(a: FrameAnswer) returns (outcome: Outcome)
      requires Valid() && FrameAnswerPossible(a, |swapchainImages|)
      modifies this`imageIndex, this`updateSwapchain, device
      ensures Valid() && device.nextHandle == old(device.nextHandle)
      ensures outcome.IndexOutOfRange? <==> frameIndex as nat >= |imageAvailableSemaphores|
      ensures outcome.IndexOutOfRange? ==>
        outcome.container == IMAGE_AVAILABLE_SEMAPHORES_VEC && device.log == old(device.log) &&
        imageIndex == old(imageIndex) && updateSwapchain == old(updateSwapchain)
      ensures !outcome.IndexOutOfRange? ==>
        device.log == old(device.log) + [AcquireNextImage(swapchain, imageAvailableSemaphores[frameIndex], a.acquire)]
      ensures !outcome.IndexOutOfRange? ==> (outcome.Completed? <==> !a.acquire.IsError())
      ensures !outcome.IndexOutOfRange? && !outcome.Completed? ==> outcome == Exited(a.acquire.code)
      ensures outcome.Completed? ==>
        imageIndex == a.acquiredIndex && imageIndex as nat < |swapchainImages| && updateSwapchain == old(updateSwapchain)
      ensures outcome.Exited? ==>
        imageIndex == old(imageIndex) && updateSwapchain == (old(updateSwapchain) || a.acquire == ERROR_OUT_OF_DATE_KHR)
      ensures LiveViews(device.log) == old(LiveViews(device.log)) && LiveSwapchains(device.log) == old(LiveSwapchains(device.log))
    {
      if frameIndex as nat >= |imageAvailableSemaphores| {
        return IndexOutOfRange(IMAGE_AVAILABLE_SEMAPHORES_VEC);
      }
      device.Call(AcquireNextImage(swapchain, imageAvailableSemaphores[frameIndex], a.acquire));
      if Acquired(a.acquire) {
        imageIndex := a.acquiredIndex;
      }
      if a.acquire.IsError() {
        if a.acquire == ERROR_OUT_OF_DATE_KHR {
          updateSwapchain := true;
        }
        return Exited(a.acquire.code);
      }
      outcome := Completed;
    }

    /**
     * `recordCommandBuffer(image_Index, frame_Index)`: begins the frame's
     * command buffer, records the frame's commands and ends the buffer; a
     * failed begin or end throws.  Whatever layouts the images are in, the
     * recorded list is consistent and leaves the colour image ready for
     * presentation.
     */
    method RecordCommandBuffer(image: nat, frame: nat, begin: VkResult, end: VkResult) returns (outcome: Outcome, cmds: seq<Command>)
      requires Valid() && image < |swapchainImages| && frame < IMAGES_IN_FLIGHT
      requires ImagesIssued()
      ensures outcome.Completed? || outcome.Threw? || outcome.IndexOutOfRange?
      ensures frame >= |commandBuffers| ==> outcome == IndexOutOfRange(COMMAND_BUFFERS_VEC)
      ensures frame < |commandBuffers| && begin != SUCCESS ==> outcome == Threw(BEGIN_FAILED)
      ensures frame < |commandBuffers| && begin == SUCCESS && image >= |swapchainImageViews| ==>
        outcome == IndexOutOfRange(SWAPCHAIN_IMAGE_VIEWS_VEC)
      ensures frame < |commandBuffers| && begin == SUCCESS && image < |swapchainImageViews| && end != SUCCESS ==>
        outcome == Threw(RECORD_FAILED)
      ensures outcome.Completed? <==>
        frame < |commandBuffers| && begin == SUCCESS && image < |swapchainImageViews| && end == SUCCESS
      ensures outcome.Completed? ==>
        cmds == FrameCommands(swapchainImages[image], swapchainImageViews[image], depthImages[frame], depthImageViews[frame],
                              swapchainExtent, VERTEX_COUNT)
      ensures outcome.Completed? ==>
        forall layouts :: Replay(layouts, cmds) ==
          Some(layouts[swapchainImages[image] := IMAGE_LAYOUT_PRESENT_SRC_KHR][depthImages[frame] := IMAGE_LAYOUT_DEPTH_ATTACHMENT_OPTIMAL])
      ensures outcome.Completed? ==> WellScoped(cmds, false)
    {
      cmds := [];
      if frame >= |commandBuffers| {
        return IndexOutOfRange(COMMAND_BUFFERS_VEC), cmds;
      }
      if begin != SUCCESS {
        return Threw(BEGIN_FAILED), cmds;
      }
      if image >= |swapchainImageViews| {
        return IndexOutOfRange(SWAPCHAIN_IMAGE_VIEWS_VEC), cmds;
      }
      cmds := FrameCommands(swapchainImages[image], swapchainImageViews[image], depthImages[frame], depthImageViews[frame],
                            swapchainExtent, VERTEX_COUNT);
      if end != SUCCESS {
        return Threw(RECORD_FAILED), cmds;
      }
      forall layouts {
        FrameCommandsConsistent(layouts, swapchainImages[image], swapchainImageViews[image], depthImages[frame],
                                depthImageViews[frame], swapchainExtent, VERTEX_COUNT);
      }
      FrameCommandsWellScoped(swapchainImages[image], swapchainImageViews[image], depthImages[frame], depthImageViews[frame],
                              swapchainExtent, VERTEX_COUNT);
      outcome := Completed;
    }

    /**
     * The end of `drawFrame`: submit the recorded commands, present the
     * image, and move on to the next frame.  A present result that asks
     * for a new swapchain sets the flag, any other failure throws.
     */
    method SubmitAndPresent(cmds: seq<Command>, a: FrameAnswer) returns (outcome: Outcome)
      requires Valid() && frameIndex as nat < |commandBuffers| && frameIndex as nat < |imageAvailableSemaphores|
      requires frameIndex as nat < |inFlightFences|
      ensures outcome.Completed? || outcome.Threw? || outcome.IndexOutOfRange?
      modifies this`updateSwapchain, this`frameIndex, device
      ensures Valid() && device.nextHandle == old(device.nextHandle)
      ensures imageIndex as nat >= |renderFinishedSemaphores| ==>
        outcome == IndexOutOfRange(RENDER_FINISHED_SEMAPHORES_VEC) && device.log == old(device.log)
      ensures imageIndex as nat < |renderFinishedSemaphores| && a.submit != SUCCESS ==>
        outcome == Threw(SUBMIT_FAILED) && device.log == old(device.log)
      ensures imageIndex as nat < |renderFinishedSemaphores| && a.submit == SUCCESS ==>
        device.log == old(device.log) +
          RenderCalls(swapchain, inFlightFences[old(frameIndex)], imageAvailableSemaphores[old(frameIndex)],
                      renderFinishedSemaphores[imageIndex], commandBuffers[old(frameIndex)], cmds, imageIndex, a.present)
      ensures imageIndex as nat < |renderFinishedSemaphores| && a.submit == SUCCESS ==>
        (outcome.Completed? <==> a.present == SUCCESS || AsksForNewSwapchain(a.present)) &&
        (!outcome.Completed? ==> outcome == Threw(PRESENT_FAILED))
      ensures outcome.Completed? ==>
        frameIndex == NextFrame(old(frameIndex)) && updateSwapchain == (old(updateSwapchain) || AsksForNewSwapchain(a.present))
      ensures !outcome.Completed? ==> frameIndex == old(frameIndex) && updateSwapchain == old(updateSwapchain)
      ensures LiveViews(device.log) == old(LiveViews(device.log)) && LiveSwapchains(device.log) == old(LiveSwapchains(device.log))
    {
      if imageIndex as nat >= |renderFinishedSemaphores| {
        return IndexOutOfRange(RENDER_FINISHED_SEMAPHORES_VEC);
      }
      if a.submit != SUCCESS {
        return Threw(SUBMIT_FAILED);
      }
      var renderFinished := renderFinishedSemaphores[imageIndex];
      device.Call(QueueSubmit(imageAvailableSemaphores[frameIndex], commandBuffers[frameIndex], cmds, renderFinished,
                              inFlightFences[frameIndex]));
      device.Call(QueuePresent(swapchain, renderFinished, imageIndex, a.present));
      if AsksForNewSwapchain(a.present) {
        updateSwapchain := true;
      } else if a.present != SUCCESS {
        return Threw(PRESENT_FAILED);
      }
      frameIndex := NextFrame(frameIndex);
      outcome := Completed;
    }

    /**
     * `drawFrame` once an image has been acquired: record, submit and
     * present.  Nothing here creates or destroys a view or a swapchain.
     */
    method RenderFrame(a: FrameAnswer) returns (outcome: Outcome)
      requires Valid() && imageIndex as nat < |swapchainImages|
      requires ImagesIssued()
      requires frameIndex as nat < |inFlightFences| && frameIndex as nat < |imageAvailableSemaphores|
      ensures outcome.Completed? || outcome.Threw? || outcome.IndexOutOfRange?
      modifies this`updateSwapchain, this`frameIndex, device
      ensures Valid() && device.nextHandle == old(device.nextHandle)
      ensures (old(frameIndex) as nat < |commandBuffers| && |swapchainImageViews| == |swapchainImages| &&
               imageIndex as nat < |renderFinishedSemaphores|) ==>
        outcome == FrameOutcome(a.(acquire := SUCCESS))
      ensures (old(frameIndex) as nat < |commandBuffers| && |swapchainImageViews| == |swapchainImages| &&
               a.begin == SUCCESS && a.end == SUCCESS && imageIndex as nat >= |renderFinishedSemaphores|) ==>
        outcome == IndexOutOfRange(RENDER_FINISHED_SEMAPHORES_VEC)
      ensures outcome.Completed? ==>
        old(frameIndex) as nat < |commandBuffers| && imageIndex as nat < |swapchainImageViews| &&
        imageIndex as nat < |renderFinishedSemaphores|
      ensures outcome.Completed? ==>
        frameIndex == NextFrame(old(frameIndex)) &&
        updateSwapchain == (old(updateSwapchain) || AsksForNewSwapchain(a.present))
      ensures outcome.Completed? ==>
        var f := old(frameIndex);
        var cmds := FrameCommands(swapchainImages[imageIndex], swapchainImageViews[imageIndex], depthImages[f],
                                  depthImageViews[f], swapchainExtent, VERTEX_COUNT);
        device.log == old(device.log) +
          RenderCalls(swapchain, inFlightFences[f], imageAvailableSemaphores[f], renderFinishedSemaphores[imageIndex],
                      commandBuffers[f], cmds, imageIndex, a.present) &&
        Replay(map[], cmds).Some?
      ensures !outcome.Completed? ==> frameIndex == old(frameIndex) && updateSwapchain == old(updateSwapchain)
      ensures LiveViews(device.log) == old(LiveViews(device.log)) && LiveSwapchains(device.log) == old(LiveSwapchains(device.log))
    {
      var recorded: Outcome, cmds: seq<Command>;
      recorded, cmds := RecordCommandBuffer(imageIndex as nat, frameIndex as nat, a.begin, a.end);
      if !recorded.Completed? {
        return recorded;
      }
      outcome := SubmitAndPresent(cmds, a);
    }

    /** `drawFrame` after the fence wait: acquire an image, then record, submit and present. */
    method AcquireAndRender(a: FrameAnswer, ghost log0: seq<Call>) returns (outcome: Outcome)
      requires Valid() && FrameAnswerPossible(a, |swapchainImages|) && frameIndex as nat < |inFlightFences|
      requires ImagesIssued()
      requires device.log == log0 + [WaitForFence(inFlightFences[frameIndex]), ResetFence(inFlightFences[frameIndex])]
      modifies this`imageIndex, this`frameIndex, this`updateSwapchain, device
      ensures Valid() && device.nextHandle == old(device.nextHandle)
      ensures outcome.Completed? || outcome.Threw? || outcome.IndexOutOfRange? || outcome.Exited?
      ensures old(FrameSlotsReady()) ==> outcome == FrameOutcome(a)
      ensures (old(frameIndex as nat < |imageAvailableSemaphores| && frameIndex as nat < |commandBuffers| &&
                   |swapchainImageViews| == |swapchainImages|) &&
               !a.acquire.IsError() && a.begin == SUCCESS && a.end == SUCCESS &&
               a.acquiredIndex as nat >= |renderFinishedSemaphores|) ==>
        outcome == IndexOutOfRange(RENDER_FINISHED_SEMAPHORES_VEC)
      ensures outcome.Completed? ==>
        old(frameIndex) as nat < |imageAvailableSemaphores| && old(frameIndex) as nat < |commandBuffers| &&
        imageIndex as nat < |swapchainImageViews| && imageIndex as nat < |renderFinishedSemaphores|
      ensures outcome.Completed? ==>
        imageIndex == a.acquiredIndex && imageIndex as nat < |swapchainImages| &&
        frameIndex == NextFrame(old(frameIndex)) &&
        updateSwapchain == (old(updateSwapchain) || AsksForNewSwapchain(a.present))
      ensures outcome.Completed? ==> FrameMade(log0, old(frameIndex), a)
      ensures outcome.Completed? && (forall i :: 0 <= i < |inFlightFences| ==> FenceAfter(log0, inFlightFences[i]) != Unsignalled) ==>
        FencesLive()
      ensures outcome.Exited? ==> updateSwapchain == (old(updateSwapchain) || a.acquire == ERROR_OUT_OF_DATE_KHR)
      ensures !outcome.Completed? ==> frameIndex == old(frameIndex)
      ensures LiveViews(device.log) == old(LiveViews(device.log)) && LiveSwapchains(device.log) == old(LiveSwapchains(device.log))
    {
      outcome := AcquireImage(a);
      if !outcome.Completed? {
        return;
      }
      ghost var f := frameIndex;
      assert FrameOutcome(a) == FrameOutcome(a.(acquire := SUCCESS));
      assert FrameSlotsReady() ==> imageIndex as nat < |renderFinishedSemaphores|;
      outcome := RenderFrame(a);
      if outcome.Completed? {
        ghost var cmds := FrameCommands(swapchainImages[imageIndex], swapchainImageViews[imageIndex], depthImages[f],
                                        depthImageViews[f], swapchainExtent, VERTEX_COUNT);
        FrameKeepsFencesLive(log0, old(device.log), device.log, inFlightFences, swapchain, inFlightFences[f],
                             imageAvailableSemaphores[f], renderFinishedSemaphores[imageIndex], commandBuffers[f], cmds,
                             imageIndex, a.acquire, a.present);
      }
    }

    /**
     * `drawFrame`.  With every container it indexes large enough and every fence
     * either signalled or awaited by a submission, the frame ends as the
     * driver's answers decide, never hangs and never indexes out of range;
     * a completed frame made exactly the frame's calls, submitted a
     * consistent command list, advanced the frame index and left every
     * fence live again.
     */
    method DrawFrame(a: FrameAnswer) returns (outcome: Outcome)
      requires Valid() && FrameAnswerPossible(a, |swapchainImages|)
      requires ImagesIssued()
      modifies this`imageIndex, this`frameIndex, this`updateSwapchain, device
      ensures Valid() && device.nextHandle == old(device.nextHandle)
      ensures ImagesIssued()
      ensures old(frameIndex as nat >= |inFlightFences|) ==>
        outcome == IndexOutOfRange(IN_FLIGHT_FENCES_VEC) && device.log == old(device.log)
      ensures old(FencesLive()) ==> !outcome.Hang?
      ensures old(FrameSlotsReady() && FencesLive()) ==> outcome == FrameOutcome(a)
      ensures (old(FencesLive() && frameIndex as nat < |inFlightFences| && frameIndex as nat < |imageAvailableSemaphores| &&
                   frameIndex as nat < |commandBuffers| && |swapchainImageViews| == |swapchainImages|) &&
               !a.acquire.IsError() && a.begin == SUCCESS && a.end == SUCCESS &&
               a.acquiredIndex as nat >= |renderFinishedSemaphores|) ==>
        outcome == IndexOutOfRange(RENDER_FINISHED_SEMAPHORES_VEC)
      ensures outcome.Completed? ==>
        frameIndex == NextFrame(old(frameIndex)) &&
        updateSwapchain == (old(updateSwapchain) || AsksForNewSwapchain(a.present))
      ensures outcome.Completed? ==> FrameMade(old(device.log), old(frameIndex), a)
      ensures outcome.Completed? && old(FencesLive()) ==> FencesLive()
      ensures LiveViews(device.log) == old(LiveViews(device.log)) && LiveSwapchains(device.log) == old(LiveSwapchains(device.log))
    {
      outcome := WaitForFrameFence();
      if !outcome.Completed? {
        return;
      }
      outcome := AcquireAndRender(a, old(device.log));
    }

    /**
     * The start of the main loop's rebuild: wait until the device is idle,
     * create the new swapchain naming the current one as the one it
     * replaces, and only then destroy the old one.  A throw from
     * `createSwapchain` leaves the old swapchain in place.
     */
    method ReplaceSwapchain(query: SurfaceQuery, answer: SwapchainAnswer) returns (outcome: Outcome)
      requires Valid()
      requires ImagesIssued()
      modifies this`swapchain, this`swapchainImages, this`swapchainImageFormat, this`swapchainExtent, device
      ensures Valid()
      ensures ImagesIssued()
      ensures outcome.Completed? <==> SwapchainBuilds(query, answer)
      ensures outcome.Completed? ==>
        swapchain != old(swapchain) && |swapchainImages| == answer.imageCount &&
        (forall i :: 0 <= i < |swapchainImages| ==> old(device.nextHandle) < swapchainImages[i]) &&
        device.log == old(device.log) + [DeviceWaitIdle, SwapchainCall(query, swapchain, old(swapchain)),
                                         GetSwapchainImages(swapchain, swapchainImages), DestroySwapchain(old(swapchain))]
      ensures outcome.Completed? ==>
        LiveSwapchains(device.log) == (old(LiveSwapchains(device.log)) + {swapchain}) - {old(swapchain)} &&
        LiveViews(device.log) == old(LiveViews(device.log))
      ensures old(FencesLive()) ==> FencesLive()
      ensures device.nextHandle >= old(device.nextHandle)
    {
      device.Call(DeviceWaitIdle);
      var oldSwapchain := swapchain;
      outcome := CreateSwapchain(oldSwapchain, query, answer);
      ghost var cs: seq<Call> := [DeviceWaitIdle];
      if outcome.Completed? {
        ResourcesAfterSnoc(device.log, DestroySwapchain(oldSwapchain));
        device.Call(DestroySwapchain(oldSwapchain));
        cs := [DeviceWaitIdle, SwapchainCall(query, swapchain, oldSwapchain), GetSwapchainImages(swapchain, swapchainImages),
               DestroySwapchain(oldSwapchain)];
      }
      if old(FencesLive()) {
        FencesStayLive(old(device.log), cs, inFlightFences);
      }
    }

    /** The rebuild's view step: destroy every colour view, then create one per swapchain image. */
    method RenewImageViews()
      requires Valid()
      requires ImagesIssued()
      modifies this`swapchainImageViews, device
      ensures Valid()
      ensures ImagesIssued()
      ensures |swapchainImageViews| == |swapchainImages|
      ensures forall i :: 0 <= i < |swapchainImageViews| ==>
        old(device.nextHandle) <= swapchainImageViews[i] < device.nextHandle
      ensures device.log ==
        old(device.log) + DestroyViewCalls(old(swapchainImageViews)) + CreateViewCalls(swapchainImageViews, swapchainImages)
      ensures LiveViews(device.log) ==
        (old(LiveViews(device.log)) - Elements(old(swapchainImageViews))) + Elements(swapchainImageViews)
      ensures LiveSwapchains(device.log) == old(LiveSwapchains(device.log))
      ensures old(FencesLive()) ==> FencesLive()
      ensures device.nextHandle >= old(device.nextHandle)
    {
      device.CallEach(DestroyViewCalls(swapchainImageViews));
      LiveViewsAfterDestroy(old(device.log), swapchainImageViews);
      if old(FencesLive()) {
        FencesStayLive(old(device.log), DestroyViewCalls(swapchainImageViews), inFlightFences);
      }
      CreateImageViews();
    }

    /** The rebuild's depth step: destroy each frame's depth view, image and memory, then create them anew. */
    method RenewDepthResources(q: DepthQuery) returns (outcome: Outcome)
      requires Valid() && |q.memoryTypes| <= MAX_MEMORY_TYPES
      requires ImagesIssued()
      modifies depthImages, depthImagesMemory, depthImageViews, device
      ensures Valid()
      ensures outcome.Completed? <==> DepthBuilds(q)
      ensures outcome.Completed? ==> ImagesIssued()
      ensures outcome.Completed? ==>
        LiveViews(device.log) == (old(LiveViews(device.log)) - old(Elements(depthImageViews[..]))) + Elements(depthImageViews[..]) &&
        LiveSwapchains(device.log) == old(LiveSwapchains(device.log))
      ensures outcome.Completed? && old(FencesLive()) ==> FencesLive()
      ensures device.nextHandle >= old(device.nextHandle)
    {
      var destroyed := DepthDestroyAll(depthImages[..], depthImagesMemory[..], depthImageViews[..]);
      DepthDestroyQuiet(depthImages[..], depthImagesMemory[..], depthImageViews[..]);
      device.CallEach(destroyed);
      LiveAppend(old(device.log), destroyed);
      DepthDestroyViews(old(LiveViews(device.log)), old(LiveSwapchains(device.log)), depthImages[..], depthImagesMemory[..],
                        depthImageViews[..]);
      if old(FencesLive()) {
        FencesStayLive(old(device.log), destroyed, inFlightFences);
      }
      outcome := CreateDepthResources(q);
    }

    /**
     * The rebuild's steps after the swapchain was replaced: new colour
     * views, then new depth resources.  If the views that existed were
     * those the globals held, the views that exist afterwards are again
     * exactly those the globals hold.
     */
    method RenewSwapchainResources(q: DepthQuery) returns (outcome: Outcome)
      requires Valid() && |q.memoryTypes| <= MAX_MEMORY_TYPES
      requires ImagesIssued()
      modifies this`swapchainImageViews, depthImages, depthImagesMemory, depthImageViews, device
      ensures Valid()
      ensures outcome.Completed? <==> DepthBuilds(q)
      ensures outcome.Completed? ==> ImagesIssued() && |swapchainImageViews| == |swapchainImages|
      ensures outcome.Completed? &&
              old(LiveViews(device.log) == Elements(swapchainImageViews) + Elements(depthImageViews[..])) ==>
        LiveViews(device.log) == Elements(swapchainImageViews) + Elements(depthImageViews[..])
      ensures outcome.Completed? ==> LiveSwapchains(device.log) == old(LiveSwapchains(device.log))
      ensures outcome.Completed? && old(FencesLive()) ==> FencesLive()
      ensures device.nextHandle >= old(device.nextHandle)
    {
      ghost var live := LiveViews(device.log);
      ghost var oldViews := Elements(swapchainImageViews);
      ghost var oldDepth := Elements(depthImageViews[..]);
      ghost var bound := device.nextHandle;
      RenewImageViews();
      outcome := RenewDepthResources(q);
      if outcome.Completed? && live == oldViews + oldDepth {
        RebuiltViews(live, oldViews, oldDepth, Elements(swapchainImageViews), Elements(depthImageViews[..]), bound);
      }
    }

    /**
     * The rebuild in `mainLoop` once a new swapchain has been asked for:
     * clear the flag, wait for the device, replace the swapchain, destroy
     * and re-create the colour views, then the depth resources.  The
     * command buffers and the synchronisation objects are not touched,
     * even though the number of swapchain images may have changed.  The
     * rebuild leaks nothing: if the views and swapchains that existed were
     * those the globals held, the same holds afterwards.
     */
    method MainLoopRebuild(query: SurfaceQuery, answer: SwapchainAnswer, q: DepthQuery) returns (outcome: Outcome)
      requires Valid() && |q.memoryTypes| <= MAX_MEMORY_TYPES
      requires ImagesIssued()
      modifies this`updateSwapchain, this`swapchain, this`swapchainImages, this`swapchainImageFormat, this`swapchainExtent,
               this`swapchainImageViews, depthImages, depthImagesMemory, depthImageViews, device
      ensures Valid() && !updateSwapchain
      ensures outcome.Completed? <==> SwapchainBuilds(query, answer) && DepthBuilds(q)
      ensures outcome.Completed? ==> ImagesIssued() && |swapchainImages| == |swapchainImageViews| == answer.imageCount
      ensures outcome.Completed? && old(ResourcesAccounted()) ==> ResourcesAccounted()
      ensures outcome.Completed? && old(FencesLive()) ==> FencesLive()
      ensures device.nextHandle >= old(device.nextHandle)
    {
      updateSwapchain := false;
      outcome := ReplaceSwapchain(query, answer);
      if !outcome.Completed? {
        return;
      }
      outcome := RenewSwapchainResources(q);
    }

    /** Destroys every render-finished semaphore and creates one per swapchain image. */
    method RecreateRenderSemaphores()
      requires Valid()
      requires ImagesIssued()
      modifies this`renderFinishedSemaphores, device
      ensures Valid()
      ensures ImagesIssued()
      ensures |renderFinishedSemaphores| == |swapchainImages|
      ensures device.log ==
        old(device.log) + DestroySemaphoreCalls(old(renderFinishedSemaphores)) + SemaphoreCalls(renderFinishedSemaphores)
      ensures LiveViews(device.log) == old(LiveViews(device.log)) && LiveSwapchains(device.log) == old(LiveSwapchains(device.log))
      ensures old(FencesLive()) ==> FencesLive()
      ensures device.nextHandle >= old(device.nextHandle)
    {
      device.CallEach(DestroySemaphoreCalls(renderFinishedSemaphores));
      ghost var log1 := device.log;
      var render := device.CreateSemaphores(|swapchainImages|);
      renderFinishedSemaphores := render;
      if old(FencesLive()) {
        FencesStayLive(old(device.log), DestroySemaphoreCalls(old(renderFinishedSemaphores)), inFlightFences);
        FencesStayLive(log1, SemaphoreCalls(render), inFlightFences);
      }
    }

    /**
     * The rebuild with the image-indexed semaphores re-created for the new
     * swapchain: whatever number of images it has, the containers
     * `drawFrame` indexes stay large enough.
     */
    method MainLoopRebuildFixed(query: SurfaceQuery, answer: SwapchainAnswer, q: DepthQuery) returns (outcome: Outcome)
      requires Valid() && |q.memoryTypes| <= MAX_MEMORY_TYPES
      requires ImagesIssued()
      modifies this`updateSwapchain, this`swapchain, this`swapchainImages, this`swapchainImageFormat, this`swapchainExtent,
               this`swapchainImageViews, depthImages, depthImagesMemory, depthImageViews, this`renderFinishedSemaphores, device
      ensures Valid() && !updateSwapchain
      ensures outcome.Completed? <==> SwapchainBuilds(query, answer) && DepthBuilds(q)
      ensures outcome.Completed? ==>
        ImagesIssued() && |swapchainImages| == |swapchainImageViews| == |renderFinishedSemaphores| == answer.imageCount
      ensures outcome.Completed? && old(FrameObjectsSized()) ==> FrameObjectsSized()
      ensures outcome.Completed? && old(ResourcesAccounted()) ==> ResourcesAccounted()
      ensures outcome.Completed? && old(FencesLive()) ==> FencesLive()
    {
      outcome := MainLoopRebuild(query, answer, q);
      if outcome.Completed? {
        RecreateRenderSemaphores();
      }
    }
  }

  /** A frame in which every call the driver answers succeeds, acquiring the given image. */
  function SmoothFrame(image: u32, present: VkResult): FrameAnswer {
    FrameAnswer(SUCCESS, image, SUCCESS, SUCCESS, SUCCESS, present)
  }

  /**
   * A renderer that `initVulkan`, or with `fixedSync` its corrected form,
   * built on a fresh device for a surface whose swapchain reports
   * `imageCount` images: initialisation completes, and the renderer is
   * ready for its first frame.
   */
  method NewRenderer(query: SurfaceQuery, imageCount: nat, q: DepthQuery, fixedSync: bool) returns (r: Renderer, init: Outcome)
    requires SwapchainBuilds(query, SwapchainAnswer(SUCCESS, imageCount)) && |q.memoryTypes| <= MAX_MEMORY_TYPES && DepthBuilds(q)
    ensures init == Completed
    ensures fresh(r) && fresh(r.device) && fresh(r.depthImages) && fresh(r.depthImagesMemory) && fresh(r.depthImageViews)
    ensures r.Valid() && r.ImagesIssued() && r.FencesLive() && r.frameIndex == 0 && !r.updateSwapchain
    ensures |r.swapchainImages| == |r.swapchainImageViews| == imageCount && |r.commandBuffers| == IMAGES_IN_FLIGHT
    ensures !fixedSync ==> |r.imageAvailableSemaphores| == |r.renderFinishedSemaphores| == |r.inFlightFences| == imageCount
    ensures fixedSync ==> r.FrameObjectsSized() && |r.renderFinishedSemaphores| == imageCount
  {
    var device := new Device();
    r := new Renderer(device);
    if fixedSync {
      init := r.InitVulkanFixed(query, SwapchainAnswer(SUCCESS, imageCount), q, SUCCESS);
    } else {
      init := r.InitVulkan(query, SwapchainAnswer(SUCCESS, imageCount), q, SUCCESS);
    }
  }

  /**
   * A renderer built for a swapchain of `imageCount` images, by
   * `initVulkan` or, with `fixedSync`, its corrected form, after a first
   * frame that acquires image 0 and whose presentation answers `present`.
   */
  method FirstFrame(query: SurfaceQuery, imageCount: nat, q: DepthQuery, fixedSync: bool, present: VkResult)
    returns (r: Renderer, first: Outcome)
    requires imageCount > 0 && (present == SUCCESS || AsksForNewSwapchain(present))
    requires SwapchainBuilds(query, SwapchainAnswer(SUCCESS, imageCount)) && |q.memoryTypes| <= MAX_MEMORY_TYPES && DepthBuilds(q)
    ensures fresh(r) && fresh(r.device) && fresh(r.depthImages) && fresh(r.depthImagesMemory) && fresh(r.depthImageViews)
    ensures first == Completed && r.updateSwapchain == AsksForNewSwapchain(present)
    ensures r.Valid() && r.ImagesIssued() && r.FencesLive() && r.frameIndex == 1
    ensures |r.swapchainImages| == |r.swapchainImageViews| == |r.renderFinishedSemaphores| == imageCount
    ensures |r.commandBuffers| == IMAGES_IN_FLIGHT
    ensures fixedSync ==> |r.imageAvailableSemaphores| >= IMAGES_IN_FLIGHT && |r.inFlightFences| >= IMAGES_IN_FLIGHT
    ensures !fixedSync ==> |r.imageAvailableSemaphores| == |r.inFlightFences| == imageCount
  {
    var init;
    r, init := NewRenderer(query, imageCount, q, fixedSync);
    first := r.DrawFrame(SmoothFrame(0, present));
  }

  /**
   * A swapchain that the driver makes with a single image (as it must on a
   * surface whose maxImageCount is 1): `createSyncObjects` makes one fence, but `drawFrame` alternates between
   * two frame indices, so the first frame completes and the second one
   * indexes `inFlightFences` out of range.
   */
  method SingleImageSecondFrame(query: SurfaceQuery, q: DepthQuery) returns (first: Outcome, second: Outcome)
    requires SwapchainBuilds(query, SwapchainAnswer(SUCCESS, 1)) && |q.memoryTypes| <= MAX_MEMORY_TYPES && DepthBuilds(q)
    ensures first == Completed && second == IndexOutOfRange(IN_FLIGHT_FENCES_VEC)
  {
    var r;
    r, first := FirstFrame(query, 1, q, false, SUCCESS);
    second := r.DrawFrame(SmoothFrame(0, SUCCESS));
  }

  /** The same single-image swapchain with the frame-indexed objects sized by the frames in flight: both frames complete. */
  method SingleImageSecondFrameFixed(query: SurfaceQuery, q: DepthQuery) returns (first: Outcome, second: Outcome)
    requires SwapchainBuilds(query, SwapchainAnswer(SUCCESS, 1)) && |q.memoryTypes| <= MAX_MEMORY_TYPES && DepthBuilds(q)
    ensures first == Completed && second == Completed
  {
    var r;
    r, first := FirstFrame(query, 1, q, true, SUCCESS);
    second := r.DrawFrame(SmoothFrame(0, SUCCESS));
  }

  /**
   * A swapchain of two images that reports itself suboptimal and is
   * rebuilt with three: the rebuild keeps the two render-finished
   * semaphores, so the next frame, acquiring the third image, indexes
   * `renderFinishedSemaphores` out of range.
   */
  method GrownSwapchainFrame(query: SurfaceQuery, rebuilt: SurfaceQuery, q: DepthQuery)
    returns (first: Outcome, rebuild: Outcome, second: Outcome)
    requires SwapchainBuilds(query, SwapchainAnswer(SUCCESS, 2)) && SwapchainBuilds(rebuilt, SwapchainAnswer(SUCCESS, 3))
    requires |q.memoryTypes| <= MAX_MEMORY_TYPES && DepthBuilds(q)
    ensures first == Completed && rebuild == Completed && second == IndexOutOfRange(RENDER_FINISHED_SEMAPHORES_VEC)
  {
    var r;
    r, first := FirstFrame(query, 2, q, false, SUBOPTIMAL_KHR);
    rebuild := Completed;
    if r.updateSwapchain {
      rebuild := r.MainLoopRebuild(rebuilt, SwapchainAnswer(SUCCESS, 3), q);
    }
    assert r.frameIndex == 1 && |r.renderFinishedSemaphores| == 2 && |r.swapchainImages| == |r.swapchainImageViews| == 3;
    assert |r.inFlightFences| == |r.imageAvailableSemaphores| == 2 && |r.commandBuffers| == IMAGES_IN_FLIGHT;
    second := r.DrawFrame(SmoothFrame(2, SUCCESS));
  }

  /** The same frames with the render-finished semaphores re-created by the rebuild: every frame completes. */
  method GrownSwapchainFrameFixed(query: SurfaceQuery, rebuilt: SurfaceQuery, q: DepthQuery)
    returns (first: Outcome, rebuild: Outcome, second: Outcome)
    requires SwapchainBuilds(query, SwapchainAnswer(SUCCESS, 2)) && SwapchainBuilds(rebuilt, SwapchainAnswer(SUCCESS, 3))
    requires |q.memoryTypes| <= MAX_MEMORY_TYPES && DepthBuilds(q)
    ensures first == Completed && rebuild == Completed && second == Completed
  {
    var r;
    r, first := FirstFrame(query, 2, q, true, SUBOPTIMAL_KHR);
    rebuild := Completed;
    if r.updateSwapchain {
      rebuild := r.MainLoopRebuildFixed(rebuilt, SwapchainAnswer(SUCCESS, 3), q);
    }
    second := r.DrawFrame(SmoothFrame(2, SUCCESS));
  }
}
