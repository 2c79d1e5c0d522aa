/**
 * The renderer of Vulkan/Window.cpp: a `Window` object keeps the swapchain,
 * its images and views, one depth image, two frames' worth of shader-data
 * buffers, command buffers, fences and acquire semaphores, and one
 * render-finished semaphore per swapchain image.  `Init` builds them,
 * `Update` draws one frame, reacts to input, and rebuilds the swapchain
 * when it went out of date or the window was resized.  The results the
 * driver returns and the events the window system delivers are
 * parameters; `chk` ends the program with the failing result as exit code.
 */
module WindowRenderer {
  import opened VkTypes
  import opened SeqSearch
  import opened CapabilitySearch
  import opened Commands
  import opened DeviceModel

  const MAX_FRAMES_IN_FLIGHT: nat := 2
  const IMAGE_FORMAT: Format := FORMAT_B8G8R8A8_SRGB
  /** The depth formats `Init` tries, best first. */
  const DEPTH_FORMAT_LIST: seq<Format> := [FORMAT_D32_SFLOAT_S8_UINT, FORMAT_D24_UNORM_S8_UINT]
  /** The scene draws the mesh once per object, as instances. */
  const OBJECT_COUNT: nat := 3
  const DEFAULT_SELECTED: u32 := 1
  /** The exit code when the graphics queue cannot present to the window. */
  const NO_PRESENTATION_EXIT: int := -1

  // Names of the containers `Update` indexes.
  const SWAPCHAIN_IMAGES_VEC: string := "_swapchainImages"
  const SWAPCHAIN_IMAGE_VIEWS_VEC: string := "_swapchainImageViews"
  const RENDER_SEMAPHORES_VEC: string := "_renderSemaphores"

  // Why a wait never returns.
  const FENCE_NEVER_SIGNALLED: string := "vkWaitForFences on a fence nothing will signal"
  const WAIT_NEVER_SIGNALLED: string := "submission waits on a semaphore nothing will signal"

  /** `chk`: a result other than success ends the program with that result as exit code. */
  function Chk(r: VkResult): (o: Outcome)
    ensures o == Completed <==> r == SUCCESS
    ensures o != Completed ==> o == Exited(r.code)
  {
    if r != SUCCESS then Exited(r.code) else Completed
  }

  /**
   * `chkSwapchain`: an out-of-date swapchain is not an error, only a
   * request for a new one; any other error ends the program, and success
   * or a status code carries on.  It lets through everything `chk` does.
   */
  function SwapchainCheck(r: VkResult): (o: Outcome)
    ensures o == Completed <==> !r.IsError() || r == ERROR_OUT_OF_DATE_KHR
    ensures o != Completed ==> o == Exited(r.code)
    ensures Chk(r) == Completed ==> o == Completed
  {
    if r.IsError() && r != ERROR_OUT_OF_DATE_KHR then Exited(r.code) else Completed
  }

  /** The queue family `Init` renders and presents with: the first with graphics support, else family 0. */
  function GraphicsQueueFamily(families: seq<QueueFamily>): nat {
    match FirstIndex(families, SupportsGraphics)
    case Some(i) => i
    case None => 0
  }

  /**
   * The queue-family loop of `Init`: the index of the first family with
   * the graphics bit, or 0 when no family has it.
   */
  method SelectQueueFamily(families: seq<QueueFamily>) returns (queueFamily: nat)
    ensures queueFamily == GraphicsQueueFamily(families)
    ensures (exists j :: 0 <= j < |families| && SupportsGraphics(families[j])) ==>
      queueFamily < |families| && SupportsGraphics(families[queueFamily])
    ensures forall j :: 0 <= j < queueFamily && j < |families| ==> !SupportsGraphics(families[j])
    ensures (forall j :: 0 <= j < |families| ==> !SupportsGraphics(families[j])) ==> queueFamily == 0
  {
    queueFamily := 0;
    for i := 0 to |families|
      invariant forall j :: 0 <= j < i ==> !SupportsGraphics(families[j])
    {
      if SupportsGraphics(families[i]) {
        return i;
      }
    }
  }

  /** The depth format `Init` settles on: the first of the list the device can render depth into, else UNDEFINED. */
  function WindowDepthFormat(optimalTilingFeatures: Format -> bv32): Format {
    match FirstIndex(DEPTH_FORMAT_LIST, f => HasDepthStencilAttachment(optimalTilingFeatures(f)))
    case Some(i) => DEPTH_FORMAT_LIST[i]
    case None => FORMAT_UNDEFINED
  }

  /**
   * The depth-format loop of `Init`: D32_SFLOAT_S8_UINT when the device
   * can use it as depth-stencil attachment, otherwise D24_UNORM_S8_UINT if
   * it can use that, otherwise the format stays UNDEFINED.
   */
  method SelectDepthFormat(optimalTilingFeatures: Format -> bv32) returns (depthFormat: Format)
    ensures depthFormat == WindowDepthFormat(optimalTilingFeatures)
    ensures HasDepthStencilAttachment(optimalTilingFeatures(FORMAT_D32_SFLOAT_S8_UINT)) ==>
      depthFormat == FORMAT_D32_SFLOAT_S8_UINT
    ensures !HasDepthStencilAttachment(optimalTilingFeatures(FORMAT_D32_SFLOAT_S8_UINT)) &&
            HasDepthStencilAttachment(optimalTilingFeatures(FORMAT_D24_UNORM_S8_UINT)) ==>
      depthFormat == FORMAT_D24_UNORM_S8_UINT
    ensures !HasDepthStencilAttachment(optimalTilingFeatures(FORMAT_D32_SFLOAT_S8_UINT)) &&
            !HasDepthStencilAttachment(optimalTilingFeatures(FORMAT_D24_UNORM_S8_UINT)) ==>
      depthFormat == FORMAT_UNDEFINED
  {
    depthFormat := FORMAT_UNDEFINED;
    var formats := DEPTH_FORMAT_LIST;
    assert formats[0] == FORMAT_D32_SFLOAT_S8_UINT && formats[1] == FORMAT_D24_UNORM_S8_UINT;
    for i := 0 to |formats|
      invariant forall j :: 0 <= j < i ==> !HasDepthStencilAttachment(optimalTilingFeatures(formats[j]))
    {
      if HasDepthStencilAttachment(optimalTilingFeatures(formats[i])) {
        return formats[i];
      }
    }
  }

  /** The `+` key: the next object, wrapping from the last back to the first. */
  function NextSelected(s: u32): (r: u32)
    ensures r as nat < OBJECT_COUNT
    ensures s as nat < OBJECT_COUNT ==> r as nat == (s as nat + 1) % OBJECT_COUNT
  {
    if s < 2 then s + 1 else 0
  }

  /** The `-` key: the previous object, wrapping from the first to the last. */
  function PrevSelected(s: u32): (r: u32)
    ensures s as nat <= OBJECT_COUNT ==> r as nat < OBJECT_COUNT
    ensures s as nat < OBJECT_COUNT ==> r as nat == (s as nat + OBJECT_COUNT - 1) % OBJECT_COUNT
  {
    if s > 0 then s - 1 else 2
  }

  /** One key undoes the other on every object index. */
  lemma SelectionKeysInverse(s: u32)
    requires s as nat < OBJECT_COUNT
    ensures PrevSelected(NextSelected(s)) == s && NextSelected(PrevSelected(s)) == s
  {
  }

  /** The `+` key applied `n` times. */
  function NextSelectedTimes(s: u32, n: nat): (r: u32)
    decreases n
  {
    if n == 0 then s else NextSelected(NextSelectedTimes(s, n - 1))
  }

  /** Pressing `+` cycles through the objects: after `n` presses the selection has moved `n` places, modulo the object count. */
  lemma {:induction false} NextSelectedCycles(s: u32, n: nat)
    requires s as nat < OBJECT_COUNT
    ensures NextSelectedTimes(s, n) as nat == (s as nat + n) % OBJECT_COUNT
    decreases n
  {
    if n > 0 {
      NextSelectedCycles(s, n - 1);
    }
  }

  /**
   * The selection after one poll of the keyboard: `+` (keypad plus or `=`)
   * moves forward, then `-` (keypad minus) moves back; the selection
   * stays an object index, and pressing both keeps it where it was.
   */
  function SelectedAfterKeys(s: u32, plus: bool, minus: bool): (r: u32)
    ensures s as nat < OBJECT_COUNT ==> r as nat < OBJECT_COUNT
    ensures s as nat < OBJECT_COUNT && plus == minus ==> r == s
    ensures s as nat < OBJECT_COUNT && plus && !minus ==> r as nat == (s as nat + 1) % OBJECT_COUNT
    ensures s as nat < OBJECT_COUNT && !plus && minus ==> r as nat == (s as nat + OBJECT_COUNT - 1) % OBJECT_COUNT
  {
    var afterPlus := if plus then NextSelected(s) else s;
    if minus then PrevSelected(afterPlus) else afterPlus
  }

  /** `(f + 1) % maxFramesInFlight` for a frame index. */
  function NextFrameIndex(f: u32): (r: u32)
    ensures f as nat < MAX_FRAMES_IN_FLIGHT ==> r as nat == (f as nat + 1) % MAX_FRAMES_IN_FLIGHT
    ensures r as nat < MAX_FRAMES_IN_FLIGHT
  {
    if f == 0 then 1 else 0
  }

  /**
   * What `Update` records into the frame's command buffer: the colour
   * image and the depth image moved from whatever they held into the
   * attachment layout, dynamic rendering into both over the window's
   * size with viewport and scissor set to it, pipeline, texture
   * descriptors, vertex and index buffers bound, the address of the
   * frame's shader-data buffer pushed, the mesh drawn once per object as
   * instances, and the colour image moved to the presentation layout.
   */
  function UpdateCommands(colorImage: Handle, colorView: Handle, depthImage: Handle, depthView: Handle,
                          area: Extent2D, shaderData: Handle, indexCount: nat): seq<Command>
  {
    [ImageBarrier(colorImage, ColorAspect, IMAGE_LAYOUT_UNDEFINED, IMAGE_LAYOUT_ATTACHMENT_OPTIMAL),
     ImageBarrier(depthImage, DepthAspect, IMAGE_LAYOUT_UNDEFINED, IMAGE_LAYOUT_ATTACHMENT_OPTIMAL),
     BeginRendering(area,
                    Attachment(colorView, colorImage, IMAGE_LAYOUT_ATTACHMENT_OPTIMAL),
                    Attachment(depthView, depthImage, IMAGE_LAYOUT_ATTACHMENT_OPTIMAL)),
     SetViewport(area),
     SetScissor(area),
     BindPipeline,
     BindDescriptorSets,
     BindVertexBuffer,
     BindIndexBuffer,
     PushBufferAddress(shaderData),
     DrawIndexed(indexCount, OBJECT_COUNT),
     EndRendering,
     ImageBarrier(colorImage, ColorAspect, IMAGE_LAYOUT_COLOR_ATTACHMENT_OPTIMAL, IMAGE_LAYOUT_PRESENT_SRC_KHR)]
  }

  /**
   * Whatever layouts the images were left in, the list is consistent: both
   * attachments are in the layout they declare when rendering begins, the
   * present transition starts from the layout the colour image is in, and
   * the list leaves the colour image ready for presentation and the depth
   * image in its attachment layout.
   */
  lemma UpdateCommandsConsistent(layouts: map<Handle, ImageLayout>, colorImage: Handle, colorView: Handle,
                                 depthImage: Handle, depthView: Handle, area: Extent2D, shaderData: Handle, indexCount: nat)
    requires colorImage != depthImage
    ensures Replay(layouts, UpdateCommands(colorImage, colorView, depthImage, depthView, area, shaderData, indexCount)) ==
      Some(layouts[colorImage := IMAGE_LAYOUT_PRESENT_SRC_KHR][depthImage := IMAGE_LAYOUT_DEPTH_ATTACHMENT_OPTIMAL])
  {
    var cmds := UpdateCommands(colorImage, colorView, depthImage, depthView, area, shaderData, indexCount);
    var l1 := layouts[colorImage := IMAGE_LAYOUT_COLOR_ATTACHMENT_OPTIMAL];
    var l2 := l1[depthImage := IMAGE_LAYOUT_DEPTH_ATTACHMENT_OPTIMAL];
    var l3 := l2[colorImage := IMAGE_LAYOUT_PRESENT_SRC_KHR];
    assert Step(layouts, cmds[0]) == Some(l1);
    assert Step(l1, cmds[1]) == Some(l2);
    UpdateCommandsReplayRendering(l2, colorImage, colorView, depthImage, depthView, area, shaderData, indexCount);
    assert Replay(l1, cmds[1..]) == Some(l3);
    assert l3 == layouts[colorImage := IMAGE_LAYOUT_PRESENT_SRC_KHR][depthImage := IMAGE_LAYOUT_DEPTH_ATTACHMENT_OPTIMAL];
  }

  /**
   * From the start of rendering on, with both images in their attachment
   * layouts, the list is consistent and leaves the colour image ready for
   * presentation.
   */
  lemma UpdateCommandsReplayRendering(layouts: map<Handle, ImageLayout>, colorImage: Handle, colorView: Handle,
                                      depthImage: Handle, depthView: Handle, area: Extent2D, shaderData: Handle,
                                      indexCount: nat)
    requires LayoutOf(layouts, colorImage) == IMAGE_LAYOUT_COLOR_ATTACHMENT_OPTIMAL
    requires LayoutOf(layouts, depthImage) == IMAGE_LAYOUT_DEPTH_ATTACHMENT_OPTIMAL
    ensures Replay(layouts, UpdateCommands(colorImage, colorView, depthImage, depthView, area, shaderData, indexCount)[2..]) ==
      Some(layouts[colorImage := IMAGE_LAYOUT_PRESENT_SRC_KHR])
  {
    var cmds := UpdateCommands(colorImage, colorView, depthImage, depthView, area, shaderData, indexCount);
    var l3 := layouts[colorImage := IMAGE_LAYOUT_PRESENT_SRC_KHR];
    assert Step(layouts, cmds[2]) == Some(layouts);
    ReplayNeutral(layouts, cmds[3..12]);
    assert Step(layouts, cmds[12]) == Some(l3);
    assert Replay(l3, cmds[13..]) == Some(l3);
    assert Replay(layouts, cmds[12..]) == Some(l3);
    ReplayAppend(layouts, cmds[3..12], cmds[12..]);
    assert cmds[3..12] + cmds[12..] == cmds[3..];
  }

  /** The draw sits inside the list's one rendering scope, and no transition happens inside it. */
  lemma UpdateCommandsWellScoped(colorImage: Handle, colorView: Handle, depthImage: Handle, depthView: Handle,
                                 area: Extent2D, shaderData: Handle, indexCount: nat)
    ensures WellScoped(UpdateCommands(colorImage, colorView, depthImage, depthView, area, shaderData, indexCount), false)
  {
    var cmds := UpdateCommands(colorImage, colorView, depthImage, depthView, area, shaderData, indexCount);
    UpdateCommandsScopeEnd(colorImage, colorView, depthImage, depthView, area, shaderData, indexCount);
    assert WellScoped(cmds[5..], true);
    assert WellScoped(cmds[4..], true);
    assert WellScoped(cmds[3..], true);
    assert WellScoped(cmds[2..], false);
    assert WellScoped(cmds[1..], false);
  }

  /** From the bindings on, the list stays inside the rendering scope until it ends it. */
  lemma UpdateCommandsScopeEnd(colorImage: Handle, colorView: Handle, depthImage: Handle, depthView: Handle,
                               area: Extent2D, shaderData: Handle, indexCount: nat)
    ensures WellScoped(UpdateCommands(colorImage, colorView, depthImage, depthView, area, shaderData, indexCount)[6..], true)
  {
    var cmds := UpdateCommands(colorImage, colorView, depthImage, depthView, area, shaderData, indexCount);
    assert WellScoped(cmds[12..], false);
    assert WellScoped(cmds[11..], true);
    assert WellScoped(cmds[10..], true);
    assert WellScoped(cmds[9..], true);
    assert WellScoped(cmds[8..], true);
    assert WellScoped(cmds[7..], true);
  }

  /** The calls that create the fence and the acquire semaphore of each frame, frame by frame. */
  function FrameSyncCalls(fences: seq<Handle>, semaphores: seq<Handle>): seq<Call>
    requires |fences| == |semaphores|
    decreases |fences|
  {
    if fences == [] then []
    else
      var n := |fences| - 1;
      FrameSyncCalls(fences[..n], semaphores[..n]) + [CreateFence(fences[n], true), CreateSemaphore(semaphores[n])]
  }

  /** One more frame extends the calls by that frame's fence and semaphore. */
  lemma FrameSyncCallsSnoc(fences: seq<Handle>, semaphores: seq<Handle>, fence: Handle, semaphore: Handle)
    requires |fences| == |semaphores|
    ensures FrameSyncCalls(fences + [fence], semaphores + [semaphore]) ==
      FrameSyncCalls(fences, semaphores) + [CreateFence(fence, true), CreateSemaphore(semaphore)]
  {
    assert (fences + [fence])[..|fences|] == fences && (semaphores + [semaphore])[..|semaphores|] == semaphores;
  }

  /** The frame-sync calls create fences and semaphores only: no view, swapchain, signal or unsignalled fence. */
  lemma {:induction false} FrameSyncCallsQuiet(fences: seq<Handle>, semaphores: seq<Handle>)
    requires |fences| == |semaphores|
    ensures forall k :: 0 <= k < |FrameSyncCalls(fences, semaphores)| ==>
      ResourceNeutral(FrameSyncCalls(fences, semaphores)[k]) && Created(FrameSyncCalls(fences, semaphores)[k]).None?
    decreases |fences|
  {
    if fences != [] {
      var n := |fences| - 1;
      FrameSyncCallsQuiet(fences[..n], semaphores[..n]);
    }
  }

  /**
   * The calls of a frame as the corrected `Update` makes them: the fence is
   * waited for, an image acquired, and the fence reset only then, before
   * submission and presentation.
   */
  function FixedFrameCalls(swapchain: Handle, fence: Handle, imageAvailable: Handle, renderFinished: Handle,
                           commandBuffer: Handle, cmds: seq<Command>, image: u32, acquire: VkResult, present: VkResult): seq<Call>
  {
    [WaitForFence(fence), AcquireNextImage(swapchain, imageAvailable, acquire), ResetFence(fence),
     QueueSubmit(imageAvailable, commandBuffer, cmds, renderFinished, fence),
     QueuePresent(swapchain, renderFinished, image, present)]
  }

  /** After such a frame the frame's fence awaits the submission, and every other fence is as it was. */
  lemma FixedFrameCallsFence(log: seq<Call>, swapchain: Handle, fence: Handle, imageAvailable: Handle, renderFinished: Handle,
                             commandBuffer: Handle, cmds: seq<Command>, image: u32, acquire: VkResult, present: VkResult, g: Handle)
    ensures FenceAfter(log + FixedFrameCalls(swapchain, fence, imageAvailable, renderFinished, commandBuffer, cmds, image, acquire, present), g) ==
      (if g == fence then Pending else FenceAfter(log, g))
  {
    var cs := FixedFrameCalls(swapchain, fence, imageAvailable, renderFinished, commandBuffer, cmds, image, acquire, present);
    var l1 := log + [cs[0]];
    var l2 := l1 + [cs[1]];
    var l3 := l2 + [cs[2]];
    var l4 := l3 + [cs[3]];
    assert log + cs == l4 + [cs[4]];
    FenceAfterSnoc(log, cs[0], g);
    FenceAfterSnoc(l1, cs[1], g);
    FenceAfterSnoc(l2, cs[2], g);
    FenceAfterSnoc(l3, cs[3], g);
    FenceAfterSnoc(l4, cs[4], g);
  }

  /**
   * A corrected frame made in two parts: every fence that was live before
   * it is live after it, the frame's own fence awaits the submission, and
   * no view or swapchain comes or goes.
   */
  lemma FixedFrameKeepsFencesLive(log0: seq<Call>, log1: seq<Call>, log: seq<Call>, fences: seq<Handle>, swapchain: Handle,
                                  fence: Handle, imageAvailable: Handle, renderFinished: Handle, commandBuffer: Handle,
                                  cmds: seq<Command>, image: u32, acquire: VkResult, present: VkResult)
    requires log1 == log0 + [WaitForFence(fence), AcquireNextImage(swapchain, imageAvailable, acquire)]
    requires log == log1 + [ResetFence(fence), QueueSubmit(imageAvailable, commandBuffer, cmds, renderFinished, fence),
                            QueuePresent(swapchain, renderFinished, image, present)]
    ensures log == log0 + FixedFrameCalls(swapchain, fence, imageAvailable, renderFinished, commandBuffer, cmds, image, acquire, present)
    ensures FenceAfter(log, fence) == Pending
    ensures (forall i :: 0 <= i < |fences| ==> FenceAfter(log0, fences[i]) != Unsignalled) ==>
      (forall i :: 0 <= i < |fences| ==> FenceAfter(log, fences[i]) != Unsignalled)
    ensures LiveViews(log) == LiveViews(log0) && LiveSwapchains(log) == LiveSwapchains(log0)
  {
    assert log == log0 + FixedFrameCalls(swapchain, fence, imageAvailable, renderFinished, commandBuffer, cmds, image, acquire, present);
    NeutralCalls(log0, FixedFrameCalls(swapchain, fence, imageAvailable, renderFinished, commandBuffer, cmds, image, acquire, present));
    FixedFrameCallsFence(log0, swapchain, fence, imageAvailable, renderFinished, commandBuffer, cmds, image, acquire, present, fence);
    forall i | 0 <= i < |fences|
      ensures FenceAfter(log, fences[i]) == (if fences[i] == fence then Pending else FenceAfter(log0, fences[i]))
    {
      FixedFrameCallsFence(log0, swapchain, fence, imageAvailable, renderFinished, commandBuffer, cmds, image, acquire, present, fences[i]);
    }
  }

  /**
   * A frame as written, assembled from its start and its end, makes the
   * frame's calls: the frame's fence awaits the submission, every fence
   * that was live is live, and no view or swapchain comes or goes.
   */
  lemma FrameAssembled(log0: seq<Call>, fences: seq<Handle>, swapchain: Handle, fence: Handle, imageAvailable: Handle,
                       renderFinished: Handle, commandBuffer: Handle, cmds: seq<Command>, image: u32,
                       acquire: VkResult, present: VkResult)
    ensures var log := log0 + [WaitForFence(fence), ResetFence(fence)] + [AcquireNextImage(swapchain, imageAvailable, acquire)] +
                       RenderCalls(swapchain, fence, imageAvailable, renderFinished, commandBuffer, cmds, image, present);
      log == log0 + FrameCalls(swapchain, fence, imageAvailable, renderFinished, commandBuffer, cmds, image, acquire, present) &&
      FenceAfter(log, fence) == Pending &&
      (FencesLiveIn(log0, fences) ==> FencesLiveIn(log, fences)) &&
      LiveViews(log) == LiveViews(log0) && LiveSwapchains(log) == LiveSwapchains(log0)
  {
    var log1 := log0 + [WaitForFence(fence), ResetFence(fence)];
    var log := log1 + [AcquireNextImage(swapchain, imageAvailable, acquire)] +
               RenderCalls(swapchain, fence, imageAvailable, renderFinished, commandBuffer, cmds, image, present);
    FrameKeepsFencesLive(log0, log1, log, fences, swapchain, fence, imageAvailable, renderFinished, commandBuffer, cmds,
                         image, acquire, present);
    FrameCallsEffects(log0, swapchain, fence, imageAvailable, renderFinished, commandBuffer, cmds, image, acquire, present);
  }

  /** The same for the corrected frame, whose fence is reset after the acquire. */
  lemma FixedFrameAssembled(log0: seq<Call>, fences: seq<Handle>, swapchain: Handle, fence: Handle, imageAvailable: Handle,
                            renderFinished: Handle, commandBuffer: Handle, cmds: seq<Command>, image: u32,
                            acquire: VkResult, present: VkResult)
    ensures var log := log0 + [WaitForFence(fence), AcquireNextImage(swapchain, imageAvailable, acquire)] + [ResetFence(fence)] +
                       RenderCalls(swapchain, fence, imageAvailable, renderFinished, commandBuffer, cmds, image, present);
      log == log0 + FixedFrameCalls(swapchain, fence, imageAvailable, renderFinished, commandBuffer, cmds, image, acquire, present) &&
      FenceAfter(log, fence) == Pending &&
      (FencesLiveIn(log0, fences) ==> FencesLiveIn(log, fences)) &&
      LiveViews(log) == LiveViews(log0) && LiveSwapchains(log) == LiveSwapchains(log0)
  {
    var log1 := log0 + [WaitForFence(fence), AcquireNextImage(swapchain, imageAvailable, acquire)];
    var log := log1 + [ResetFence(fence)] +
               RenderCalls(swapchain, fence, imageAvailable, renderFinished, commandBuffer, cmds, image, present);
    assert log == log1 + [ResetFence(fence), QueueSubmit(imageAvailable, commandBuffer, cmds, renderFinished, fence),
                          QueuePresent(swapchain, renderFinished, image, present)];
    FixedFrameKeepsFencesLive(log0, log1, log, fences, swapchain, fence, imageAvailable, renderFinished, commandBuffer, cmds,
                              image, acquire, present);
  }

  /**
   * Calls that neither unsignal a fence nor signal a semaphore keep every
   * live fence live and every idle semaphore idle.
   */
  lemma QuietCalls(log: seq<Call>, cs: seq<Call>, fences: seq<Handle>, semaphores: seq<Handle>)
    requires forall k :: 0 <= k < |cs| ==> NeverUnsignals(cs[k]) && NeverSignals(cs[k])
    ensures FencesLiveIn(log, fences) ==> FencesLiveIn(log + cs, fences)
    ensures SemaphoresIdleIn(log, semaphores) ==> SemaphoresIdleIn(log + cs, semaphores)
  {
    if FencesLiveIn(log, fences) {
      FencesStayLive(log, cs, fences);
    }
    forall i | 0 <= i < |semaphores| && !SignalPending(log, semaphores[i])
      ensures !SignalPending(log + cs, semaphores[i])
    {
      SignalStaysClear(log, cs, semaphores[i]);
    }
  }

  /**
   * The view bookkeeping of the swapchain rebuild: when the views that
   * exist are the colour views and the depth view the window holds, and
   * all of them are destroyed, the views that exist after recreating them
   * are exactly the new ones.
   */
  lemma RebuiltWindowViews(live: set<Handle>, oldColor: set<Handle>, oldDepth: Handle, newColor: set<Handle>,
                           newDepth: Handle, bound: nat)
    requires live == oldColor + {oldDepth}
    requires oldDepth < bound
    requires forall v :: v in newColor ==> bound <= v
    ensures (((live - oldColor) + newColor) - {oldDepth}) + {newDepth} == newColor + {newDepth}
  {
  }

  /** The answers `Init` gets from the window system, the device and the allocator. */
  datatype InitQuery = InitQuery(
    families: seq<QueueFamily>,
    presentationSupport: nat -> bool,
    windowWidth: u32,
    windowHeight: u32,
    capsResult: VkResult,
    capabilities: SurfaceCapabilities,
    createResult: VkResult,
    imageCount: u32,
    optimalTilingFeatures: Format -> bv32,
    depthImageResult: VkResult,
    allocateResult: VkResult,
    indexCount: nat)

  /**
   * How `Init` ends: exit with -1 when the chosen queue family cannot
   * present to the window, otherwise the first failing `chk` among the
   * surface-capability query, swapchain creation, depth-image allocation
   * and command-buffer allocation decides.
   */
  function InitOutcome(q: InitQuery): (o: Outcome)
    ensures o == Completed <==>
      q.presentationSupport(GraphicsQueueFamily(q.families)) && q.capsResult == SUCCESS &&
      q.createResult == SUCCESS && q.depthImageResult == SUCCESS && q.allocateResult == SUCCESS
    ensures q.presentationSupport(GraphicsQueueFamily(q.families)) && q.capsResult != SUCCESS ==>
      o == Exited(q.capsResult.code)
  {
    if !q.presentationSupport(GraphicsQueueFamily(q.families)) then Exited(NO_PRESENTATION_EXIT)
    else if q.capsResult != SUCCESS then Exited(q.capsResult.code)
    else if q.createResult != SUCCESS then Exited(q.createResult.code)
    else if q.depthImageResult != SUCCESS then Exited(q.depthImageResult.code)
    else Chk(q.allocateResult)
  }

  /** The results the driver returns during one frame of `Update`, and the image the acquire hands out. */
  datatype TickAnswer = TickAnswer(
    wait: VkResult,
    reset: VkResult,
    acquire: VkResult,
    acquiredIndex: u32,
    resetBuffer: VkResult,
    begin: VkResult,
    submit: VkResult,
    present: VkResult)

  /** An acquire only hands out an image the swapchain has. */
  predicate TickAnswerPossible(a: TickAnswer, imageCount: nat) {
    AcquireResultPossible(a.acquire) && (Acquired(a.acquire) ==> a.acquiredIndex as nat < imageCount)
  }

  /**
   * How the frame part of `Update` ends when the frame's fence is live and
   * every container it indexes is large enough, for an acquire that is not
   * out of date: the first failing check decides.
   */
  function TickOutcome(a: TickAnswer): Outcome {
    if a.wait != SUCCESS then Exited(a.wait.code)
    else if a.reset != SUCCESS then Exited(a.reset.code)
    else if SwapchainCheck(a.acquire) != Completed then SwapchainCheck(a.acquire)
    else if a.resetBuffer != SUCCESS then Exited(a.resetBuffer.code)
    else if a.begin != SUCCESS then Exited(a.begin.code)
    else if a.submit != SUCCESS then Exited(a.submit.code)
    else SwapchainCheck(a.present)
  }

  /**
   * How the corrected frame ends under the same conditions, for every
   * acquire result: an out-of-date acquire ends the frame early, and the
   * fence is reset only after an image was acquired.
   */
  function FixedTickOutcome(a: TickAnswer): Outcome {
    if a.wait != SUCCESS then Exited(a.wait.code)
    else if a.acquire == ERROR_OUT_OF_DATE_KHR then Completed
    else if SwapchainCheck(a.acquire) != Completed then SwapchainCheck(a.acquire)
    else if a.reset != SUCCESS then Exited(a.reset.code)
    else if a.resetBuffer != SUCCESS then Exited(a.resetBuffer.code)
    else if a.begin != SUCCESS then Exited(a.begin.code)
    else if a.submit != SUCCESS then Exited(a.submit.code)
    else SwapchainCheck(a.present)
  }

  /** The new framebuffer size the resize callback reports. */
  datatype FramebufferSize = FramebufferSize(width: u32, height: u32)

  /** What one poll of the window system delivers: at most one resize, and whether the `+` and `-` keys are down. */
  datatype Events = Events(resize: Option<FramebufferSize>, plus: bool, minus: bool)

  /** The results the driver returns during the swapchain rebuild, and the new image count. */
  datatype RebuildAnswer = RebuildAnswer(
    capsResult: VkResult,
    createResult: VkResult,
    imageCount: u32,
    depthImageResult: VkResult)

  /**
   * How the rebuild ends: the first failing `chk` decides, and destroying
   * the first `_imageCount` views indexes the view list out of range when
   * it holds fewer.
   */
  function RebuildOutcome(r: RebuildAnswer, viewsInRange: bool): Outcome {
    if r.capsResult != SUCCESS then Exited(r.capsResult.code)
    else if r.createResult != SUCCESS then Exited(r.createResult.code)
    else if !viewsInRange then IndexOutOfRange(SWAPCHAIN_IMAGE_VIEWS_VEC)
    else Chk(r.depthImageResult)
  }

  /** Whether `Update` rebuilds the swapchain: asked for before, by a resize, or by an out-of-date result. */
  predicate RebuildDue(flag: bool, a: TickAnswer, e: Events) {
    flag || a.acquire == ERROR_OUT_OF_DATE_KHR || a.present == ERROR_OUT_OF_DATE_KHR || e.resize.Some?
  }

  /** How `Update` ends: a frame that does not complete ends it, otherwise a rebuild that is due decides. */
  function UpdateOutcome(frame: Outcome, rebuildDue: bool, rebuild: Outcome): Outcome {
    if !frame.Completed? then frame else if rebuildDue then rebuild else Completed
  }

  /**
   * How recording, submission and presentation end, for the image at
   * `imageIndex`, the sizes of the containers indexed by it, and whether
   * the semaphore the submission waits on has a signal pending: the
   * command-buffer `chk`s, then the images, views and render-finished
   * semaphores indexed in source order, then the submission's `chk`; a
   * submission waiting on a semaphore nothing will signal never completes.
   */
  function RenderOutcome(a: TickAnswer, imageIndex: nat, images: nat, views: nat, renderSemaphores: nat,
                         signalled: bool): Outcome
  {
    if a.resetBuffer != SUCCESS then Exited(a.resetBuffer.code)
    else if a.begin != SUCCESS then Exited(a.begin.code)
    else if imageIndex >= images then IndexOutOfRange(SWAPCHAIN_IMAGES_VEC)
    else if imageIndex >= views then IndexOutOfRange(SWAPCHAIN_IMAGE_VIEWS_VEC)
    else if imageIndex >= renderSemaphores then IndexOutOfRange(RENDER_SEMAPHORES_VEC)
    else if a.submit != SUCCESS then Exited(a.submit.code)
    else if !signalled then Hang(WAIT_NEVER_SIGNALLED)
    else SwapchainCheck(a.present)
  }

  /**
   * How the frame part of `Update` ends on every path, given whether the
   * frame's fence will ever be signalled, the image index before the
   * frame, the container sizes, and whether the frame's acquire semaphore
   * has a signal pending before the frame.  The acquire hands out
   * `acquiredIndex` and signals the semaphore only when it succeeds; an
   * out-of-date acquire does neither, and the frame goes on.
   */
  function FrameOutcome(a: TickAnswer, fenceLive: bool, imageIndex: nat, images: nat, views: nat,
                        renderSemaphores: nat, pending: bool): Outcome
  {
    if !fenceLive then Hang(FENCE_NEVER_SIGNALLED)
    else if a.wait != SUCCESS then Exited(a.wait.code)
    else if a.reset != SUCCESS then Exited(a.reset.code)
    else if SwapchainCheck(a.acquire) != Completed then SwapchainCheck(a.acquire)
    else RenderOutcome(a, if Acquired(a.acquire) then a.acquiredIndex as nat else imageIndex, images, views,
                       renderSemaphores, Acquired(a.acquire) || pending)
  }

  /**
   * The corrected frame: an out-of-date acquire ends the frame before
   * anything is reset, recorded or submitted, and the fence is reset only
   * once an image was acquired.
   */
  function FixedFrameOutcome(a: TickAnswer, fenceLive: bool, imageIndex: nat, images: nat, views: nat,
                             renderSemaphores: nat, pending: bool): Outcome
  {
    if !fenceLive then Hang(FENCE_NEVER_SIGNALLED)
    else if a.wait != SUCCESS then Exited(a.wait.code)
    else if a.acquire == ERROR_OUT_OF_DATE_KHR then Completed
    else if SwapchainCheck(a.acquire) != Completed then SwapchainCheck(a.acquire)
    else if a.reset != SUCCESS then Exited(a.reset.code)
    else RenderOutcome(a, if Acquired(a.acquire) then a.acquiredIndex as nat else imageIndex, images, views,
                       renderSemaphores, Acquired(a.acquire) || pending)
  }

  /**
   * With a live fence, an acquire that is possible and not out of date,
   * and containers as long as the image list, the frame ends as the first
   * failing check says: no index is out of range and no wait hangs.
   */
  lemma FrameOutcomeInOrder(a: TickAnswer, imageIndex: nat, images: nat, views: nat, renderSemaphores: nat, pending: bool)
    requires TickAnswerPossible(a, images) && a.acquire != ERROR_OUT_OF_DATE_KHR
    requires views == images && renderSemaphores >= images
    ensures FrameOutcome(a, true, imageIndex, images, views, renderSemaphores, pending) == TickOutcome(a)
  {
  }

  /**
   * An out-of-date acquire leaves the acquire semaphore unsignalled, yet
   * the frame is still recorded and submitted waiting on it: when every
   * call before the submission succeeds, the frame never completes.
   */
  lemma OutOfDateFrameHangs(a: TickAnswer, imageIndex: nat, images: nat, views: nat, renderSemaphores: nat)
    requires a.acquire == ERROR_OUT_OF_DATE_KHR
    requires a.wait == SUCCESS && a.reset == SUCCESS && a.resetBuffer == SUCCESS && a.begin == SUCCESS &&
             a.submit == SUCCESS
    requires imageIndex < images && imageIndex < views && imageIndex < renderSemaphores
    ensures FrameOutcome(a, true, imageIndex, images, views, renderSemaphores, false) == Hang(WAIT_NEVER_SIGNALLED)
  {
  }

  /**
   * An acquired image whose index reaches past the render-finished
   * semaphores (there are fewer of them than images) indexes them out of
   * range once the frame is recorded.
   */
  lemma FewerRenderSemaphoresOutOfRange(a: TickAnswer, imageIndex: nat, images: nat, views: nat,
                                        renderSemaphores: nat, pending: bool)
    requires Acquired(a.acquire) && a.wait == SUCCESS && a.reset == SUCCESS && a.resetBuffer == SUCCESS &&
             a.begin == SUCCESS
    requires a.acquiredIndex as nat < images && images == views && renderSemaphores <= a.acquiredIndex as nat
    ensures FrameOutcome(a, true, imageIndex, images, views, renderSemaphores, pending) ==
      IndexOutOfRange(RENDER_SEMAPHORES_VEC)
  {
  }

  /**
   * The corrected frame under the same conditions ends as the first
   * failing check says for every acquire result, out of date included;
   * an out-of-date acquire is no error and skips the frame.
   */
  lemma FixedFrameOutcomeInOrder(a: TickAnswer, imageIndex: nat, images: nat, views: nat, renderSemaphores: nat,
                                 pending: bool)
    requires TickAnswerPossible(a, images)
    requires views == images && renderSemaphores >= images
    ensures FixedFrameOutcome(a, true, imageIndex, images, views, renderSemaphores, pending) == FixedTickOutcome(a)
    ensures a.acquire == ERROR_OUT_OF_DATE_KHR && a.wait == SUCCESS ==>
      FixedFrameOutcome(a, true, imageIndex, images, views, renderSemaphores, pending) == Completed
  {
  }

  /** Waiting for or resetting a fence leaves every semaphore's pending signal as it was. */
  lemma FenceCallSignals(log: seq<Call>, c: Call, sem: Handle)
    requires c.WaitForFence? || c.ResetFence?
    ensures SignalPending(log + [c], sem) == SignalPending(log, sem)
  {
    SignalAfterSnoc(log, c, sem);
  }

  /** Waiting for and resetting a fence leave every semaphore's pending signal as it was. */
  lemma WaitResetSignals(log: seq<Call>, fence: Handle, sem: Handle)
    ensures SignalPending(log + [WaitForFence(fence), ResetFence(fence)], sem) == SignalPending(log, sem)
  {
    assert log + [WaitForFence(fence), ResetFence(fence)] == (log + [WaitForFence(fence)]) + [ResetFence(fence)];
    FenceCallSignals(log, WaitForFence(fence), sem);
    FenceCallSignals(log + [WaitForFence(fence)], ResetFence(fence), sem);
  }

  /**
   * Waiting for a fence and acquiring an image, the corrected frame when
   * the acquire is out of date, create and destroy nothing and keep every
   * live fence live.
   */
  lemma WaitAcquireQuiet(log: seq<Call>, fence: Handle, swapchain: Handle, sem: Handle, acquire: VkResult,
                         fences: seq<Handle>)
    ensures LiveViews(log + [WaitForFence(fence), AcquireNextImage(swapchain, sem, acquire)]) == LiveViews(log)
    ensures LiveSwapchains(log + [WaitForFence(fence), AcquireNextImage(swapchain, sem, acquire)]) == LiveSwapchains(log)
    ensures (forall i :: 0 <= i < |fences| ==> FenceAfter(log, fences[i]) != Unsignalled) ==>
      (forall i :: 0 <= i < |fences| ==>
         FenceAfter(log + [WaitForFence(fence), AcquireNextImage(swapchain, sem, acquire)], fences[i]) != Unsignalled)
  {
    var cs := [WaitForFence(fence), AcquireNextImage(swapchain, sem, acquire)];
    NeutralCalls(log, cs);
    if forall i :: 0 <= i < |fences| ==> FenceAfter(log, fences[i]) != Unsignalled {
      FencesStayLive(log, cs, fences);
    }
  }

  /** No fence of the list is unsignalled with nothing submitted against it, so waiting on any of them returns. */
  ghost predicate FencesLiveIn(log: seq<Call>, fences: seq<Handle>) {
    forall i :: 0 <= i < |fences| ==> FenceAfter(log, fences[i]) != Unsignalled
  }

  /** No semaphore of the list has a signal pending. */
  ghost predicate SemaphoresIdleIn(log: seq<Call>, semaphores: seq<Handle>) {
    forall i :: 0 <= i < |semaphores| ==> !SignalPending(log, semaphores[i])
  }

  /** The members of `Window` (Vulkan/Window.h) that the renderer's core reads and writes. */
  class Window {
    const device: Device
    var swapchain: Handle
    var swapchainImages: seq<Handle>
    var swapchainImageViews: seq<Handle>
    var depthImage: Handle
    var depthImageAllocation: Handle
    var depthImageView: Handle
    /** The device address of each frame's shader-data buffer. */
    const shaderDataAddresses: array<Handle>
    const commandBuffers: array<Handle>
    const fences: array<Handle>
    /** The per-frame semaphores the acquire signals (`_presentSemaphores`). */
    const presentSemaphores: array<Handle>
    /** The per-image semaphores the submission signals. */
    var renderSemaphores: seq<Handle>
    var frameIndex: u32
    var imageIndex: u32
    /** The static flag the resize callback and `chkSwapchain` set. */
    var updateSwapchain: bool
    /** The static window size the resize callback writes. */
    var width: u32
    var height: u32
    /** The object the mouse rotates. */
    var selected: u32
    var indexCount: nat
    /** The member `_imageCount`: how many images the last rebuild fetched. */
    var imageCount: u32
    var depthFormat: Format
    var depthExtent: Extent2D
    // The fields of the swapchain create-info that the rebuild reuses.
    var swapchainMinImageCount: u32
    var swapchainExtent: Extent2D
    var oldSwapchain: Handle

    /**
     * The four per-frame arrays are distinct arrays of
     * MAX_FRAMES_IN_FLIGHT entries, the frame index stays below
     * MAX_FRAMES_IN_FLIGHT and the selection is an object index.
     */
    ghost predicate Valid()
      reads this`frameIndex, this`selected, device
    {
      device.Valid() &&
      shaderDataAddresses.Length == MAX_FRAMES_IN_FLIGHT && commandBuffers.Length == MAX_FRAMES_IN_FLIGHT &&
      fences.Length == MAX_FRAMES_IN_FLIGHT && presentSemaphores.Length == MAX_FRAMES_IN_FLIGHT &&
      shaderDataAddresses != commandBuffers && shaderDataAddresses != fences && shaderDataAddresses != presentSemaphores &&
      commandBuffers != fences && commandBuffers != presentSemaphores && fences != presentSemaphores &&
      frameIndex as nat < MAX_FRAMES_IN_FLIGHT && selected as nat < OBJECT_COUNT
    }

    /**
     * The swapchain and every image held were handed out by the device,
     * and the depth image is none of the swapchain images.
     */
    ghost predicate ImagesIssued()
      reads this`swapchain, this`swapchainImages, this`depthImage, device`nextHandle
    {
      swapchain < device.nextHandle && depthImage < device.nextHandle &&
      (forall i :: 0 <= i < |swapchainImages| ==> swapchainImages[i] < device.nextHandle) &&
      (forall i :: 0 <= i < |swapchainImages| ==> swapchainImages[i] != depthImage)
    }

    /** The containers `Update` indexes by the acquired image are long enough for any image the swapchain hands out. */
    ghost predicate FrameSlotsReady()
      reads this`swapchainImages, this`swapchainImageViews, this`renderSemaphores
    {
      |swapchainImageViews| == |swapchainImages| && |renderSemaphores| >= |swapchainImages|
    }

    /** The views and swapchains that exist on the device are exactly those the window holds. */
    ghost predicate ResourcesAccounted()
      reads this`swapchain, this`swapchainImageViews, this`depthImageView, device`log
    {
      LiveViews(device.log) == Elements(swapchainImageViews) + {depthImageView} &&
      LiveSwapchains(device.log) == {swapchain}
    }

    /** No fence is unsignalled with nothing submitted against it, so waiting on it returns. */
    ghost predicate FencesLive()
      reads device`log, fences
    {
      FencesLiveIn(device.log, fences[..])
    }

    /** No acquire semaphore has a signal pending. */
    ghost predicate AcquireSemaphoresIdle()
      reads device`log, presentSemaphores
    {
      SemaphoresIdleIn(device.log, presentSemaphores[..])
    }

    /**
     * What a completed frame at frame index `f` leaves behind, given the log
     * before it: every container it indexed was long enough, the log grew by
     * exactly the frame's calls (in the corrected order with `fixed`), the
     * submitted command list is consistent, and the frame's fence awaits the
     * submission.
     */
    ghost predicate TickMade(log0: seq<Call>, f: u32, a: TickAnswer, fixed: bool)
      reads this, device, shaderDataAddresses, commandBuffers, fences, presentSemaphores
    {
      f as nat < shaderDataAddresses.Length && f as nat < commandBuffers.Length && f as nat < fences.Length &&
      f as nat < presentSemaphores.Length &&
      imageIndex as nat < |swapchainImages| && imageIndex as nat < |swapchainImageViews| &&
      imageIndex as nat < |renderSemaphores| &&
      var cmds := FrameCommands(f as nat);
      var calls := if fixed then
          FixedFrameCalls(swapchain, fences[f], presentSemaphores[f], renderSemaphores[imageIndex], commandBuffers[f], cmds,
                          imageIndex, a.acquire, a.present)
        else
          FrameCalls(swapchain, fences[f], presentSemaphores[f], renderSemaphores[imageIndex], commandBuffers[f], cmds,
                     imageIndex, a.acquire, a.present);
      device.log == log0 + calls && Replay(map[], cmds).Some? && FenceAfter(device.log, fences[f]) == Pending
    }

    /**
     * The members as the class declares them before `Init`: null handles,
     * empty vectors, indices 0, object 1 selected, no rebuild asked for,
     * and an UNDEFINED depth format.
     */
    constructor (device: Device)
      requires device.Valid()
      ensures Valid() && ImagesIssued() && this.device == device
      ensures swapchain == NULL_HANDLE && swapchainImages == [] && swapchainImageViews == [] && renderSemaphores == []
      ensures frameIndex == 0 && imageIndex == 0 && !updateSwapchain && selected == DEFAULT_SELECTED
      ensures imageCount == 0 && depthFormat == FORMAT_UNDEFINED && oldSwapchain == NULL_HANDLE
      ensures fresh(shaderDataAddresses) && fresh(commandBuffers) && fresh(fences) && fresh(presentSemaphores)
    {
      this.device := device;
      swapchain := NULL_HANDLE;
      swapchainImages := [];
      swapchainImageViews := [];
      depthImage := NULL_HANDLE;
      depthImageAllocation := NULL_HANDLE;
      depthImageView := NULL_HANDLE;
      shaderDataAddresses := new Handle[MAX_FRAMES_IN_FLIGHT](_ => NULL_HANDLE);
      commandBuffers := new Handle[MAX_FRAMES_IN_FLIGHT](_ => NULL_HANDLE);
      fences := new Handle[MAX_FRAMES_IN_FLIGHT](_ => NULL_HANDLE);
      presentSemaphores := new Handle[MAX_FRAMES_IN_FLIGHT](_ => NULL_HANDLE);
      renderSemaphores := [];
      frameIndex := 0;
      imageIndex := 0;
      updateSwapchain := false;
      width := 0;
      height := 0;
      selected := DEFAULT_SELECTED;
      indexCount := 0;
      imageCount := 0;
      depthFormat := FORMAT_UNDEFINED;
      depthExtent := Extent2D(0, 0);
      swapchainMinImageCount := 0;
      swapchainExtent := Extent2D(0, 0);
      oldSwapchain := NULL_HANDLE;
    }

    /** `chkSwapchain`: an out-of-date result asks for a new swapchain and carries on. */
    method ChkSwapchain(r: VkResult) returns (outcome: Outcome)
      modifies this`updateSwapchain
      ensures outcome == SwapchainCheck(r)
      ensures updateSwapchain == (old(updateSwapchain) || r == ERROR_OUT_OF_DATE_KHR)
    {
      if r.IsError() {
        if r == ERROR_OUT_OF_DATE_KHR {
          updateSwapchain := true;
          return Completed;
        }
        return Exited(r.code);
      }
      outcome := Completed;
    }

    /** `framebufferResizeCallback`: records the new size and asks for a new swapchain. */
    method FramebufferResizeCallback(size: FramebufferSize)
      modifies this`updateSwapchain, this`width, this`height
      ensures updateSwapchain && width == size.width && height == size.height
    {
      updateSwapchain := true;
      width := size.width;
      height := size.height;
    }

    /**
     * The swapchain creation of `Init`: the create-info takes the surface's
     * minimum image count and current extent and FIFO presentation, the
     * swapchain is created and its images fetched.  A failed creation ends
     * the program before anything reaches the device.
     */
    method CreateWindowSwapchain(q: InitQuery) returns (outcome: Outcome)
      requires Valid() && ImagesIssued()
      modifies this`swapchain, this`swapchainImages, this`swapchainMinImageCount, this`swapchainExtent, device
      ensures Valid() && ImagesIssued()
      ensures swapchainMinImageCount == q.capabilities.minImageCount && swapchainExtent == q.capabilities.currentExtent
      ensures outcome == Chk(q.createResult)
      ensures !outcome.Completed? ==> device.log == old(device.log)
      ensures outcome.Completed? ==>
        swapchain == old(device.nextHandle) && |swapchainImages| == q.imageCount as nat &&
        device.log == old(device.log) + [
          Call.CreateSwapchain(swapchain, swapchainMinImageCount, swapchainExtent, PRESENT_MODE_FIFO_KHR, oldSwapchain),
          GetSwapchainImages(swapchain, swapchainImages)]
      ensures outcome.Completed? ==>
        LiveViews(device.log) == old(LiveViews(device.log)) &&
        LiveSwapchains(device.log) == old(LiveSwapchains(device.log)) + {swapchain}
      ensures device.nextHandle >= old(device.nextHandle)
    {
      swapchainMinImageCount := q.capabilities.minImageCount;
      swapchainExtent := q.capabilities.currentExtent;
      if q.createResult != SUCCESS {
        return Chk(q.createResult);
      }
      ghost var log0 := device.log;
      var sc := device.NewHandle();
      var c1 := Call.CreateSwapchain(sc, swapchainMinImageCount, swapchainExtent, PRESENT_MODE_FIFO_KHR, oldSwapchain);
      device.Call(c1);
      ResourcesAfterSnoc(log0, c1);
      var images := device.NewHandles(q.imageCount as nat);
      var c2 := GetSwapchainImages(sc, images);
      device.Call(c2);
      ResourcesAfterSnoc(log0 + [c1], c2);
      assert device.log == log0 + [c1, c2];
      swapchain := sc;
      swapchainImages := images;
      outcome := Completed;
    }

    /** One view per swapchain image, replacing the list of views. */
    method MakeImageViews()
      requires Valid() && ImagesIssued()
      modifies this`swapchainImageViews, device
      ensures Valid() && ImagesIssued()
      ensures |swapchainImageViews| == |swapchainImages|
      ensures forall i :: 0 <= i < |swapchainImageViews| ==>
        old(device.nextHandle) <= swapchainImageViews[i] < device.nextHandle
      ensures device.log == old(device.log) + CreateViewCalls(swapchainImageViews, swapchainImages)
      ensures LiveViews(device.log) == old(LiveViews(device.log)) + Elements(swapchainImageViews)
      ensures LiveSwapchains(device.log) == old(LiveSwapchains(device.log))
      ensures old(FencesLive()) ==> FencesLive()
      ensures old(AcquireSemaphoresIdle()) ==> AcquireSemaphoresIdle()
      ensures device.nextHandle >= old(device.nextHandle)
    {
      var views := device.CreateViews(swapchainImages);
      LiveViewsAfterCreate(old(device.log), views, swapchainImages);
      QuietCalls(old(device.log), CreateViewCalls(views, swapchainImages), fences[..], presentSemaphores[..]);
      swapchainImageViews := views;
    }

    /** `vmaCreateImage` for the depth image: a fresh image and its allocation. */
    method AllocateDepthImage(extent: Extent2D)
      requires Valid() && ImagesIssued()
      modifies this`depthImage, this`depthImageAllocation, device
      ensures Valid() && ImagesIssued()
      ensures old(device.nextHandle) <= depthImage < device.nextHandle
      ensures device.log == old(device.log) + [CreateAllocatedImage(depthImage, depthImageAllocation, extent, depthFormat)]
      ensures LiveViews(device.log) == old(LiveViews(device.log)) && LiveSwapchains(device.log) == old(LiveSwapchains(device.log))
      ensures device.nextHandle >= old(device.nextHandle)
    {
      var image := device.NewHandle();
      var allocation := device.NewHandle();
      device.Call(CreateAllocatedImage(image, allocation, extent, depthFormat));
      depthImage, depthImageAllocation := image, allocation;
    }

    /**
     * The depth image of the given extent in the chosen depth format,
     * allocated through the allocator, and its view.  A failed allocation
     * ends the program.
     */
    method CreateDepthImage(extent: Extent2D, result: VkResult) returns (outcome: Outcome)
      requires Valid() && ImagesIssued()
      modifies this`depthImage, this`depthImageAllocation, this`depthImageView, this`depthExtent, device
      ensures Valid() && ImagesIssued()
      ensures depthExtent == extent
      ensures outcome == Chk(result)
      ensures !outcome.Completed? ==> device.log == old(device.log)
      ensures outcome.Completed? ==>
        old(device.nextHandle) <= depthImage < depthImageView < device.nextHandle &&
        device.log == old(device.log) + [CreateAllocatedImage(depthImage, depthImageAllocation, extent, depthFormat),
                                         CreateImageView(depthImageView, depthImage)]
      ensures outcome.Completed? ==>
        LiveViews(device.log) == old(LiveViews(device.log)) + {depthImageView} &&
        LiveSwapchains(device.log) == old(LiveSwapchains(device.log))
      ensures device.nextHandle >= old(device.nextHandle)
    {
      depthExtent := extent;
      if result != SUCCESS {
        return Chk(result);
      }
      AllocateDepthImage(extent);
      var view := device.NewHandle();
      var c := CreateImageView(view, depthImage);
      ResourcesAfterSnoc(device.log, c);
      device.Call(c);
      depthImageView := view;
      outcome := Completed;
    }

    /** The shader-data buffers of `Init`: one buffer per frame, and its device address. */
    method InitShaderData()
      requires Valid()
      modifies shaderDataAddresses, device`nextHandle
      ensures Valid() && device.nextHandle >= old(device.nextHandle)
      ensures forall i :: 0 <= i < MAX_FRAMES_IN_FLIGHT ==> shaderDataAddresses[i] == old(device.nextHandle) + i
    {
      for i := 0 to MAX_FRAMES_IN_FLIGHT
        invariant Valid() && device.nextHandle == old(device.nextHandle) + i
        invariant forall j :: 0 <= j < i ==> shaderDataAddresses[j] == old(device.nextHandle) + j
      {
        var address := device.NewHandle();
        shaderDataAddresses[i] := address;
      }
    }

    /** One round of the frame-sync loop: frame `i`'s fence, created signalled, then its acquire semaphore. */
    method InitFrameSyncObjects(i: nat)
      requires Valid() && i < MAX_FRAMES_IN_FLIGHT
      modifies fences, presentSemaphores, device
      ensures Valid() && device.nextHandle >= old(device.nextHandle)
      ensures old(device.nextHandle) <= fences[i] < presentSemaphores[i] < device.nextHandle
      ensures forall j :: 0 <= j < MAX_FRAMES_IN_FLIGHT && j != i ==>
        fences[j] == old(fences[j]) && presentSemaphores[j] == old(presentSemaphores[j])
      ensures device.log == old(device.log) + [CreateFence(fences[i], true), CreateSemaphore(presentSemaphores[i])]
      ensures forall g :: FenceAfter(device.log, g) == (if g == fences[i] then Signalled else old(FenceAfter(device.log, g)))
      ensures forall g ::
        SignalPending(device.log, g) == (if g == presentSemaphores[i] then false else old(SignalPending(device.log, g)))
      ensures LiveViews(device.log) == old(LiveViews(device.log)) && LiveSwapchains(device.log) == old(LiveSwapchains(device.log))
    {
      var fence, semaphore := device.CreateFenceAndSemaphore();
      fences[i] := fence;
      presentSemaphores[i] := semaphore;
    }

    /**
     * The frame-sync loop of `Init`: for each frame a fence created
     * signalled, then the frame's acquire semaphore.  Afterwards every
     * fence is signalled and no acquire semaphore has a signal pending.
     */
    method InitFrameSync()
      requires Valid()
      modifies fences, presentSemaphores, device
      ensures Valid() && device.nextHandle >= old(device.nextHandle)
      ensures device.log == old(device.log) + FrameSyncCalls(fences[..], presentSemaphores[..])
      ensures forall i :: 0 <= i < MAX_FRAMES_IN_FLIGHT ==> FenceAfter(device.log, fences[i]) == Signalled
      ensures AcquireSemaphoresIdle()
      ensures LiveViews(device.log) == old(LiveViews(device.log)) && LiveSwapchains(device.log) == old(LiveSwapchains(device.log))
    {
      for i := 0 to MAX_FRAMES_IN_FLIGHT
        invariant Valid() && device.nextHandle >= old(device.nextHandle)
        invariant forall j :: 0 <= j < i ==> fences[j] < device.nextHandle
        invariant device.log == old(device.log) + FrameSyncCalls(fences[..i], presentSemaphores[..i])
        invariant forall j :: 0 <= j < i ==> FenceAfter(device.log, fences[j]) == Signalled
        invariant SemaphoresIdleIn(device.log, presentSemaphores[..i])
        invariant LiveViews(device.log) == old(LiveViews(device.log)) && LiveSwapchains(device.log) == old(LiveSwapchains(device.log))
      {
        ghost var fs, ss := fences[..i], presentSemaphores[..i];
        InitFrameSyncObjects(i);
        assert fences[..i] == fs && presentSemaphores[..i] == ss;
        assert fences[..i + 1] == fs + [fences[i]] && presentSemaphores[..i + 1] == ss + [presentSemaphores[i]];
        FrameSyncCallsSnoc(fs, ss, fences[i], presentSemaphores[i]);
      }
      assert fences[..] == fences[..MAX_FRAMES_IN_FLIGHT] && presentSemaphores[..] == presentSemaphores[..MAX_FRAMES_IN_FLIGHT];
    }

    /** The command-buffer allocation of `Init`: one buffer per frame, or the end of the program. */
    method InitCommandBuffers(allocateResult: VkResult) returns (outcome: Outcome)
      requires Valid()
      modifies commandBuffers, device
      ensures Valid() && device.nextHandle >= old(device.nextHandle)
      ensures outcome == Chk(allocateResult)
      ensures !outcome.Completed? ==> device.log == old(device.log)
      ensures outcome.Completed? ==> device.log == old(device.log) + [AllocateCommandBuffers(commandBuffers[..])]
      ensures LiveViews(device.log) == old(LiveViews(device.log)) && LiveSwapchains(device.log) == old(LiveSwapchains(device.log))
      ensures old(FencesLive()) ==> FencesLive()
      ensures old(AcquireSemaphoresIdle()) ==> AcquireSemaphoresIdle()
    {
      if allocateResult != SUCCESS {
        return Chk(allocateResult);
      }
      var buffers := device.NewHandles(MAX_FRAMES_IN_FLIGHT);
      commandBuffers[0], commandBuffers[1] := buffers[0], buffers[1];
      var c := AllocateCommandBuffers(commandBuffers[..]);
      device.Call(c);
      QuietCalls(old(device.log), [c], fences[..], presentSemaphores[..]);
      outcome := Completed;
    }

    /** The render-finished semaphores of `Init`: one per swapchain image. */
    method InitRenderSemaphores()
      requires Valid()
      modifies this`renderSemaphores, device
      ensures Valid() && device.nextHandle >= old(device.nextHandle)
      ensures |renderSemaphores| == |swapchainImages|
      ensures device.log == old(device.log) + SemaphoreCalls(renderSemaphores)
      ensures LiveViews(device.log) == old(LiveViews(device.log)) && LiveSwapchains(device.log) == old(LiveSwapchains(device.log))
      ensures old(FencesLive()) ==> FencesLive()
      ensures old(AcquireSemaphoresIdle()) ==> AcquireSemaphoresIdle()
    {
      renderSemaphores := device.CreateSemaphores(|swapchainImages|);
      QuietCalls(old(device.log), SemaphoreCalls(renderSemaphores), fences[..], presentSemaphores[..]);
    }

    /** Every synchronisation object of `Init`: the frame fences and acquire semaphores, then the render-finished semaphores. */
    method InitSyncObjects()
      requires Valid()
      modifies this`renderSemaphores, fences, presentSemaphores, device
      ensures Valid() && device.nextHandle >= old(device.nextHandle)
      ensures |renderSemaphores| == |swapchainImages|
      ensures LiveViews(device.log) == old(LiveViews(device.log)) && LiveSwapchains(device.log) == old(LiveSwapchains(device.log))
      ensures FencesLive() && AcquireSemaphoresIdle()
    {
      InitFrameSync();
      InitRenderSemaphores();
    }

    /**
     * What a completed `Init(x, y)` leaves behind: exactly the swapchain,
     * its views and the depth view exist, every colour view was made before
     * the depth view, every fence is signalled and no acquire semaphore has
     * a signal pending, one render-finished semaphore per image, and the
     * create-infos, window size, depth format and extent the rebuild reuses.
     */
    ghost predicate InitMade(x: u32, y: u32, q: InitQuery)
      reads this, device, fences, presentSemaphores
    {
      ResourcesAccounted() && FencesLive() && AcquireSemaphoresIdle() && FrameSlotsReady() &&
      SwapchainMade(q, depthImageView) && |renderSemaphores| == |swapchainImages| &&
      depthFormat == WindowDepthFormat(q.optimalTilingFeatures) && depthExtent == Extent2D(x, y) &&
      indexCount == q.indexCount
    }

    /**
     * The swapchain part of `Init` done with the query's answers: as many
     * images and views as the query reports, every view made before
     * `bound`, the create-info the rebuild reuses and the window size.
     */
    ghost predicate SwapchainMade(q: InitQuery, bound: Handle)
      reads this`swapchainImages, this`swapchainImageViews, this`swapchainMinImageCount, this`swapchainExtent,
            this`width, this`height
    {
      |swapchainImages| == |swapchainImageViews| == q.imageCount as nat &&
      (forall i :: 0 <= i < |swapchainImageViews| ==> swapchainImageViews[i] < bound) &&
      swapchainMinImageCount == q.capabilities.minImageCount && swapchainExtent == q.capabilities.currentExtent &&
      width == q.windowWidth && height == q.windowHeight
    }

    lemma SwapchainMadeRaise(q: InitQuery, bound: Handle, bound': Handle)
      requires SwapchainMade(q, bound) && bound <= bound'
      ensures SwapchainMade(q, bound')
    {
    }

    /**
     * The start of `Init`: the queue family, the check that it can present
     * to the window, the window size, the checked surface-capability query,
     * the swapchain and its views.
     */
    method InitSwapchain(q: InitQuery) returns (outcome: Outcome)
      requires Valid() && ImagesIssued()
      modifies this`swapchain, this`swapchainImages, this`swapchainImageViews, this`swapchainMinImageCount,
               this`swapchainExtent, this`width, this`height, device
      ensures frameIndex == old(frameIndex) && imageIndex == old(imageIndex) && updateSwapchain == old(updateSwapchain) &&
              imageCount == old(imageCount)
      ensures Valid() && ImagesIssued() && device.nextHandle >= old(device.nextHandle)
      ensures outcome == (if !q.presentationSupport(GraphicsQueueFamily(q.families)) then Exited(NO_PRESENTATION_EXIT)
                          else if q.capsResult != SUCCESS then Exited(q.capsResult.code)
                          else Chk(q.createResult))
      ensures outcome.Completed? ==>
        LiveViews(device.log) == old(LiveViews(device.log)) + Elements(swapchainImageViews) &&
        LiveSwapchains(device.log) == old(LiveSwapchains(device.log)) + {swapchain} &&
        SwapchainMade(q, device.nextHandle)
    {
      var queueFamily := SelectQueueFamily(q.families);
      if !q.presentationSupport(queueFamily) {
        return Exited(NO_PRESENTATION_EXIT);
      }
      width, height := q.windowWidth, q.windowHeight;
      outcome := Chk(q.capsResult);
      if !outcome.Completed? {
        return;
      }
      outcome := BuildWindowSwapchain(q);
    }

    /** The swapchain of `Init` and a view of each of its images. */
    method BuildWindowSwapchain(q: InitQuery) returns (outcome: Outcome)
      requires Valid() && ImagesIssued()
      modifies this`swapchain, this`swapchainImages, this`swapchainImageViews, this`swapchainMinImageCount,
               this`swapchainExtent, device
      ensures Valid() && ImagesIssued() && device.nextHandle >= old(device.nextHandle)
      ensures outcome == Chk(q.createResult)
      ensures outcome.Completed? ==>
        LiveViews(device.log) == old(LiveViews(device.log)) + Elements(swapchainImageViews) &&
        LiveSwapchains(device.log) == old(LiveSwapchains(device.log)) + {swapchain} &&
        |swapchainImages| == |swapchainImageViews| == q.imageCount as nat &&
        (forall i :: 0 <= i < |swapchainImageViews| ==> swapchainImageViews[i] < device.nextHandle) &&
        swapchainMinImageCount == q.capabilities.minImageCount && swapchainExtent == q.capabilities.currentExtent
    {
      outcome := CreateWindowSwapchain(q);
      if !outcome.Completed? {
        return;
      }
      MakeImageViews();
    }

    /**
     * The first half of `Init(x, y)`: the swapchain and its views, the
     * depth format, and the depth image of extent `(x, y)`.
     */
    method InitSurfaceResources(x: u32, y: u32, q: InitQuery) returns (outcome: Outcome)
      requires Valid() && ImagesIssued()
      modifies this`swapchain, this`swapchainImages, this`swapchainImageViews, this`swapchainMinImageCount,
               this`swapchainExtent, this`width, this`height, this`depthFormat, this`depthImage, this`depthImageAllocation,
               this`depthImageView, this`depthExtent, device
      ensures frameIndex == old(frameIndex) && imageIndex == old(imageIndex) && updateSwapchain == old(updateSwapchain) &&
              imageCount == old(imageCount)
      ensures Valid() && ImagesIssued() && device.nextHandle >= old(device.nextHandle)
      ensures outcome == (if !q.presentationSupport(GraphicsQueueFamily(q.families)) then Exited(NO_PRESENTATION_EXIT)
                          else if q.capsResult != SUCCESS then Exited(q.capsResult.code)
                          else if q.createResult != SUCCESS then Exited(q.createResult.code)
                          else Chk(q.depthImageResult))
      ensures outcome.Completed? ==>
        LiveViews(device.log) == old(LiveViews(device.log)) + Elements(swapchainImageViews) + {depthImageView} &&
        LiveSwapchains(device.log) == old(LiveSwapchains(device.log)) + {swapchain} &&
        SwapchainMade(q, depthImageView) &&
        depthFormat == WindowDepthFormat(q.optimalTilingFeatures) && depthExtent == Extent2D(x, y)
    {
      outcome := InitSwapchain(q);
      if !outcome.Completed? {
        return;
      }
      ghost var bound := device.nextHandle;
      outcome := InitDepth(x, y, q);
      if outcome.Completed? {
        SwapchainMadeRaise(q, bound, depthImageView);
      }
    }

    /** The depth part of `Init`: pick the depth format, then make the depth image of extent `(x, y)` and its view. */
    method InitDepth(x: u32, y: u32, q: InitQuery) returns (outcome: Outcome)
      requires Valid() && ImagesIssued()
      modifies this`depthFormat, this`depthImage, this`depthImageAllocation, this`depthImageView, this`depthExtent, device
      ensures frameIndex == old(frameIndex) && imageIndex == old(imageIndex) && updateSwapchain == old(updateSwapchain) &&
              imageCount == old(imageCount)
      ensures Valid() && ImagesIssued() && device.nextHandle >= old(device.nextHandle)
      ensures outcome == Chk(q.depthImageResult)
      ensures depthFormat == WindowDepthFormat(q.optimalTilingFeatures) && depthExtent == Extent2D(x, y)
      ensures outcome.Completed? ==>
        old(device.nextHandle) <= depthImageView &&
        LiveViews(device.log) == old(LiveViews(device.log)) + {depthImageView} &&
        LiveSwapchains(device.log) == old(LiveSwapchains(device.log))
    {
      depthFormat := SelectDepthFormat(q.optimalTilingFeatures);
      outcome := CreateDepthImage(Extent2D(x, y), q.depthImageResult);
    }

    /**
     * The second half of `Init`: the mesh's index count, the shader-data
     * buffers, each frame's fence and acquire semaphore, one render-finished
     * semaphore per image, and the command buffers.
     */
    method InitFrameResources(q: InitQuery) returns (outcome: Outcome)
      requires Valid() && ImagesIssued()
      modifies this`indexCount, this`renderSemaphores, shaderDataAddresses, fences, presentSemaphores, commandBuffers, device
      ensures Valid() && ImagesIssued()
      ensures frameIndex == old(frameIndex) && imageIndex == old(imageIndex) && updateSwapchain == old(updateSwapchain) &&
              imageCount == old(imageCount)
      ensures outcome == Chk(q.allocateResult)
      ensures LiveViews(device.log) == old(LiveViews(device.log)) && LiveSwapchains(device.log) == old(LiveSwapchains(device.log))
      ensures FencesLive() && AcquireSemaphoresIdle()
      ensures |renderSemaphores| == |swapchainImages| && indexCount == q.indexCount
    {
      indexCount := q.indexCount;
      InitShaderData();
      InitSyncObjects();
      outcome := InitCommandBuffers(q.allocateResult);
    }

    /**
     * `Init(x, y)`: every object the frame loop needs, in the order the
     * source makes them.  It ends as `InitOutcome` says, and a completed
     * `Init` on a device with nothing on it leaves what `InitMade` says.
     * It leaves the member `_imageCount` at 0: the count of images it
     * fetches goes to a local variable of the same name.
     */
    method Init(x: u32, y: u32, q: InitQuery) returns (outcome: Outcome)
      requires Valid() && ImagesIssued()
      requires LiveViews(device.log) == {} && LiveSwapchains(device.log) == {}
      modifies this`swapchain, this`swapchainImages, this`swapchainImageViews, this`swapchainMinImageCount,
               this`swapchainExtent, this`width, this`height, this`depthFormat, this`depthImage, this`depthImageAllocation,
               this`depthImageView, this`depthExtent, this`indexCount, this`renderSemaphores,
               shaderDataAddresses, fences, presentSemaphores, commandBuffers, device
      ensures Valid() && ImagesIssued()
      ensures frameIndex == old(frameIndex) && imageIndex == old(imageIndex) && updateSwapchain == old(updateSwapchain) &&
              imageCount == old(imageCount)
      ensures outcome == InitOutcome(q)
      ensures outcome.Completed? ==> InitMade(x, y, q)
    {
      outcome := InitSurfaceResources(x, y, q);
      if !outcome.Completed? {
        return;
      }
      assert ResourcesAccounted() by {
        assert {} + Elements(swapchainImageViews) + {depthImageView} == Elements(swapchainImageViews) + {depthImageView};
        assert {} + {swapchain} == {swapchain};
      }
      outcome := InitFrameResources(q);
    }

    /** `Init` with the member `_imageCount` set to the number of images fetched. */
    method InitFixed(x: u32, y: u32, q: InitQuery) returns (outcome: Outcome)
      requires Valid() && ImagesIssued()
      requires LiveViews(device.log) == {} && LiveSwapchains(device.log) == {}
      modifies this`swapchain, this`swapchainImages, this`swapchainImageViews, this`swapchainMinImageCount,
               this`swapchainExtent, this`width, this`height, this`depthFormat, this`depthImage, this`depthImageAllocation,
               this`depthImageView, this`depthExtent, this`indexCount, this`renderSemaphores, this`imageCount,
               shaderDataAddresses, fences, presentSemaphores, commandBuffers, device
      ensures Valid() && ImagesIssued()
      ensures frameIndex == old(frameIndex) && imageIndex == old(imageIndex) && updateSwapchain == old(updateSwapchain)
      ensures outcome == InitOutcome(q)
      ensures outcome.Completed? ==> InitMade(x, y, q) && imageCount as nat == |swapchainImageViews|
    {
      outcome := Init(x, y, q);
      if outcome.Completed? {
        imageCount := q.imageCount;
      }
    }

    /** The commands `Update` records for the acquired image and frame `f`. */
    function FrameCommands(f: nat): seq<Command>
      requires f < shaderDataAddresses.Length
      requires imageIndex as nat < |swapchainImages| && imageIndex as nat < |swapchainImageViews|
      reads this, shaderDataAddresses
    {
      UpdateCommands(swapchainImages[imageIndex], swapchainImageViews[imageIndex], depthImage, depthImageView,
                     Extent2D(width, height), shaderDataAddresses[f], indexCount)
    }

    /**
     * `vkWaitForFences` on the frame's fence with no timeout: it never
     * returns when the fence is unsignalled with nothing submitted against
     * it; otherwise its result is checked.
     */
    method WaitForFrameFence(wait: VkResult) returns (outcome: Outcome)
      requires Valid()
      modifies device`log
      ensures Valid()
      ensures outcome == (if FenceAfter(old(device.log), fences[frameIndex]) == Unsignalled then Hang(FENCE_NEVER_SIGNALLED)
                          else Chk(wait))
      ensures device.log == if outcome.Completed? then old(device.log) + [WaitForFence(fences[frameIndex])] else old(device.log)
    {
      if FenceAfter(device.log, fences[frameIndex]) == Unsignalled {
        return Hang(FENCE_NEVER_SIGNALLED);
      }
      if wait != SUCCESS {
        return Chk(wait);
      }
      device.Call(WaitForFence(fences[frameIndex]));
      outcome := Completed;
    }

    /** `vkResetFences` on the frame's fence, checked. */
    method ResetFrameFence(reset: VkResult) returns (outcome: Outcome)
      requires Valid()
      modifies device`log
      ensures Valid()
      ensures outcome == Chk(reset)
      ensures device.log == if outcome.Completed? then old(device.log) + [ResetFence(fences[frameIndex])] else old(device.log)
    {
      if reset != SUCCESS {
        return Chk(reset);
      }
      device.Call(ResetFence(fences[frameIndex]));
      outcome := Completed;
    }

    /**
     * `vkAcquireNextImageKHR` signalling the frame's acquire semaphore:
     * only an acquire that hands out an image writes the image index and
     * signals the semaphore, and the result goes through `chkSwapchain`.
     */
    method AcquireImage(acquire: VkResult, index: u32) returns (outcome: Outcome)
      requires Valid()
      modifies device`log, this`imageIndex, this`updateSwapchain
      ensures Valid()
      ensures device.log == old(device.log) + [AcquireNextImage(swapchain, presentSemaphores[frameIndex], acquire)]
      ensures imageIndex == if Acquired(acquire) then index else old(imageIndex)
      ensures outcome == SwapchainCheck(acquire)
      ensures updateSwapchain == (old(updateSwapchain) || acquire == ERROR_OUT_OF_DATE_KHR)
      ensures SignalPending(device.log, presentSemaphores[frameIndex]) ==
        (Acquired(acquire) || old(SignalPending(device.log, presentSemaphores[frameIndex])))
    {
      var c := AcquireNextImage(swapchain, presentSemaphores[frameIndex], acquire);
      SignalAfterSnoc(device.log, c, presentSemaphores[frameIndex]);
      device.Call(c);
      if Acquired(acquire) {
        imageIndex := index;
      }
      outcome := ChkSwapchain(acquire);
    }

    /**
     * Recording the frame's command buffer: reset and begin it, checked,
     * then the commands for the acquired image, which index the image list
     * (for the barrier) before the view list (for the colour attachment).
     * The recorded list is consistent and well scoped.
     */
    method RecordCommands(resetBuffer: VkResult, begin: VkResult) returns (outcome: Outcome, cmds: seq<Command>)
      requires Valid() && ImagesIssued()
      ensures outcome == if resetBuffer != SUCCESS then Exited(resetBuffer.code)
                         else if begin != SUCCESS then Exited(begin.code)
                         else if imageIndex as nat >= |swapchainImages| then IndexOutOfRange(SWAPCHAIN_IMAGES_VEC)
                         else if imageIndex as nat >= |swapchainImageViews| then IndexOutOfRange(SWAPCHAIN_IMAGE_VIEWS_VEC)
                         else Completed
      ensures outcome.Completed? ==>
        imageIndex as nat < |swapchainImages| && imageIndex as nat < |swapchainImageViews| &&
        cmds == FrameCommands(frameIndex as nat) && Replay(map[], cmds).Some? && WellScoped(cmds, false)
    {
      cmds := [];
      if resetBuffer != SUCCESS {
        return Chk(resetBuffer), cmds;
      }
      if begin != SUCCESS {
        return Chk(begin), cmds;
      }
      if imageIndex as nat >= |swapchainImages| {
        return IndexOutOfRange(SWAPCHAIN_IMAGES_VEC), cmds;
      }
      if imageIndex as nat >= |swapchainImageViews| {
        return IndexOutOfRange(SWAPCHAIN_IMAGE_VIEWS_VEC), cmds;
      }
      cmds := UpdateCommands(swapchainImages[imageIndex], swapchainImageViews[imageIndex], depthImage, depthImageView,
                             Extent2D(width, height), shaderDataAddresses[frameIndex], indexCount);
      UpdateCommandsConsistent(map[], swapchainImages[imageIndex], swapchainImageViews[imageIndex], depthImage,
                               depthImageView, Extent2D(width, height), shaderDataAddresses[frameIndex], indexCount);
      UpdateCommandsWellScoped(swapchainImages[imageIndex], swapchainImageViews[imageIndex], depthImage,
                               depthImageView, Extent2D(width, height), shaderDataAddresses[frameIndex], indexCount);
      outcome := Completed;
    }

    /**
     * Submission of the recorded commands, waiting on the frame's acquire
     * semaphore and signalling the image's render-finished semaphore and
     * the frame's fence, the advance of the frame index, and presentation
     * waiting on the render-finished semaphore.
     */
    method SubmitAndPresent(cmds: seq<Command>, submit: VkResult, present: VkResult) returns (outcome: Outcome)
      requires Valid()
      modifies device`log, this`frameIndex, this`updateSwapchain
      ensures Valid()
      ensures outcome == if imageIndex as nat >= |renderSemaphores| then IndexOutOfRange(RENDER_SEMAPHORES_VEC)
                         else if submit != SUCCESS then Exited(submit.code)
                         else if !old(SignalPending(device.log, presentSemaphores[frameIndex])) then Hang(WAIT_NEVER_SIGNALLED)
                         else SwapchainCheck(present)
      ensures imageIndex as nat < |renderSemaphores| && submit == SUCCESS &&
              old(SignalPending(device.log, presentSemaphores[frameIndex])) ==>
        var f := old(frameIndex);
        device.log == old(device.log) + RenderCalls(swapchain, fences[f], presentSemaphores[f], renderSemaphores[imageIndex],
                                                    commandBuffers[f], cmds, imageIndex, present) &&
        frameIndex == NextFrameIndex(f) && updateSwapchain == (old(updateSwapchain) || present == ERROR_OUT_OF_DATE_KHR)
    {
      if imageIndex as nat >= |renderSemaphores| {
        return IndexOutOfRange(RENDER_SEMAPHORES_VEC);
      }
      if submit != SUCCESS {
        return Chk(submit);
      }
      if !SignalPending(device.log, presentSemaphores[frameIndex]) {
        return Hang(WAIT_NEVER_SIGNALLED);
      }
      device.Call(QueueSubmit(presentSemaphores[frameIndex], commandBuffers[frameIndex], cmds,
                              renderSemaphores[imageIndex], fences[frameIndex]));
      frameIndex := NextFrameIndex(frameIndex);
      device.Call(QueuePresent(swapchain, renderSemaphores[imageIndex], imageIndex, present));
      outcome := ChkSwapchain(present);
    }

    /**
     * Recording, submission and presentation for the acquired image: the
     * frame ends as `RenderOutcome` says, and a completed one submitted the
     * frame's commands, which are consistent, and advanced the frame index.
     */
    method RenderFrame(a: TickAnswer) returns (outcome: Outcome)
      requires Valid() && ImagesIssued()
      modifies device`log, this`frameIndex, this`updateSwapchain
      ensures Valid() && ImagesIssued()
      ensures outcome == RenderOutcome(a, imageIndex as nat, |swapchainImages|, |swapchainImageViews|, |renderSemaphores|,
                                       old(SignalPending(device.log, presentSemaphores[frameIndex])))
      ensures outcome.Completed? ==>
        var f := old(frameIndex);
        imageIndex as nat < |swapchainImages| && imageIndex as nat < |swapchainImageViews| &&
        imageIndex as nat < |renderSemaphores| &&
        device.log == old(device.log) + RenderCalls(swapchain, fences[f], presentSemaphores[f], renderSemaphores[imageIndex],
                                                    commandBuffers[f], FrameCommands(f as nat), imageIndex, a.present) &&
        Replay(map[], FrameCommands(f as nat)).Some? &&
        frameIndex == NextFrameIndex(f) && updateSwapchain == (old(updateSwapchain) || a.present == ERROR_OUT_OF_DATE_KHR)
    {
      var cmds;
      outcome, cmds := RecordCommands(a.resetBuffer, a.begin);
      if !outcome.Completed? {
        return;
      }
      outcome := SubmitAndPresent(cmds, a.submit, a.present);
    }

    /** The start of a frame as written: wait for the frame's fence, then reset it. */
    method WaitAndResetFence(a: TickAnswer) returns (outcome: Outcome)
      requires Valid()
      modifies device`log
      ensures Valid()
      ensures outcome == if old(FenceAfter(device.log, fences[frameIndex])) == Unsignalled then Hang(FENCE_NEVER_SIGNALLED)
                         else if a.wait != SUCCESS then Exited(a.wait.code)
                         else Chk(a.reset)
      ensures outcome.Completed? ==>
        device.log == old(device.log) + [WaitForFence(fences[frameIndex]), ResetFence(fences[frameIndex])] &&
        SignalPending(device.log, presentSemaphores[frameIndex]) == old(SignalPending(device.log, presentSemaphores[frameIndex]))
    {
      outcome := WaitForFrameFence(a.wait);
      if !outcome.Completed? {
        return;
      }
      outcome := ResetFrameFence(a.reset);
      WaitResetSignals(old(device.log), fences[frameIndex], presentSemaphores[frameIndex]);
    }

    /**
     * The rest of a frame: acquire an image, then record, submit and
     * present whatever the acquire returned.
     */
    method AcquireAndRender(a: TickAnswer) returns (outcome: Outcome)
      requires Valid() && ImagesIssued()
      modifies device`log, this`frameIndex, this`imageIndex, this`updateSwapchain
      ensures Valid() && ImagesIssued()
      ensures imageIndex == if Acquired(a.acquire) then a.acquiredIndex else old(imageIndex)
      ensures outcome == if SwapchainCheck(a.acquire) != Completed then SwapchainCheck(a.acquire)
                         else RenderOutcome(a, imageIndex as nat, |swapchainImages|, |swapchainImageViews|, |renderSemaphores|,
                                            Acquired(a.acquire) || old(SignalPending(device.log, presentSemaphores[frameIndex])))
      ensures outcome.Completed? ==>
        var f := old(frameIndex);
        imageIndex as nat < |swapchainImages| && imageIndex as nat < |swapchainImageViews| &&
        imageIndex as nat < |renderSemaphores| &&
        device.log == old(device.log) + [AcquireNextImage(swapchain, presentSemaphores[f], a.acquire)] +
                      RenderCalls(swapchain, fences[f], presentSemaphores[f], renderSemaphores[imageIndex],
                                  commandBuffers[f], FrameCommands(f as nat), imageIndex, a.present) &&
        Replay(map[], FrameCommands(f as nat)).Some? && frameIndex == NextFrameIndex(f) &&
        updateSwapchain == (old(updateSwapchain) || a.acquire == ERROR_OUT_OF_DATE_KHR || a.present == ERROR_OUT_OF_DATE_KHR)
    {
      outcome := AcquireImage(a.acquire, a.acquiredIndex);
      if !outcome.Completed? {
        return;
      }
      outcome := RenderFrame(a);
    }

    /**
     * The frame part of `Update` as written: wait for and reset the
     * frame's fence, acquire an image, then record, submit and present,
     * whatever the acquire returned.  It ends as `FrameOutcome` says; a
     * completed frame made exactly the frame's calls, keeps every live
     * fence live and creates or destroys nothing.
     */
    method FrameTick(a: TickAnswer) returns (outcome: Outcome)
      requires Valid() && ImagesIssued()
      modifies device`log, this`frameIndex, this`imageIndex, this`updateSwapchain
      ensures Valid() && ImagesIssued()
      ensures imageCount == old(imageCount) && swapchainImages == old(swapchainImages) &&
              swapchainImageViews == old(swapchainImageViews) && depthImageView == old(depthImageView) &&
              selected == old(selected) && device.nextHandle == old(device.nextHandle)
      ensures outcome == FrameOutcome(a, old(FenceAfter(device.log, fences[frameIndex])) != Unsignalled, old(imageIndex) as nat,
                                      |swapchainImages|, |swapchainImageViews|, |renderSemaphores|,
                                      old(SignalPending(device.log, presentSemaphores[frameIndex])))
      ensures outcome.Completed? ==>
        TickMade(old(device.log), old(frameIndex), a, false) && frameIndex == NextFrameIndex(old(frameIndex)) &&
        updateSwapchain == (old(updateSwapchain) || a.acquire == ERROR_OUT_OF_DATE_KHR || a.present == ERROR_OUT_OF_DATE_KHR)
      ensures outcome.Completed? ==>
        LiveViews(device.log) == old(LiveViews(device.log)) && LiveSwapchains(device.log) == old(LiveSwapchains(device.log)) &&
        (old(FencesLive()) ==> FencesLive())
    {
      ghost var log0, f := device.log, frameIndex;
      outcome := WaitAndResetFence(a);
      if !outcome.Completed? {
        return;
      }
      outcome := AcquireAndRender(a);
      if outcome.Completed? {
        FrameAssembled(log0, fences[..], swapchain, fences[f], presentSemaphores[f], renderSemaphores[imageIndex],
                       commandBuffers[f], FrameCommands(f as nat), imageIndex, a.acquire, a.present);
      }
    }

    /** The start of the corrected frame: wait for the frame's fence, then acquire an image. */
    method WaitAndAcquire(a: TickAnswer) returns (outcome: Outcome)
      requires Valid()
      modifies device`log, this`imageIndex, this`updateSwapchain
      ensures Valid()
      ensures outcome == if old(FenceAfter(device.log, fences[frameIndex])) == Unsignalled then Hang(FENCE_NEVER_SIGNALLED)
                         else if a.wait != SUCCESS then Exited(a.wait.code)
                         else SwapchainCheck(a.acquire)
      ensures outcome.Completed? ==>
        device.log == old(device.log) + [WaitForFence(fences[frameIndex]),
                                         AcquireNextImage(swapchain, presentSemaphores[frameIndex], a.acquire)] &&
        imageIndex == (if Acquired(a.acquire) then a.acquiredIndex else old(imageIndex)) &&
        updateSwapchain == (old(updateSwapchain) || a.acquire == ERROR_OUT_OF_DATE_KHR) &&
        SignalPending(device.log, presentSemaphores[frameIndex]) ==
          (Acquired(a.acquire) || old(SignalPending(device.log, presentSemaphores[frameIndex])))
    {
      outcome := WaitForFrameFence(a.wait);
      if !outcome.Completed? {
        return;
      }
      FenceCallSignals(old(device.log), WaitForFence(fences[frameIndex]), presentSemaphores[frameIndex]);
      outcome := AcquireImage(a.acquire, a.acquiredIndex);
    }

    /** The rest of the corrected frame, once an image was acquired: reset the fence, then record, submit and present. */
    method ResetAndRender(a: TickAnswer) returns (outcome: Outcome)
      requires Valid() && ImagesIssued()
      modifies device`log, this`frameIndex, this`updateSwapchain
      ensures Valid() && ImagesIssued()
      ensures outcome == if a.reset != SUCCESS then Exited(a.reset.code)
                         else RenderOutcome(a, imageIndex as nat, |swapchainImages|, |swapchainImageViews|, |renderSemaphores|,
                                            old(SignalPending(device.log, presentSemaphores[frameIndex])))
      ensures outcome.Completed? ==>
        var f := old(frameIndex);
        imageIndex as nat < |swapchainImages| && imageIndex as nat < |swapchainImageViews| &&
        imageIndex as nat < |renderSemaphores| &&
        device.log == old(device.log) + [ResetFence(fences[f])] +
                      RenderCalls(swapchain, fences[f], presentSemaphores[f], renderSemaphores[imageIndex],
                                  commandBuffers[f], FrameCommands(f as nat), imageIndex, a.present) &&
        Replay(map[], FrameCommands(f as nat)).Some? && frameIndex == NextFrameIndex(f) &&
        updateSwapchain == (old(updateSwapchain) || a.present == ERROR_OUT_OF_DATE_KHR)
    {
      outcome := ResetFrameFence(a.reset);
      if !outcome.Completed? {
        return;
      }
      FenceCallSignals(old(device.log), ResetFence(fences[frameIndex]), presentSemaphores[frameIndex]);
      outcome := RenderFrame(a);
    }

    /**
     * The corrected frame: wait for the fence and acquire an image; an
     * out-of-date acquire ends the frame there, leaving the fence
     * signalled; otherwise reset the fence, record, submit and present.
     * It ends as `FixedFrameOutcome` says; either way a completed frame
     * keeps every live fence live and creates or destroys nothing.
     */
    method FixedFrameTick(a: TickAnswer) returns (outcome: Outcome)
      requires Valid() && ImagesIssued()
      modifies device`log, this`frameIndex, this`imageIndex, this`updateSwapchain
      ensures Valid() && ImagesIssued()
      ensures outcome == FixedFrameOutcome(a, old(FenceAfter(device.log, fences[frameIndex])) != Unsignalled,
                                           old(imageIndex) as nat, |swapchainImages|, |swapchainImageViews|,
                                           |renderSemaphores|, old(SignalPending(device.log, presentSemaphores[frameIndex])))
      ensures outcome.Completed? && a.acquire == ERROR_OUT_OF_DATE_KHR ==>
        device.log == old(device.log) + [WaitForFence(fences[frameIndex]),
                                         AcquireNextImage(swapchain, presentSemaphores[frameIndex], a.acquire)] &&
        frameIndex == old(frameIndex) && updateSwapchain
      ensures outcome.Completed? && a.acquire != ERROR_OUT_OF_DATE_KHR ==>
        TickMade(old(device.log), old(frameIndex), a, true) && frameIndex == NextFrameIndex(old(frameIndex)) &&
        updateSwapchain == (old(updateSwapchain) || a.present == ERROR_OUT_OF_DATE_KHR)
      ensures outcome.Completed? ==>
        LiveViews(device.log) == old(LiveViews(device.log)) && LiveSwapchains(device.log) == old(LiveSwapchains(device.log)) &&
        (old(FencesLive()) ==> FencesLive())
    {
      ghost var log0, f := device.log, frameIndex;
      outcome := WaitAndAcquire(a);
      if !outcome.Completed? {
        return;
      }
      if a.acquire == ERROR_OUT_OF_DATE_KHR {
        WaitAcquireQuiet(log0, fences[f], swapchain, presentSemaphores[f], a.acquire, fences[..]);
        return;
      }
      outcome := ResetAndRender(a);
      if outcome.Completed? {
        FixedFrameAssembled(log0, fences[..], swapchain, fences[f], presentSemaphores[f], renderSemaphores[imageIndex],
                            commandBuffers[f], FrameCommands(f as nat), imageIndex, a.acquire, a.present);
      }
    }

    /**
     * The event handling of `Update`: a resize reported while polling goes
     * through the resize callback, then the `+` key selects the next object
     * and the `-` key the previous one.
     */
    method HandleEvents(e: Events)
      requires Valid()
      modifies this`updateSwapchain, this`width, this`height, this`selected
      ensures Valid()
      ensures selected == SelectedAfterKeys(old(selected), e.plus, e.minus)
      ensures updateSwapchain == (old(updateSwapchain) || e.resize.Some?)
      ensures (width, height) == if e.resize.Some? then (e.resize.value.width, e.resize.value.height) else (old(width), old(height))
    {
      if e.resize.Some? {
        FramebufferResizeCallback(e.resize.value);
      }
      if e.plus {
        selected := NextSelected(selected);
      }
      if e.minus {
        selected := PrevSelected(selected);
      }
    }

    /** The start of the swapchain rebuild: clear the request, wait for the device to go idle, and re-query the surface. */
    method RequerySurface(capsResult: VkResult) returns (outcome: Outcome)
      requires Valid()
      modifies this`updateSwapchain, device`log
      ensures Valid() && !updateSwapchain
      ensures outcome == Chk(capsResult)
      ensures device.log == old(device.log) + [DeviceWaitIdle]
      ensures LiveViews(device.log) == old(LiveViews(device.log)) && LiveSwapchains(device.log) == old(LiveSwapchains(device.log))
      ensures (old(FencesLive()) ==> FencesLive()) && (old(AcquireSemaphoresIdle()) ==> AcquireSemaphoresIdle())
    {
      updateSwapchain := false;
      QuietCalls(device.log, [DeviceWaitIdle], fences[..], presentSemaphores[..]);
      device.Call(DeviceWaitIdle);
      outcome := Chk(capsResult);
    }

    /**
     * The new swapchain, created from the stored create-info with the
     * window's size as extent and the current swapchain as the old one.
     */
    method CreateReplacement(createResult: VkResult) returns (outcome: Outcome)
      requires Valid() && ImagesIssued()
      modifies this`oldSwapchain, this`swapchainExtent, this`swapchain, device`log, device`nextHandle
      ensures Valid() && ImagesIssued() && device.nextHandle >= old(device.nextHandle)
      ensures oldSwapchain == old(swapchain) && swapchainExtent == Extent2D(width, height)
      ensures outcome == Chk(createResult)
      ensures outcome.Completed? ==>
        old(device.nextHandle) <= swapchain &&
        device.log == old(device.log) + [Call.CreateSwapchain(swapchain, swapchainMinImageCount, swapchainExtent,
                                                              PRESENT_MODE_FIFO_KHR, oldSwapchain)] &&
        LiveViews(device.log) == old(LiveViews(device.log)) &&
        LiveSwapchains(device.log) == old(LiveSwapchains(device.log)) + {swapchain}
      ensures outcome.Completed? ==>
        (old(FencesLive()) ==> FencesLive()) && (old(AcquireSemaphoresIdle()) ==> AcquireSemaphoresIdle())
    {
      oldSwapchain := swapchain;
      swapchainExtent := Extent2D(width, height);
      if createResult != SUCCESS {
        return Chk(createResult);
      }
      var sc := device.NewHandle();
      var c := Call.CreateSwapchain(sc, swapchainMinImageCount, swapchainExtent, PRESENT_MODE_FIFO_KHR, oldSwapchain);
      ResourcesAfterSnoc(device.log, c);
      QuietCalls(device.log, [c], fences[..], presentSemaphores[..]);
      device.Call(c);
      swapchain := sc;
      outcome := Completed;
    }

    /**
     * The swapchain part of the rebuild: re-query the surface, then
     * create the new swapchain, each result checked.
     */
    method ReplaceSwapchain(r: RebuildAnswer) returns (outcome: Outcome)
      requires Valid() && ImagesIssued()
      modifies this`updateSwapchain, this`oldSwapchain, this`swapchainExtent, this`swapchain, device`log, device`nextHandle
      ensures Valid() && ImagesIssued() && device.nextHandle >= old(device.nextHandle)
      ensures !updateSwapchain
      ensures outcome == if r.capsResult != SUCCESS then Exited(r.capsResult.code) else Chk(r.createResult)
      ensures outcome.Completed? ==>
        oldSwapchain == old(swapchain) && swapchainExtent == Extent2D(width, height) &&
        old(device.nextHandle) <= swapchain &&
        device.log == old(device.log) + [DeviceWaitIdle] + [Call.CreateSwapchain(swapchain, swapchainMinImageCount, swapchainExtent,
                                                                                 PRESENT_MODE_FIFO_KHR, oldSwapchain)] &&
        LiveViews(device.log) == old(LiveViews(device.log)) &&
        LiveSwapchains(device.log) == old(LiveSwapchains(device.log)) + {swapchain}
      ensures outcome.Completed? ==>
        (old(FencesLive()) ==> FencesLive()) && (old(AcquireSemaphoresIdle()) ==> AcquireSemaphoresIdle())
    {
      outcome := RequerySurface(r.capsResult);
      if !outcome.Completed? {
        return;
      }
      outcome := CreateReplacement(r.createResult);
    }

    /**
     * The first `_imageCount` views are destroyed; with fewer views held
     * the loop indexes the view list out of range, after destroying them all.
     */
    method DestroyOldViews() returns (outcome: Outcome)
      requires Valid()
      modifies device`log
      ensures Valid()
      ensures outcome == if imageCount as nat > |swapchainImageViews| then IndexOutOfRange(SWAPCHAIN_IMAGE_VIEWS_VEC)
                         else Completed
      ensures outcome.Completed? ==>
        device.log == old(device.log) + DestroyViewCalls(swapchainImageViews[..imageCount]) &&
        LiveViews(device.log) == old(LiveViews(device.log)) - Elements(swapchainImageViews[..imageCount]) &&
        LiveSwapchains(device.log) == old(LiveSwapchains(device.log)) &&
        (old(FencesLive()) ==> FencesLive()) && (old(AcquireSemaphoresIdle()) ==> AcquireSemaphoresIdle())
    {
      if imageCount as nat > |swapchainImageViews| {
        device.CallEach(DestroyViewCalls(swapchainImageViews));
        return IndexOutOfRange(SWAPCHAIN_IMAGE_VIEWS_VEC);
      }
      var destroyed := DestroyViewCalls(swapchainImageViews[..imageCount]);
      LiveViewsAfterDestroy(device.log, swapchainImageViews[..imageCount]);
      QuietCalls(device.log, destroyed, fences[..], presentSemaphores[..]);
      device.CallEach(destroyed);
      outcome := Completed;
    }

    /** The new swapchain's `n` images are fetched into `_imageCount` and the image list. */
    method FetchSwapchainImages(n: u32)
      requires Valid() && ImagesIssued()
      modifies this`imageCount, this`swapchainImages, device`log, device`nextHandle
      ensures Valid() && ImagesIssued()
      ensures imageCount == n && |swapchainImages| == n as nat
      ensures device.nextHandle >= old(device.nextHandle)
      ensures device.log == old(device.log) + [GetSwapchainImages(swapchain, swapchainImages)]
      ensures LiveViews(device.log) == old(LiveViews(device.log)) && LiveSwapchains(device.log) == old(LiveSwapchains(device.log))
      ensures (old(FencesLive()) ==> FencesLive()) && (old(AcquireSemaphoresIdle()) ==> AcquireSemaphoresIdle())
    {
      imageCount := n;
      var images := device.NewHandles(n as nat);
      var c := GetSwapchainImages(swapchain, images);
      QuietCalls(device.log, [c], fences[..], presentSemaphores[..]);
      device.Call(c);
      swapchainImages := images;
    }

    /**
     * The views of the rebuild: destroy the first `_imageCount` views, then
     * fetch the new swapchain's `n` images and make one view per image.
     */
    method RenewImageViews(n: u32) returns (outcome: Outcome)
      requires Valid() && ImagesIssued()
      modifies this`imageCount, this`swapchainImages, this`swapchainImageViews, device
      ensures Valid() && ImagesIssued() && device.nextHandle >= old(device.nextHandle)
      ensures outcome == if old(imageCount) as nat > old(|swapchainImageViews|) then IndexOutOfRange(SWAPCHAIN_IMAGE_VIEWS_VEC)
                         else Completed
      ensures outcome.Completed? ==>
        imageCount == n && |swapchainImages| == |swapchainImageViews| == n as nat &&
        (forall i :: 0 <= i < |swapchainImageViews| ==> old(device.nextHandle) <= swapchainImageViews[i]) &&
        LiveViews(device.log) == old(LiveViews(device.log)) - Elements(old(swapchainImageViews[..imageCount])) +
                                 Elements(swapchainImageViews) &&
        LiveSwapchains(device.log) == old(LiveSwapchains(device.log))
      ensures outcome.Completed? ==>
        (old(FencesLive()) ==> FencesLive()) && (old(AcquireSemaphoresIdle()) ==> AcquireSemaphoresIdle())
    {
      outcome := DestroyOldViews();
      if !outcome.Completed? {
        return;
      }
      FetchSwapchainImages(n);
      MakeImageViews();
    }

    /** The old swapchain, the depth image with its allocation, and the depth view are destroyed, in that order. */
    method RetireOldObjects()
      requires Valid()
      modifies device`log
      ensures Valid()
      ensures device.log == old(device.log) + [DestroySwapchain(oldSwapchain), DestroyAllocatedImage(depthImage, depthImageAllocation),
                                               DestroyImageView(depthImageView)]
      ensures LiveViews(device.log) == old(LiveViews(device.log)) - {depthImageView}
      ensures LiveSwapchains(device.log) == old(LiveSwapchains(device.log)) - {oldSwapchain}
      ensures old(FencesLive()) ==> FencesLive()
      ensures old(AcquireSemaphoresIdle()) ==> AcquireSemaphoresIdle()
    {
      ghost var log0 := device.log;
      var c1, c2, c3 := DestroySwapchain(oldSwapchain), DestroyAllocatedImage(depthImage, depthImageAllocation),
                        DestroyImageView(depthImageView);
      ResourcesAfterSnoc(device.log, c1);
      device.Call(c1);
      device.Call(c2);
      ResourcesAfterSnoc(device.log, c3);
      device.Call(c3);
      assert device.log == log0 + [c1, c2, c3];
      QuietCalls(log0, [c1, c2, c3], fences[..], presentSemaphores[..]);
    }

    /**
     * The swapchain rebuild of `Update`: a new swapchain, the first
     * `_imageCount` views destroyed and one new view per new image, the
     * old swapchain and the depth image and view destroyed, and a depth
     * image and view of the window's size made.  It ends as
     * `RebuildOutcome` says; a completed rebuild holds `n` images and
     * views and leaves exactly the views and swapchains it accounts for.
     */
    method Rebuild(r: RebuildAnswer) returns (outcome: Outcome)
      requires Valid() && ImagesIssued()
      modifies this`updateSwapchain, this`oldSwapchain, this`swapchainExtent, this`swapchain, this`imageCount,
               this`swapchainImages, this`swapchainImageViews, this`depthImage, this`depthImageAllocation,
               this`depthImageView, this`depthExtent, device
      ensures Valid() && ImagesIssued() && !updateSwapchain && device.nextHandle >= old(device.nextHandle)
      ensures outcome == RebuildOutcome(r, old(imageCount) as nat <= old(|swapchainImageViews|))
      ensures outcome.Completed? ==>
        imageCount == r.imageCount && |swapchainImages| == |swapchainImageViews| == r.imageCount as nat &&
        oldSwapchain == old(swapchain) && swapchainExtent == depthExtent == Extent2D(width, height) &&
        old(device.nextHandle) <= swapchain && old(device.nextHandle) <= depthImageView &&
        (forall i :: 0 <= i < |swapchainImageViews| ==> old(device.nextHandle) <= swapchainImageViews[i]) &&
        LiveViews(device.log) == (((old(LiveViews(device.log)) - Elements(old(swapchainImageViews[..imageCount]))) +
                                   Elements(swapchainImageViews)) - {old(depthImageView)}) + {depthImageView} &&
        LiveSwapchains(device.log) == (old(LiveSwapchains(device.log)) + {swapchain}) - {old(swapchain)}
      ensures outcome.Completed? ==>
        (old(FencesLive()) ==> FencesLive()) && (old(AcquireSemaphoresIdle()) ==> AcquireSemaphoresIdle())
      ensures outcome.Completed? && old(ResourcesAccounted()) && old(imageCount) as nat == old(|swapchainImageViews|) ==>
        ResourcesAccounted()
    {
      ghost var accounted := ResourcesAccounted() && imageCount as nat == |swapchainImageViews|;
      ghost var live0, views0, depth0, swapchain0, bound :=
        LiveViews(device.log), swapchainImageViews, depthImageView, swapchain, device.nextHandle;
      if accounted {
        assert swapchainImageViews[..imageCount] == views0;
        assert depth0 in LiveViews(device.log);
      }
      outcome := RebuildSwapchainAndViews(r);
      if !outcome.Completed? {
        return;
      }
      outcome := RebuildDepth(r.depthImageResult);
      if outcome.Completed? && accounted {
        RebuiltWindowViews(live0, Elements(views0), depth0, Elements(swapchainImageViews), depthImageView, bound);
        assert ({swapchain0} + {swapchain}) - {swapchain0} == {swapchain};
      }
    }

    /** The first half of the rebuild: the new swapchain, and the views renewed for its images. */
    method RebuildSwapchainAndViews(r: RebuildAnswer) returns (outcome: Outcome)
      requires Valid() && ImagesIssued()
      modifies this`updateSwapchain, this`oldSwapchain, this`swapchainExtent, this`swapchain, this`imageCount,
               this`swapchainImages, this`swapchainImageViews, device
      ensures Valid() && ImagesIssued() && !updateSwapchain && device.nextHandle >= old(device.nextHandle)
      ensures outcome.Completed? ==> r.capsResult == SUCCESS && r.createResult == SUCCESS &&
                                     old(imageCount) as nat <= old(|swapchainImageViews|)
      ensures !outcome.Completed? ==> outcome == RebuildOutcome(r, old(imageCount) as nat <= old(|swapchainImageViews|))
      ensures outcome.Completed? ==>
        imageCount == r.imageCount && |swapchainImages| == |swapchainImageViews| == r.imageCount as nat &&
        oldSwapchain == old(swapchain) && swapchainExtent == Extent2D(width, height) &&
        old(device.nextHandle) <= swapchain &&
        (forall i :: 0 <= i < |swapchainImageViews| ==> old(device.nextHandle) <= swapchainImageViews[i]) &&
        LiveViews(device.log) == (old(LiveViews(device.log)) - Elements(old(swapchainImageViews[..imageCount]))) +
                                 Elements(swapchainImageViews) &&
        LiveSwapchains(device.log) == old(LiveSwapchains(device.log)) + {swapchain}
      ensures outcome.Completed? ==>
        (old(FencesLive()) ==> FencesLive()) && (old(AcquireSemaphoresIdle()) ==> AcquireSemaphoresIdle())
    {
      outcome := ReplaceSwapchain(r);
      if !outcome.Completed? {
        return;
      }
      outcome := RenewImageViews(r.imageCount);
    }

    /**
     * The second half of the rebuild: the old swapchain and the depth
     * objects destroyed, and a depth image and view of the window's size made.
     */
    method RebuildDepth(depthImageResult: VkResult) returns (outcome: Outcome)
      requires Valid() && ImagesIssued()
      modifies this`depthImage, this`depthImageAllocation, this`depthImageView, this`depthExtent, device
      ensures Valid() && ImagesIssued() && device.nextHandle >= old(device.nextHandle)
      ensures depthExtent == Extent2D(width, height)
      ensures outcome == Chk(depthImageResult)
      ensures outcome.Completed? ==>
        old(device.nextHandle) <= depthImageView &&
        LiveViews(device.log) == (old(LiveViews(device.log)) - {old(depthImageView)}) + {depthImageView} &&
        LiveSwapchains(device.log) == old(LiveSwapchains(device.log)) - {oldSwapchain} &&
        (old(FencesLive()) ==> FencesLive()) && (old(AcquireSemaphoresIdle()) ==> AcquireSemaphoresIdle())
    {
      RetireOldObjects();
      ghost var log1 := device.log;
      outcome := CreateDepthImage(Extent2D(width, height), depthImageResult);
      if outcome.Completed? {
        QuietCalls(log1, [CreateAllocatedImage(depthImage, depthImageAllocation, Extent2D(width, height), depthFormat),
                          CreateImageView(depthImageView, depthImage)], fences[..], presentSemaphores[..]);
      }
    }

    /** The correction to the rebuild: every render-finished semaphore destroyed, and one created per new image. */
    method RecreateRenderSemaphores()
      requires Valid() && ImagesIssued()
      modifies this`renderSemaphores, device
      ensures Valid() && ImagesIssued() && device.nextHandle >= old(device.nextHandle)
      ensures |renderSemaphores| == |swapchainImages|
      ensures device.log == old(device.log) + DestroySemaphoreCalls(old(renderSemaphores)) + SemaphoreCalls(renderSemaphores)
      ensures LiveViews(device.log) == old(LiveViews(device.log)) && LiveSwapchains(device.log) == old(LiveSwapchains(device.log))
      ensures (old(FencesLive()) ==> FencesLive()) && (old(AcquireSemaphoresIdle()) ==> AcquireSemaphoresIdle())
    {
      var destroyed := DestroySemaphoreCalls(renderSemaphores);
      QuietCalls(device.log, destroyed, fences[..], presentSemaphores[..]);
      device.CallEach(destroyed);
      InitRenderSemaphores();
    }

    /**
     * The corrected rebuild: the rebuild, then the render-finished
     * semaphores re-created for the new images, so that every container
     * the next frame indexes by the acquired image is large enough.
     */
    method RebuildFixed(r: RebuildAnswer) returns (outcome: Outcome)
      requires Valid() && ImagesIssued()
      modifies this`updateSwapchain, this`oldSwapchain, this`swapchainExtent, this`swapchain, this`imageCount,
               this`swapchainImages, this`swapchainImageViews, this`depthImage, this`depthImageAllocation,
               this`depthImageView, this`depthExtent, this`renderSemaphores, device
      ensures Valid() && ImagesIssued() && !updateSwapchain
      ensures outcome == RebuildOutcome(r, old(imageCount) as nat <= old(|swapchainImageViews|))
      ensures outcome.Completed? ==>
        imageCount == r.imageCount && |swapchainImages| == |swapchainImageViews| == |renderSemaphores| == r.imageCount as nat &&
        (old(FencesLive()) ==> FencesLive()) && (old(AcquireSemaphoresIdle()) ==> AcquireSemaphoresIdle())
      ensures outcome.Completed? && old(ResourcesAccounted()) && old(imageCount) as nat == old(|swapchainImageViews|) ==>
        ResourcesAccounted()
    {
      outcome := Rebuild(r);
      if outcome.Completed? {
        RecreateRenderSemaphores();
      }
    }

    /**
     * What follows the frame in `Update` as written: the polled events are
     * handled, then the swapchain is rebuilt if that was asked for.
     */
    method PollAndRebuild(e: Events, r: RebuildAnswer) returns (outcome: Outcome)
      requires Valid() && ImagesIssued()
      modifies this`updateSwapchain, this`width, this`height, this`selected, this`oldSwapchain, this`swapchainExtent,
               this`swapchain, this`imageCount, this`swapchainImages, this`swapchainImageViews, this`depthImage,
               this`depthImageAllocation, this`depthImageView, this`depthExtent, device
      ensures Valid() && ImagesIssued()
      ensures selected == SelectedAfterKeys(old(selected), e.plus, e.minus)
      ensures outcome == if old(updateSwapchain) || e.resize.Some? then
                           RebuildOutcome(r, old(imageCount) as nat <= old(|swapchainImageViews|))
                         else Completed
      ensures outcome.Completed? ==> !updateSwapchain && (old(FencesLive()) ==> FencesLive())
      ensures outcome.Completed? ==>
        if old(updateSwapchain) || e.resize.Some? then
          imageCount == r.imageCount && |swapchainImages| == |swapchainImageViews| == r.imageCount as nat &&
          (forall v :: v in Elements(swapchainImageViews) + {depthImageView} ==> old(device.nextHandle) <= v) &&
          LiveViews(device.log) == (((old(LiveViews(device.log)) - Elements(old(swapchainImageViews[..imageCount]))) +
                                     Elements(swapchainImageViews)) - {old(depthImageView)}) + {depthImageView}
        else
          imageCount == old(imageCount) && swapchainImages == old(swapchainImages) &&
          swapchainImageViews == old(swapchainImageViews) && device.log == old(device.log)
      ensures outcome.Completed? && old(ResourcesAccounted()) && old(imageCount) as nat == old(|swapchainImageViews|) ==>
        ResourcesAccounted()
    {
      HandleEvents(e);
      outcome := Completed;
      if updateSwapchain {
        outcome := Rebuild(r);
      }
    }

    /** What follows the frame in the corrected `Update`: the same, with the corrected rebuild. */
    method PollAndRebuildFixed(e: Events, r: RebuildAnswer) returns (outcome: Outcome)
      requires Valid() && ImagesIssued()
      modifies this`updateSwapchain, this`width, this`height, this`selected, this`oldSwapchain, this`swapchainExtent,
               this`swapchain, this`imageCount, this`swapchainImages, this`swapchainImageViews, this`depthImage,
               this`depthImageAllocation, this`depthImageView, this`depthExtent, this`renderSemaphores, device
      ensures Valid() && ImagesIssued()
      ensures selected == SelectedAfterKeys(old(selected), e.plus, e.minus)
      ensures outcome == if old(updateSwapchain) || e.resize.Some? then
                           RebuildOutcome(r, old(imageCount) as nat <= old(|swapchainImageViews|))
                         else Completed
      ensures outcome.Completed? ==> !updateSwapchain && (old(FencesLive()) ==> FencesLive())
      ensures outcome.Completed? ==>
        if old(updateSwapchain) || e.resize.Some? then
          imageCount == r.imageCount && |swapchainImages| == |swapchainImageViews| == |renderSemaphores| == r.imageCount as nat
        else
          imageCount == old(imageCount) && swapchainImages == old(swapchainImages) &&
          swapchainImageViews == old(swapchainImageViews) && renderSemaphores == old(renderSemaphores) &&
          device.log == old(device.log)
      ensures outcome.Completed? && old(ResourcesAccounted()) && old(imageCount) as nat == old(|swapchainImageViews|) ==>
        ResourcesAccounted()
    {
      HandleEvents(e);
      outcome := Completed;
      if updateSwapchain {
        outcome := RebuildFixed(r);
      }
    }

    /**
     * One call of `Update` as written: the frame, then the polled events,
     * then the swapchain rebuild when the flag asks for one.  A completed
     * call advanced the frame index, left no rebuild pending and keeps
     * every live fence live; the views that exist afterwards are the ones
     * the rebuild left, and the window accounts for all of them whenever
     * `_imageCount` counted the views it held.
     */
    method Update(a: TickAnswer, e: Events, r: RebuildAnswer) returns (outcome: Outcome)
      requires Valid() && ImagesIssued()
      modifies this`frameIndex, this`imageIndex, this`updateSwapchain, this`width, this`height, this`selected,
               this`oldSwapchain, this`swapchainExtent, this`swapchain, this`imageCount, this`swapchainImages,
               this`swapchainImageViews, this`depthImage, this`depthImageAllocation, this`depthImageView, this`depthExtent,
               device
      ensures Valid() && ImagesIssued()
      ensures outcome == UpdateOutcome(
        FrameOutcome(a, old(FenceAfter(device.log, fences[frameIndex])) != Unsignalled, old(imageIndex) as nat,
                     old(|swapchainImages|), old(|swapchainImageViews|), |renderSemaphores|,
                     old(SignalPending(device.log, presentSemaphores[frameIndex]))),
        RebuildDue(old(updateSwapchain), a, e), RebuildOutcome(r, old(imageCount) as nat <= old(|swapchainImageViews|)))
      ensures outcome.Completed? ==>
        !updateSwapchain && selected == SelectedAfterKeys(old(selected), e.plus, e.minus) &&
        frameIndex == NextFrameIndex(old(frameIndex)) && (old(FencesLive()) ==> FencesLive())
      ensures outcome.Completed? ==>
        if RebuildDue(old(updateSwapchain), a, e) then
          imageCount == r.imageCount && |swapchainImages| == |swapchainImageViews| == r.imageCount as nat &&
          (forall v :: v in Elements(swapchainImageViews) + {depthImageView} ==> old(device.nextHandle) <= v) &&
          LiveViews(device.log) == (((old(LiveViews(device.log)) - Elements(old(swapchainImageViews[..imageCount]))) +
                                     Elements(swapchainImageViews)) - {old(depthImageView)}) + {depthImageView}
        else
          imageCount == old(imageCount) && swapchainImages == old(swapchainImages) &&
          swapchainImageViews == old(swapchainImageViews) && LiveViews(device.log) == old(LiveViews(device.log))
      ensures outcome.Completed? && old(ResourcesAccounted()) && old(imageCount) as nat == old(|swapchainImageViews|) ==>
        ResourcesAccounted()
    {
      outcome := FrameTick(a);
      if !outcome.Completed? {
        return;
      }
      outcome := PollAndRebuild(e, r);
    }

    /**
     * One call of the corrected `Update`: the corrected frame, then the
     * polled events, then the corrected rebuild when one is due.  Besides
     * what `Update` keeps, it keeps `_imageCount` counting the views and
     * every container indexed by the acquired image large enough.
     */
    method UpdateFixed(a: TickAnswer, e: Events, r: RebuildAnswer) returns (outcome: Outcome)
      requires Valid() && ImagesIssued()
      modifies this`frameIndex, this`imageIndex, this`updateSwapchain, this`width, this`height, this`selected,
               this`oldSwapchain, this`swapchainExtent, this`swapchain, this`imageCount, this`swapchainImages,
               this`swapchainImageViews, this`depthImage, this`depthImageAllocation, this`depthImageView, this`depthExtent,
               this`renderSemaphores, device
      ensures Valid() && ImagesIssued()
      ensures outcome == UpdateOutcome(
        FixedFrameOutcome(a, old(FenceAfter(device.log, fences[frameIndex])) != Unsignalled, old(imageIndex) as nat,
                          old(|swapchainImages|), old(|swapchainImageViews|), old(|renderSemaphores|),
                          old(SignalPending(device.log, presentSemaphores[frameIndex]))),
        RebuildDue(old(updateSwapchain), a, e), RebuildOutcome(r, old(imageCount) as nat <= old(|swapchainImageViews|)))
      ensures outcome.Completed? ==>
        !updateSwapchain && selected == SelectedAfterKeys(old(selected), e.plus, e.minus) &&
        frameIndex == (if a.acquire == ERROR_OUT_OF_DATE_KHR then old(frameIndex) else NextFrameIndex(old(frameIndex))) &&
        (old(FencesLive()) ==> FencesLive())
      ensures outcome.Completed? ==>
        if RebuildDue(old(updateSwapchain), a, e) then
          imageCount == r.imageCount && |swapchainImages| == |swapchainImageViews| == |renderSemaphores| == r.imageCount as nat
        else
          imageCount == old(imageCount) && swapchainImages == old(swapchainImages) &&
          swapchainImageViews == old(swapchainImageViews) && renderSemaphores == old(renderSemaphores)
      ensures outcome.Completed? && old(imageCount) as nat == old(|swapchainImageViews|) ==>
        imageCount as nat == |swapchainImageViews| && (old(FrameSlotsReady()) ==> FrameSlotsReady()) &&
        (old(ResourcesAccounted()) ==> ResourcesAccounted())
    {
      outcome := FixedFrameTick(a);
      if !outcome.Completed? {
        return;
      }
      outcome := PollAndRebuildFixed(e, r);
    }
  }

  /** A frame in which every result is SUCCESS and the acquire hands out `image`. */
  function SmoothTick(image: u32): TickAnswer {
    TickAnswer(SUCCESS, SUCCESS, SUCCESS, image, SUCCESS, SUCCESS, SUCCESS, SUCCESS)
  }

  /** A frame whose acquire reports the swapchain out of date, every other result SUCCESS. */
  function OutOfDateTick(): TickAnswer {
    TickAnswer(SUCCESS, SUCCESS, ERROR_OUT_OF_DATE_KHR, 0, SUCCESS, SUCCESS, SUCCESS, SUCCESS)
  }

  /** A poll that reports nothing. */
  const NO_EVENTS: Events := Events(None, false, false)

  /** A poll that reports a resize to `size` and no key. */
  function ResizeEvents(size: FramebufferSize): Events {
    Events(Some(size), false, false)
  }

  /** A rebuild in which every result is SUCCESS and the new swapchain has `n` images. */
  function SmoothRebuild(n: u32): RebuildAnswer {
    RebuildAnswer(SUCCESS, SUCCESS, n, SUCCESS)
  }

  /**
   * A window on a fresh device after `Init`, for answers under which it
   * completes: initialisation completes, and the window is ready for its
   * first frame, with `_imageCount` still 0.
   */
  method NewWindow(x: u32, y: u32, q: InitQuery) returns (w: Window, init: Outcome)
    requires InitOutcome(q) == Completed
    ensures init == Completed
    ensures fresh(w) && fresh(w.device)
    ensures w.Valid() && w.ImagesIssued() && w.InitMade(x, y, q) && w.frameIndex == 0 && w.imageIndex == 0 &&
      !w.updateSwapchain && w.imageCount == 0
  {
    var device := new Device();
    w := new Window(device);
    init := w.Init(x, y, q);
  }

  /** The same after the corrected `Init`, with `_imageCount` counting the views. */
  method NewFixedWindow(x: u32, y: u32, q: InitQuery) returns (w: Window, init: Outcome)
    requires InitOutcome(q) == Completed
    ensures init == Completed
    ensures fresh(w) && fresh(w.device)
    ensures w.Valid() && w.ImagesIssued() && w.InitMade(x, y, q) && w.frameIndex == 0 && w.imageIndex == 0 &&
      !w.updateSwapchain && w.imageCount as nat == |w.swapchainImageViews|
  {
    var device := new Device();
    w := new Window(device);
    init := w.InitFixed(x, y, q);
  }

  /**
   * The first frame after `Init` with an out-of-date acquire: no image is
   * acquired, yet the frame is recorded and submitted waiting on the
   * acquire semaphore, which nothing will signal.
   */
  method OutOfDateAcquireUpdate(x: u32, y: u32, q: InitQuery) returns (outcome: Outcome)
    requires InitOutcome(q) == Completed && q.imageCount > 0
    ensures outcome == Hang(WAIT_NEVER_SIGNALLED)
  {
    var w, init := NewWindow(x, y, q);
    outcome := w.Update(OutOfDateTick(), NO_EVENTS, SmoothRebuild(q.imageCount));
  }

  /** The same frame in the corrected `Update`: it ends at the acquire, the rebuild follows, and the next frame completes. */
  method OutOfDateAcquireUpdateFixed(x: u32, y: u32, q: InitQuery) returns (first: Outcome, second: Outcome)
    requires InitOutcome(q) == Completed && q.imageCount > 0
    ensures first == Completed && second == Completed
  {
    var w, init := NewFixedWindow(x, y, q);
    first := w.UpdateFixed(OutOfDateTick(), NO_EVENTS, SmoothRebuild(q.imageCount));
    second := w.UpdateFixed(SmoothTick(0), NO_EVENTS, SmoothRebuild(q.imageCount));
  }

  /**
   * A swapchain of two images rebuilt after a resize with three: the
   * rebuild keeps the two render-finished semaphores, so the next frame,
   * acquiring the third image, indexes `_renderSemaphores` out of range.
   */
  method GrownSwapchainUpdate(x: u32, y: u32, q: InitQuery, size: FramebufferSize) returns (first: Outcome, second: Outcome)
    requires InitOutcome(q) == Completed && q.imageCount == 2
    ensures first == Completed && second == IndexOutOfRange(RENDER_SEMAPHORES_VEC)
  {
    var w, init := NewWindow(x, y, q);
    first := w.Update(SmoothTick(0), ResizeEvents(size), SmoothRebuild(3));
    second := w.Update(SmoothTick(2), NO_EVENTS, SmoothRebuild(3));
  }

  /** The same frames with the corrected rebuild re-creating the render-finished semaphores: both complete. */
  method GrownSwapchainUpdateFixed(x: u32, y: u32, q: InitQuery, size: FramebufferSize)
    returns (first: Outcome, second: Outcome)
    requires InitOutcome(q) == Completed && q.imageCount == 2
    ensures first == Completed && second == Completed
  {
    var w, init := NewFixedWindow(x, y, q);
    first := w.UpdateFixed(SmoothTick(0), ResizeEvents(size), SmoothRebuild(3));
    second := w.UpdateFixed(SmoothTick(2), NO_EVENTS, SmoothRebuild(3));
  }

  /**
   * The first rebuild after `Init`: `_imageCount` is still 0, so no view
   * is destroyed, and every view `Init` made still exists while the
   * window holds none of them.
   */
  method FirstRebuildLeaksViews(x: u32, y: u32, q: InitQuery, size: FramebufferSize)
    returns (outcome: Outcome, w: Window, leaked: seq<Handle>)
    requires InitOutcome(q) == Completed && q.imageCount > 0
    ensures outcome == Completed && |leaked| == q.imageCount as nat
    ensures forall i :: 0 <= i < |leaked| ==>
      leaked[i] in LiveViews(w.device.log) && leaked[i] !in w.swapchainImageViews && leaked[i] != w.depthImageView
    ensures !w.ResourcesAccounted()
  {
    var init;
    w, init := NewWindow(x, y, q);
    leaked := w.swapchainImageViews;
    assert forall i :: 0 <= i < |leaked| ==> leaked[i] in LiveViews(w.device.log);
    assert leaked[..w.imageCount] == [];
    outcome := w.Update(SmoothTick(0), ResizeEvents(size), SmoothRebuild(q.imageCount));
    assert leaked[0] in LiveViews(w.device.log) && leaked[0] !in Elements(w.swapchainImageViews) + {w.depthImageView};
  }

  /** The same rebuild after the corrected `Init`: the views that exist are exactly those the window holds. */
  method FirstRebuildAccountsViews(x: u32, y: u32, q: InitQuery, size: FramebufferSize) returns (outcome: Outcome, w: Window)
    requires InitOutcome(q) == Completed && q.imageCount > 0
    ensures outcome == Completed && w.ResourcesAccounted()
  {
    var init;
    w, init := NewFixedWindow(x, y, q);
    outcome := w.UpdateFixed(SmoothTick(0), ResizeEvents(size), SmoothRebuild(q.imageCount));
  }
}
