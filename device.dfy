/**
 * An abstract Vulkan device as the two renderers drive it.  The device is
 * the ordered list of calls made on it; the state of a fence, whether a
 * semaphore has a signal pending, and which image views and swapchains
 * exist are all functions of that list.  The GPU is assumed to finish
 * submitted work by the time anybody waits for it, so there is no
 * concurrency in the model: a wait on a fence that some submission will
 * signal returns, and a wait that nothing can satisfy is reported as a
 * hang instead of being performed.
 */
module DeviceModel {
  import opened VkTypes
  import opened Commands

  datatype FenceState = Unsignalled | Signalled | Pending

  datatype Call =
    | CreateSwapchain(swapchain: Handle, minImageCount: u32, imageExtent: Extent2D, presentMode: PresentMode, oldSwapchain: Handle)
    | GetSwapchainImages(ofSwapchain: Handle, images: seq<Handle>)
    | DestroySwapchain(destroyed: Handle)
    | CreateImageView(view: Handle, image: Handle)
    | DestroyImageView(destroyedView: Handle)
    | CreateImage(image: Handle, extent: Extent2D, format: Format)
    | DestroyImage(destroyedImage: Handle)
    | CreateAllocatedImage(allocatedImage: Handle, allocation: Handle, allocatedExtent: Extent2D, allocatedFormat: Format)
    | DestroyAllocatedImage(freedImage: Handle, freedAllocation: Handle)
    | AllocateMemory(memory: Handle, memoryTypeIndex: nat)
    | BindImageMemory(boundImage: Handle, boundMemory: Handle)
    | FreeMemory(freed: Handle)
    | CreateSemaphore(semaphore: Handle)
    | DestroySemaphore(destroyedSemaphore: Handle)
    | CreateFence(fence: Handle, signalled: bool)
    | AllocateCommandBuffers(buffers: seq<Handle>)
    | WaitForFence(waited: Handle)
    | ResetFence(reset: Handle)
    | AcquireNextImage(acquireFrom: Handle, signalOnAcquire: Handle, acquireResult: VkResult)
    | QueueSubmit(waitSemaphore: Handle, commandBuffer: Handle, commands: seq<Command>, signalSemaphore: Handle, submitFence: Handle)
    | QueuePresent(presentTo: Handle, presentWait: Handle, imageIndex: u32, presentResult: VkResult)
    | DeviceWaitIdle

  /**
   * How a program run ends its step: normally, by an uncaught exception,
   * by `exit`, by indexing a container out of range (undefined behaviour
   * in the source), or by waiting for something nothing will signal.
   */
  datatype Outcome =
    | Completed
    | Threw(message: string)
    | Exited(code: int)
    | IndexOutOfRange(container: string)
    | Hang(reason: string)

  /**
   * An acquire that hands out an image: success, or success with a
   * suboptimal swapchain.  With an infinite timeout these and the error
   * codes are the only results.
   */
  predicate Acquired(r: VkResult) { r == SUCCESS || r == SUBOPTIMAL_KHR }

  predicate AcquireResultPossible(r: VkResult) { Acquired(r) || r.IsError() }

  /** The effect of one call on the state of fence `f`. */
  function FenceStep(before: FenceState, c: Call, f: Handle): FenceState {
    match c
    case CreateFence(h, signalled) => if h == f then (if signalled then Signalled else Unsignalled) else before
    case WaitForFence(h) => if h == f && before == Pending then Signalled else before
    case ResetFence(h) => if h == f then Unsignalled else before
    case QueueSubmit(_, _, _, _, h) => if h == f then Pending else before
    case DeviceWaitIdle => if before == Pending then Signalled else before
    case _ => before
  }

  /** The effect of one call on whether semaphore `sem` has a signal pending. */
  function SignalStep(before: bool, c: Call, sem: Handle): bool {
    match c
    case CreateSemaphore(h) => if h == sem then false else before
    case AcquireNextImage(_, h, r) => if h == sem && Acquired(r) then true else before
    case QueueSubmit(w, _, _, sig, _) => if sig == sem then true else if w == sem then false else before
    case QueuePresent(_, w, _, _) => if w == sem then false else before
    case _ => before
  }

  function ViewsStep(before: set<Handle>, c: Call): set<Handle> {
    match c
    case CreateImageView(view, _) => before + {view}
    case DestroyImageView(view) => before - {view}
    case _ => before
  }

  function SwapchainsStep(before: set<Handle>, c: Call): set<Handle> {
    match c
    case CreateSwapchain(sc, _, _, _, _) => before + {sc}
    case DestroySwapchain(sc) => before - {sc}
    case _ => before
  }

  /** The state of fence `f` after the calls in `log`. */
  function FenceAfter(log: seq<Call>, f: Handle): FenceState
    decreases |log|
  {
    if log == [] then Unsignalled else FenceStep(FenceAfter(log[..|log| - 1], f), log[|log| - 1], f)
  }

  /** Whether semaphore `sem` has a signal that no wait has consumed yet. */
  function SignalPending(log: seq<Call>, sem: Handle): bool
    decreases |log|
  {
    if log == [] then false else SignalStep(SignalPending(log[..|log| - 1], sem), log[|log| - 1], sem)
  }

  /** The image views created and not yet destroyed. */
  function LiveViews(log: seq<Call>): set<Handle>
    decreases |log|
  {
    if log == [] then {} else ViewsStep(LiveViews(log[..|log| - 1]), log[|log| - 1])
  }

  /** The swapchains created and not yet destroyed. */
  function LiveSwapchains(log: seq<Call>): set<Handle>
    decreases |log|
  {
    if log == [] then {} else SwapchainsStep(LiveSwapchains(log[..|log| - 1]), log[|log| - 1])
  }

  /** The handle a call brings into existence, if it is a view or a swapchain. */
  function Created(c: Call): Option<Handle> {
    match c
    case CreateSwapchain(sc, _, _, _, _) => Some(sc)
    case CreateImageView(view, _) => Some(view)
    case _ => None
  }

  /** The views and swapchains after one more call, by that call alone. */
  lemma ResourcesAfterSnoc(log: seq<Call>, c: Call)
    ensures LiveViews(log + [c]) == ViewsStep(LiveViews(log), c)
    ensures LiveSwapchains(log + [c]) == SwapchainsStep(LiveSwapchains(log), c)
  {
    assert (log + [c])[..|log|] == log;
  }

  /** The views that exist after the calls `cs`, starting from the views `s`. */
  function ViewsFrom(s: set<Handle>, cs: seq<Call>): set<Handle>
    decreases |cs|
  {
    if cs == [] then s else ViewsFrom(ViewsStep(s, cs[0]), cs[1..])
  }

  /** The swapchains that exist after the calls `cs`, starting from the swapchains `s`. */
  function SwapchainsFrom(s: set<Handle>, cs: seq<Call>): set<Handle>
    decreases |cs|
  {
    if cs == [] then s else SwapchainsFrom(SwapchainsStep(s, cs[0]), cs[1..])
  }

  lemma {:induction false} FromSnoc(views: set<Handle>, swapchains: set<Handle>, cs: seq<Call>, c: Call)
    ensures ViewsFrom(views, cs + [c]) == ViewsStep(ViewsFrom(views, cs), c)
    ensures SwapchainsFrom(swapchains, cs + [c]) == SwapchainsStep(SwapchainsFrom(swapchains, cs), c)
    decreases |cs|
  {
    if cs == [] {
      assert cs + [c] == [c];
    } else {
      assert (cs + [c])[0] == cs[0];
      assert (cs + [c])[1..] == cs[1..] + [c];
      FromSnoc(ViewsStep(views, cs[0]), SwapchainsStep(swapchains, cs[0]), cs[1..], c);
    }
  }

  /** Views and swapchains after a log extended by `b` are those after the log, updated by `b`. */
  lemma {:induction false} LiveAppend(a: seq<Call>, b: seq<Call>)
    ensures LiveViews(a + b) == ViewsFrom(LiveViews(a), b)
    ensures LiveSwapchains(a + b) == SwapchainsFrom(LiveSwapchains(a), b)
    decreases |b|
  {
    if b == [] {
      assert a + b == a;
    } else {
      var init, last := b[..|b| - 1], b[|b| - 1];
      LiveAppend(a, init);
      assert a + b == (a + init) + [last];
      ResourcesAfterSnoc(a + init, last);
      assert b == init + [last];
      FromSnoc(LiveViews(a), LiveSwapchains(a), init, last);
    }
  }

  /** Updating by a concatenation updates by each part in turn. */
  lemma {:induction false} FromAppend(views: set<Handle>, swapchains: set<Handle>, x: seq<Call>, y: seq<Call>)
    ensures ViewsFrom(views, x + y) == ViewsFrom(ViewsFrom(views, x), y)
    ensures SwapchainsFrom(swapchains, x + y) == SwapchainsFrom(SwapchainsFrom(swapchains, x), y)
    decreases |x|
  {
    if x == [] {
      assert x + y == y;
    } else {
      assert (x + y)[0] == x[0];
      assert (x + y)[1..] == x[1..] + y;
      FromAppend(ViewsStep(views, x[0]), SwapchainsStep(swapchains, x[0]), x[1..], y);
    }
  }

  /** The state of one fence after one more call, by that call alone. */
  lemma FenceAfterSnoc(log: seq<Call>, c: Call, f: Handle)
    ensures FenceAfter(log + [c], f) == FenceStep(FenceAfter(log, f), c, f)
  {
    assert (log + [c])[..|log|] == log;
  }

  /** Whether one semaphore has a signal pending after one more call, by that call alone. */
  lemma SignalAfterSnoc(log: seq<Call>, c: Call, sem: Handle)
    ensures SignalPending(log + [c], sem) == SignalStep(SignalPending(log, sem), c, sem)
  {
    assert (log + [c])[..|log|] == log;
  }

  /** Calls that neither create nor destroy a view or a swapchain. */
  predicate ResourceNeutral(c: Call) {
    !c.CreateImageView? && !c.DestroyImageView? && !c.CreateSwapchain? && !c.DestroySwapchain?
  }

  lemma {:induction false} NeutralFrom(views: set<Handle>, swapchains: set<Handle>, cs: seq<Call>)
    requires forall k :: 0 <= k < |cs| ==> ResourceNeutral(cs[k])
    ensures ViewsFrom(views, cs) == views && SwapchainsFrom(swapchains, cs) == swapchains
    decreases |cs|
  {
    if cs != [] {
      assert ResourceNeutral(cs[0]);
      NeutralFrom(views, swapchains, cs[1..]);
    }
  }

  /** Calls that neither create nor destroy a view or a swapchain leave the views and swapchains that exist as they were. */
  lemma NeutralCalls(log: seq<Call>, cs: seq<Call>)
    requires forall k :: 0 <= k < |cs| ==> ResourceNeutral(cs[k])
    ensures LiveViews(log + cs) == LiveViews(log) && LiveSwapchains(log + cs) == LiveSwapchains(log)
  {
    LiveAppend(log, cs);
    NeutralFrom(LiveViews(log), LiveSwapchains(log), cs);
  }

  /** Calls after which a fence that was not unsignalled still is not. */
  predicate NeverUnsignals(c: Call) {
    !c.ResetFence? && !(c.CreateFence? && !c.signalled)
  }

  /**
   * A fence that some submission will signal, or that is signalled, stays
   * so across calls that neither reset it nor re-create it unsignalled.
   */
  lemma {:induction false} FenceStaysLive(log: seq<Call>, cs: seq<Call>, f: Handle)
    requires forall i :: 0 <= i < |cs| ==> NeverUnsignals(cs[i])
    requires FenceAfter(log, f) != Unsignalled
    ensures FenceAfter(log + cs, f) != Unsignalled
    decreases |cs|
  {
    if cs != [] {
      var init, last := cs[..|cs| - 1], cs[|cs| - 1];
      FenceStaysLive(log, init, f);
      assert log + cs == (log + init) + [last];
      FenceAfterSnoc(log + init, last, f);
      assert NeverUnsignals(cs[|cs| - 1]);
    } else {
      assert log + cs == log;
    }
  }

  /** Every fence of a list that is not unsignalled stays so across calls that never unsignal one. */
  lemma FencesStayLive(log: seq<Call>, cs: seq<Call>, fences: seq<Handle>)
    requires forall i :: 0 <= i < |cs| ==> NeverUnsignals(cs[i])
    requires forall i :: 0 <= i < |fences| ==> FenceAfter(log, fences[i]) != Unsignalled
    ensures forall i :: 0 <= i < |fences| ==> FenceAfter(log + cs, fences[i]) != Unsignalled
  {
    forall i | 0 <= i < |fences|
      ensures FenceAfter(log + cs, fences[i]) != Unsignalled
    {
      FenceStaysLive(log, cs, fences[i]);
    }
  }

  /** Calls that never give a semaphore a pending signal. */
  predicate NeverSignals(c: Call) {
    !c.AcquireNextImage? && !c.QueueSubmit?
  }

  /** A semaphore with no signal pending gets none from calls that never signal. */
  lemma {:induction false} SignalStaysClear(log: seq<Call>, cs: seq<Call>, sem: Handle)
    requires forall i :: 0 <= i < |cs| ==> NeverSignals(cs[i])
    requires !SignalPending(log, sem)
    ensures !SignalPending(log + cs, sem)
    decreases |cs|
  {
    if cs != [] {
      var init, last := cs[..|cs| - 1], cs[|cs| - 1];
      SignalStaysClear(log, init, sem);
      assert log + cs == (log + init) + [last];
      SignalAfterSnoc(log + init, last, sem);
      assert NeverSignals(cs[|cs| - 1]);
    } else {
      assert log + cs == log;
    }
  }

  /** The handles a list holds. */
  function Elements(hs: seq<Handle>): (r: set<Handle>)
    ensures forall x :: x in r <==> x in hs
  {
    set x | x in hs
  }

  /** The handles of a list extended by one are those of the list and the new one. */
  lemma ElementsSnoc(hs: seq<Handle>, h: Handle)
    ensures Elements(hs + [h]) == Elements(hs) + {h}
  {
  }

  /** One view created per image, in order. */
  function CreateViewCalls(views: seq<Handle>, images: seq<Handle>): seq<Call>
    requires |views| == |images|
  {
    seq(|views|, i requires 0 <= i < |views| => CreateImageView(views[i], images[i]))
  }

  /** One view destroyed per entry, in order. */
  function DestroyViewCalls(views: seq<Handle>): seq<Call> {
    seq(|views|, i requires 0 <= i < |views| => DestroyImageView(views[i]))
  }

  lemma CreateViewCallsSnoc(views: seq<Handle>, images: seq<Handle>, view: Handle, image: Handle)
    requires |views| == |images|
    ensures CreateViewCalls(views + [view], images + [image]) == CreateViewCalls(views, images) + [CreateImageView(view, image)]
  {
    assert (views + [view])[..|views|] == views && (images + [image])[..|images|] == images;
  }

  /** Creating one view per image brings exactly those views into existence. */
  lemma {:induction false} LiveViewsAfterCreate(log: seq<Call>, views: seq<Handle>, images: seq<Handle>)
    requires |views| == |images|
    ensures LiveViews(log + CreateViewCalls(views, images)) == LiveViews(log) + Elements(views)
    ensures LiveSwapchains(log + CreateViewCalls(views, images)) == LiveSwapchains(log)
    decreases |views|
  {
    if views != [] {
      var n := |views| - 1;
      var init := CreateViewCalls(views[..n], images[..n]);
      LiveViewsAfterCreate(log, views[..n], images[..n]);
      assert CreateViewCalls(views, images) == init + [CreateImageView(views[n], images[n])];
      assert log + CreateViewCalls(views, images) == (log + init) + [CreateImageView(views[n], images[n])];
      ResourcesAfterSnoc(log + init, CreateImageView(views[n], images[n]));
      assert views == views[..n] + [views[n]];
      ElementsSnoc(views[..n], views[n]);
    } else {
      assert log + CreateViewCalls(views, images) == log;
    }
  }

  /** Destroying a list of views ends exactly those views. */
  lemma {:induction false} LiveViewsAfterDestroy(log: seq<Call>, views: seq<Handle>)
    ensures LiveViews(log + DestroyViewCalls(views)) == LiveViews(log) - Elements(views)
    ensures LiveSwapchains(log + DestroyViewCalls(views)) == LiveSwapchains(log)
    decreases |views|
  {
    if views != [] {
      var n := |views| - 1;
      var init := DestroyViewCalls(views[..n]);
      LiveViewsAfterDestroy(log, views[..n]);
      assert DestroyViewCalls(views) == init + [DestroyImageView(views[n])];
      assert log + DestroyViewCalls(views) == (log + init) + [DestroyImageView(views[n])];
      ResourcesAfterSnoc(log + init, DestroyImageView(views[n]));
      assert views == views[..n] + [views[n]];
      ElementsSnoc(views[..n], views[n]);
    } else {
      assert log + DestroyViewCalls(views) == log;
    }
  }

  /** One fresh semaphore created per entry, in order. */
  function SemaphoreCalls(sems: seq<Handle>): seq<Call> {
    seq(|sems|, i requires 0 <= i < |sems| => CreateSemaphore(sems[i]))
  }

  /** One semaphore destroyed per entry, in order. */
  function DestroySemaphoreCalls(sems: seq<Handle>): seq<Call> {
    seq(|sems|, i requires 0 <= i < |sems| => DestroySemaphore(sems[i]))
  }

  /** One fence created signalled per entry, in order. */
  function FenceCalls(fences: seq<Handle>): seq<Call> {
    seq(|fences|, i requires 0 <= i < |fences| => CreateFence(fences[i], true))
  }

  /** Two semaphores and a signalled fence per index, in order. */
  function SyncCalls(acquire: seq<Handle>, render: seq<Handle>, fences: seq<Handle>): (cs: seq<Call>)
    requires |acquire| == |render| == |fences|
    ensures |cs| == 3 * |fences|
    decreases |fences|
  {
    if fences == [] then []
    else
      var n := |fences| - 1;
      SyncCalls(acquire[..n], render[..n], fences[..n]) +
      [CreateSemaphore(acquire[n]), CreateSemaphore(render[n]), CreateFence(fences[n], true)]
  }

  /** Creating semaphores and signalled fences leaves every fence that is not unsignalled so, and makes no view or swapchain. */
  lemma {:induction false} SyncCallsQuiet(acquire: seq<Handle>, render: seq<Handle>, fences: seq<Handle>)
    requires |acquire| == |render| == |fences|
    ensures forall k :: 0 <= k < 3 * |fences| ==>
      NeverUnsignals(SyncCalls(acquire, render, fences)[k]) && ResourceNeutral(SyncCalls(acquire, render, fences)[k])
    decreases |fences|
  {
    if fences != [] {
      var n := |fences| - 1;
      SyncCallsQuiet(acquire[..n], render[..n], fences[..n]);
      var init := SyncCalls(acquire[..n], render[..n], fences[..n]);
      var last := [CreateSemaphore(acquire[n]), CreateSemaphore(render[n]), CreateFence(fences[n], true)];
      assert SyncCalls(acquire, render, fences) == init + last;
      assert forall k :: 0 <= k < 3 * |fences| ==> (init + last)[k] == if k < 3 * n then init[k] else last[k - 3 * n];
    }
  }

  /** One more index extends the calls by that index's three calls. */
  lemma SyncCallsSnoc(acquire: seq<Handle>, render: seq<Handle>, fences: seq<Handle>, a: Handle, r: Handle, f: Handle)
    requires |acquire| == |render| == |fences|
    ensures SyncCalls(acquire + [a], render + [r], fences + [f]) ==
      SyncCalls(acquire, render, fences) + [CreateSemaphore(a), CreateSemaphore(r), CreateFence(f, true)]
  {
    var n := |fences|;
    assert (acquire + [a])[..n] == acquire && (render + [r])[..n] == render && (fences + [f])[..n] == fences;
  }

  /** After two semaphores and a signalled fence, that fence is signalled and every other fence is as it was. */
  lemma SyncSetFences(log: seq<Call>, a: Handle, r: Handle, f: Handle)
    ensures forall h ::
      FenceAfter(log + [CreateSemaphore(a), CreateSemaphore(r), CreateFence(f, true)], h) ==
      (if h == f then Signalled else FenceAfter(log, h))
  {
    var l1 := log + [CreateSemaphore(a)];
    var l2 := l1 + [CreateSemaphore(r)];
    assert log + [CreateSemaphore(a), CreateSemaphore(r), CreateFence(f, true)] == l2 + [CreateFence(f, true)];
    forall h
      ensures FenceAfter(l2 + [CreateFence(f, true)], h) == (if h == f then Signalled else FenceAfter(log, h))
    {
      FenceAfterSnoc(log, CreateSemaphore(a), h);
      FenceAfterSnoc(l1, CreateSemaphore(r), h);
      FenceAfterSnoc(l2, CreateFence(f, true), h);
    }
  }

  /** Sync sets whose handles run consecutively from `base`: each set's acquire, render and fence handles in turn. */
  predicate ConsecutiveSyncSets(acquire: seq<Handle>, render: seq<Handle>, fences: seq<Handle>, base: nat)
  {
    |acquire| == |render| == |fences| &&
    forall k :: 0 <= k < |fences| ==>
      acquire[k] == base + 3 * k && render[k] == acquire[k] + 1 && fences[k] == acquire[k] + 2
  }

  /** Appending the set made from the next three handles keeps the sets consecutive. */
  lemma ConsecutiveSyncSetsSnoc(acquire: seq<Handle>, render: seq<Handle>, fences: seq<Handle>, base: nat,
                                a: Handle, r: Handle, f: Handle)
    requires ConsecutiveSyncSets(acquire, render, fences, base)
    requires a == base + 3 * |fences| && r == a + 1 && f == a + 2
    ensures ConsecutiveSyncSets(acquire + [a], render + [r], fences + [f], base)
  {
    var n := |fences|;
    forall k | 0 <= k < n + 1
      ensures (acquire + [a])[k] == base + 3 * k &&
              (render + [r])[k] == (acquire + [a])[k] + 1 && (fences + [f])[k] == (acquire + [a])[k] + 2
    {
      if k < n {
        assert (acquire + [a])[k] == acquire[k] && (render + [r])[k] == render[k] && (fences + [f])[k] == fences[k];
      }
    }
  }

  /** Adding one sync set keeps every earlier fence signalled and signals the new one. */
  lemma SyncSetsStep(log0: seq<Call>, log: seq<Call>, fences: seq<Handle>, f: Handle)
    requires forall h :: FenceAfter(log, h) == (if h == f then Signalled else FenceAfter(log0, h))
    requires forall k :: 0 <= k < |fences| ==> FenceAfter(log0, fences[k]) == Signalled
    ensures forall k :: 0 <= k < |fences| + 1 ==> FenceAfter(log, (fences + [f])[k]) == Signalled
  {
    forall k | 0 <= k < |fences| + 1
      ensures FenceAfter(log, (fences + [f])[k]) == Signalled
    {
      if k < |fences| {
        assert (fences + [f])[k] == fences[k];
        assert FenceAfter(log, fences[k]) == (if fences[k] == f then Signalled else FenceAfter(log0, fences[k]));
      }
    }
  }

  /**
   * The calls of one frame, in order: wait for and reset the frame's
   * fence, acquire an image signalling the frame's image-available
   * semaphore, submit the recorded commands waiting on that semaphore and
   * signalling the image's render-finished semaphore and the fence, and
   * present the image once rendering has finished.
   */
  function FrameCalls(swapchain: Handle, fence: Handle, imageAvailable: Handle, renderFinished: Handle,
                      commandBuffer: Handle, cmds: seq<Command>, image: u32, acquire: VkResult, present: VkResult): seq<Call>
  {
    [WaitForFence(fence), ResetFence(fence), AcquireNextImage(swapchain, imageAvailable, acquire),
     QueueSubmit(imageAvailable, commandBuffer, cmds, renderFinished, fence),
     QueuePresent(swapchain, renderFinished, image, present)]
  }

  /** The end of a frame: submit the recorded commands, then present the image. */
  function RenderCalls(swapchain: Handle, fence: Handle, imageAvailable: Handle, renderFinished: Handle,
                       commandBuffer: Handle, cmds: seq<Command>, image: u32, present: VkResult): seq<Call>
  {
    [QueueSubmit(imageAvailable, commandBuffer, cmds, renderFinished, fence),
     QueuePresent(swapchain, renderFinished, image, present)]
  }

  /** After a frame the frame's fence will be signalled by the submission, and every other fence is as it was. */
  lemma FrameCallsFence(log: seq<Call>, swapchain: Handle, fence: Handle, imageAvailable: Handle, renderFinished: Handle,
                        commandBuffer: Handle, cmds: seq<Command>, image: u32, acquire: VkResult, present: VkResult, g: Handle)
    ensures FenceAfter(log + FrameCalls(swapchain, fence, imageAvailable, renderFinished, commandBuffer, cmds, image, acquire, present), g) ==
      (if g == fence then Pending else FenceAfter(log, g))
  {
    var cs := FrameCalls(swapchain, fence, imageAvailable, renderFinished, commandBuffer, cmds, image, acquire, present);
    var l1 := log + [cs[0]];
    var l2 := l1 + [cs[1]];
    var l3 := l2 + [cs[2]];
    var l4 := l3 + [cs[3]];
    assert log + cs == l4 + [cs[4]];
    FenceAfterSnoc(log, cs[0], g);
    FenceAfterSnoc(l1, cs[1], g);
    FenceAfterSnoc(l2, cs[2], g);
    FenceAfterSnoc(l3, cs[3], g);
    FenceAfterSnoc(l4, cs[4], g);
  }

  /**
   * A frame changes the state of the frame's fence alone, to awaiting the
   * submission's signal, and no view or swapchain comes or goes.
   */
  lemma FrameCallsEffects(log: seq<Call>, swapchain: Handle, fence: Handle, imageAvailable: Handle, renderFinished: Handle,
                          commandBuffer: Handle, cmds: seq<Command>, image: u32, acquire: VkResult, present: VkResult)
    ensures forall g ::
      FenceAfter(log + FrameCalls(swapchain, fence, imageAvailable, renderFinished, commandBuffer, cmds, image, acquire, present), g) ==
      (if g == fence then Pending else FenceAfter(log, g))
    ensures LiveViews(log + FrameCalls(swapchain, fence, imageAvailable, renderFinished, commandBuffer, cmds, image, acquire, present)) == LiveViews(log)
    ensures LiveSwapchains(log + FrameCalls(swapchain, fence, imageAvailable, renderFinished, commandBuffer, cmds, image, acquire, present)) == LiveSwapchains(log)
  {
    var cs := FrameCalls(swapchain, fence, imageAvailable, renderFinished, commandBuffer, cmds, image, acquire, present);
    forall g {
      FrameCallsFence(log, swapchain, fence, imageAvailable, renderFinished, commandBuffer, cmds, image, acquire, present, g);
    }
    LiveAppend(log, cs);
    NeutralFrom(LiveViews(log), LiveSwapchains(log), cs);
  }

  /**
   * The log of a frame made as `drawFrame` makes it, in two parts: after
   * it, every fence that was live before it is live, and the frame's own
   * fence awaits the submission.
   */
  lemma FrameKeepsFencesLive(log0: seq<Call>, log1: seq<Call>, log: seq<Call>, fences: seq<Handle>, swapchain: Handle,
                             fence: Handle, imageAvailable: Handle, renderFinished: Handle, commandBuffer: Handle,
                             cmds: seq<Command>, image: u32, acquire: VkResult, present: VkResult)
    requires log1 == log0 + [WaitForFence(fence), ResetFence(fence)]
    requires log == log1 + [AcquireNextImage(swapchain, imageAvailable, acquire)] +
                    RenderCalls(swapchain, fence, imageAvailable, renderFinished, commandBuffer, cmds, image, present)
    ensures log == log0 + FrameCalls(swapchain, fence, imageAvailable, renderFinished, commandBuffer, cmds, image, acquire, present)
    ensures FenceAfter(log, fence) == Pending
    ensures (forall i :: 0 <= i < |fences| ==> FenceAfter(log0, fences[i]) != Unsignalled) ==>
      (forall i :: 0 <= i < |fences| ==> FenceAfter(log, fences[i]) != Unsignalled)
  {
    assert log == log0 + FrameCalls(swapchain, fence, imageAvailable, renderFinished, commandBuffer, cmds, image, acquire, present);
    FrameCallsFence(log0, swapchain, fence, imageAvailable, renderFinished, commandBuffer, cmds, image, acquire, present, fence);
    forall i | 0 <= i < |fences|
      ensures FenceAfter(log, fences[i]) == (if fences[i] == fence then Pending else FenceAfter(log0, fences[i]))
    {
      FrameCallsFence(log0, swapchain, fence, imageAvailable, renderFinished, commandBuffer, cmds, image, acquire, present, fences[i]);
    }
  }

  /** After a signalled fence and a semaphore are created, the fence is signalled, the semaphore idle, and every other object as it was. */
  lemma FrameSyncStep(log: seq<Call>, fence: Handle, semaphore: Handle, g: Handle)
    ensures FenceAfter(log + [CreateFence(fence, true), CreateSemaphore(semaphore)], g) ==
      (if g == fence then Signalled else FenceAfter(log, g))
    ensures SignalPending(log + [CreateFence(fence, true), CreateSemaphore(semaphore)], g) ==
      (if g == semaphore then false else SignalPending(log, g))
  {
    var l1 := log + [CreateFence(fence, true)];
    assert log + [CreateFence(fence, true), CreateSemaphore(semaphore)] == l1 + [CreateSemaphore(semaphore)];
    FenceAfterSnoc(log, CreateFence(fence, true), g);
    FenceAfterSnoc(l1, CreateSemaphore(semaphore), g);
    SignalAfterSnoc(log, CreateFence(fence, true), g);
    SignalAfterSnoc(l1, CreateSemaphore(semaphore), g);
  }

  /**
   * The device the renderer talks to: the calls made so far, and the next
   * fresh handle value (handles are never reused).
   */
  class Device {
    var nextHandle: nat
    var log: seq<Call>

    ghost predicate Valid()
      reads this
    {
      1 <= nextHandle &&
      (forall v :: v in LiveViews(log) ==> v < nextHandle) &&
      (forall s :: s in LiveSwapchains(log) ==> s < nextHandle)
    }

    constructor ()
      ensures Valid() && nextHandle == 1 && log == []
    {
      nextHandle := 1;
      log := [];
    }

    /** A handle no object has had before. */
    method NewHandle() returns (h: Handle)
      requires Valid()
      modifies this`nextHandle
      ensures Valid()
      ensures h == old(nextHandle) && nextHandle == h + 1 && h != NULL_HANDLE
    {
      h := nextHandle;
      nextHandle := nextHandle + 1;
    }

    /** Handles as many fresh handles as asked for, in order. */
    method NewHandles(n: nat) returns (hs: seq<Handle>)
      requires Valid()
      modifies this`nextHandle
      ensures Valid()
      ensures |hs| == n && nextHandle == old(nextHandle) + n
      ensures forall i :: 0 <= i < n ==> hs[i] == old(nextHandle) + i
    {
      hs := [];
      while |hs| < n
        invariant Valid() && |hs| <= n && nextHandle == old(nextHandle) + |hs|
        invariant forall i :: 0 <= i < |hs| ==> hs[i] == old(nextHandle) + i
      {
        var h := NewHandle();
        hs := hs + [h];
      }
    }

    /** One fresh view per image, in order, each made by a call of its own. */
    method CreateViews(images: seq<Handle>) returns (views: seq<Handle>)
      requires Valid()
      modifies this
      ensures Valid()
      ensures |views| == |images| && nextHandle == old(nextHandle) + |images|
      ensures forall i :: 0 <= i < |views| ==> views[i] == old(nextHandle) + i
      ensures log == old(log) + CreateViewCalls(views, images)
    {
      views := [];
      while |views| < |images|
        invariant Valid() && |views| <= |images| && nextHandle == old(nextHandle) + |views|
        invariant forall i :: 0 <= i < |views| ==> views[i] == old(nextHandle) + i
        invariant log == old(log) + CreateViewCalls(views, images[..|views|])
      {
        var i := |views|;
        var v := NewHandle();
        Call(CreateImageView(v, images[i]));
        CreateViewCallsSnoc(views, images[..i], v, images[i]);
        assert images[..i + 1] == images[..i] + [images[i]];
        views := views + [v];
      }
      assert images[..|views|] == images;
    }

    /** Two fresh semaphores and a fresh fence created signalled. */
    method CreateSyncSet() returns (acquire: Handle, render: Handle, fence: Handle)
      requires Valid()
      modifies this
      ensures Valid()
      ensures acquire == old(nextHandle) && render == acquire + 1 && fence == acquire + 2
      ensures nextHandle == old(nextHandle) + 3
      ensures log == old(log) + [CreateSemaphore(acquire), CreateSemaphore(render), CreateFence(fence, true)]
      ensures forall h :: FenceAfter(log, h) == (if h == fence then Signalled else old(FenceAfter(log, h)))
    {
      acquire := NewHandle();
      Call(CreateSemaphore(acquire));
      render := NewHandle();
      Call(CreateSemaphore(render));
      fence := NewHandle();
      Call(CreateFence(fence, true));
      SyncSetFences(old(log), acquire, render, fence);
    }

    /**
     * For each of `n` indices two fresh semaphores and a fresh fence created
     * signalled, all handles consecutive and so pairwise distinct.
     */
    method CreateSyncSets(n: nat) returns (acquire: seq<Handle>, render: seq<Handle>, fences: seq<Handle>)
      requires Valid()
      modifies this
      ensures Valid()
      ensures |acquire| == |render| == |fences| == n && nextHandle == old(nextHandle) + 3 * n
      ensures forall k :: 0 <= k < n ==>
        acquire[k] == old(nextHandle) + 3 * k && render[k] == acquire[k] + 1 && fences[k] == acquire[k] + 2
      ensures log == old(log) + SyncCalls(acquire, render, fences)
      ensures forall k :: 0 <= k < n ==> FenceAfter(log, fences[k]) == Signalled
    {
      acquire, render, fences := [], [], [];
      ghost var base := nextHandle;
      while |fences| < n
        invariant Valid()
        invariant |fences| <= n && ConsecutiveSyncSets(acquire, render, fences, base)
        invariant nextHandle == base + 3 * |fences|
        invariant log == old(log) + SyncCalls(acquire, render, fences)
        invariant forall k :: 0 <= k < |fences| ==> FenceAfter(log, fences[k]) == Signalled
      {
        ghost var log0 := log;
        var a, r, f := CreateSyncSet();
        SyncCallsSnoc(acquire, render, fences, a, r, f);
        SyncSetsStep(log0, log, fences, f);
        ConsecutiveSyncSetsSnoc(acquire, render, fences, base, a, r, f);
        acquire, render, fences := acquire + [a], render + [r], fences + [f];
      }
    }

    /** A fresh fence created signalled, then a fresh semaphore. */
    method CreateFenceAndSemaphore() returns (fence: Handle, semaphore: Handle)
      requires Valid()
      modifies this
      ensures Valid()
      ensures old(nextHandle) <= fence < semaphore < nextHandle
      ensures log == old(log) + [CreateFence(fence, true), CreateSemaphore(semaphore)]
      ensures forall g :: FenceAfter(log, g) == (if g == fence then Signalled else old(FenceAfter(log, g)))
      ensures forall g :: SignalPending(log, g) == (if g == semaphore then false else old(SignalPending(log, g)))
      ensures LiveViews(log) == old(LiveViews(log)) && LiveSwapchains(log) == old(LiveSwapchains(log))
    {
      fence := NewHandle();
      Call(CreateFence(fence, true));
      semaphore := NewHandle();
      Call(CreateSemaphore(semaphore));
      forall g {
        FrameSyncStep(old(log), fence, semaphore, g);
      }
    }

    /** One fresh semaphore per entry asked for, each made by a call of its own. */
    method CreateSemaphores(n: nat) returns (sems: seq<Handle>)
      requires Valid()
      modifies this
      ensures Valid()
      ensures |sems| == n && nextHandle == old(nextHandle) + n
      ensures forall k :: 0 <= k < n ==> sems[k] == old(nextHandle) + k
      ensures log == old(log) + SemaphoreCalls(sems)
      ensures LiveViews(log) == old(LiveViews(log)) && LiveSwapchains(log) == old(LiveSwapchains(log))
    {
      sems := [];
      while |sems| < n
        invariant Valid() && |sems| <= n && nextHandle == old(nextHandle) + |sems|
        invariant forall k :: 0 <= k < |sems| ==> sems[k] == old(nextHandle) + k
        invariant log == old(log) + SemaphoreCalls(sems)
        invariant LiveViews(log) == old(LiveViews(log)) && LiveSwapchains(log) == old(LiveSwapchains(log))
      {
        var s := NewHandle();
        Call(CreateSemaphore(s));
        assert SemaphoreCalls(sems + [s]) == SemaphoreCalls(sems) + [CreateSemaphore(s)];
        sems := sems + [s];
      }
    }

    /** As many fresh fences created signalled as asked for: each of them is signalled afterwards. */
    method CreateFences(n: nat) returns (fences: seq<Handle>)
      requires Valid()
      modifies this
      ensures Valid()
      ensures |fences| == n && nextHandle == old(nextHandle) + n
      ensures forall k :: 0 <= k < n ==> fences[k] == old(nextHandle) + k
      ensures log == old(log) + FenceCalls(fences)
      ensures forall k :: 0 <= k < n ==> FenceAfter(log, fences[k]) == Signalled
      ensures LiveViews(log) == old(LiveViews(log)) && LiveSwapchains(log) == old(LiveSwapchains(log))
    {
      fences := [];
      while |fences| < n
        invariant Valid() && |fences| <= n && nextHandle == old(nextHandle) + |fences|
        invariant forall k :: 0 <= k < |fences| ==> fences[k] == old(nextHandle) + k
        invariant log == old(log) + FenceCalls(fences)
        invariant forall k :: 0 <= k < |fences| ==> FenceAfter(log, fences[k]) == Signalled
        invariant LiveViews(log) == old(LiveViews(log)) && LiveSwapchains(log) == old(LiveSwapchains(log))
      {
        var f := NewHandle();
        ghost var log0 := log;
        Call(CreateFence(f, true));
        FenceAfterSnoc(log0, CreateFence(f, true), f);
        forall k | 0 <= k < |fences|
          ensures FenceAfter(log, fences[k]) == Signalled
        {
          FenceAfterSnoc(log0, CreateFence(f, true), fences[k]);
        }
        assert FenceCalls(fences + [f]) == FenceCalls(fences) + [CreateFence(f, true)];
        fences := fences + [f];
      }
    }

    /** Makes each of the calls in turn, none of which creates a view or a swapchain. */
    method CallEach(cs: seq<Call>)
      requires Valid()
      requires forall k :: 0 <= k < |cs| ==> Created(cs[k]).None?
      modifies this`log
      ensures Valid()
      ensures log == old(log) + cs
      ensures (forall k :: 0 <= k < |cs| ==> ResourceNeutral(cs[k])) ==>
        LiveViews(log) == old(LiveViews(log)) && LiveSwapchains(log) == old(LiveSwapchains(log))
    {
      var i := 0;
      while i < |cs|
        invariant 0 <= i <= |cs| && Valid() && log == old(log) + cs[..i]
        invariant (forall k :: 0 <= k < |cs| ==> ResourceNeutral(cs[k])) ==>
          LiveViews(log) == old(LiveViews(log)) && LiveSwapchains(log) == old(LiveSwapchains(log))
      {
        Call(cs[i]);
        assert cs[..i + 1] == cs[..i] + [cs[i]];
        i := i + 1;
      }
      assert cs[..|cs|] == cs;
    }

    /** Makes a call on the device. */
    method Call(c: Call)
      requires Valid()
      requires Created(c).Some? ==> Created(c).value < nextHandle
      modifies this`log
      ensures Valid()
      ensures log == old(log) + [c]
      ensures ResourceNeutral(c) ==> LiveViews(log) == old(LiveViews(log)) && LiveSwapchains(log) == old(LiveSwapchains(log))
    {
      ResourcesAfterSnoc(log, c);
      log := log + [c];
    }
  }
}
