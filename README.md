# Vulkan renderers: a Dafny model

The repository draws a rotating mesh with Vulkan in two ways:

- `Vulkan/Vulkan.cpp` is a single translation unit of global variables and free functions. It builds a swapchain, image views, per-frame depth resources, command buffers and synchronisation objects. It then runs a loop that draws a frame and rebuilds the swapchain when the surface changes.
- `Vulkan/Window.cpp` with `Vulkan/Window.h` does the same inside a `Window` class, using dynamic rendering, a memory allocator and two frames in flight. It also has keyboard selection of one of three objects.

This project models the frame loop and swapchain management of both renderers, and the choices and searches they are built on.

## How the model is built

The device is modelled as a log of calls. `DeviceModel.Device` holds:

- the ordered list of calls made on it;
- a counter of fresh handles, since handles are never reused.

Everything the renderers care about is a function of that log:

- the state of each fence: unsignalled, signalled, or awaiting a submitted signal;
- whether a semaphore has a signal pending;
- which image views and swapchains exist.

The GPU is taken to finish submitted work before anybody waits for it. So a wait on a fence that some submission will signal returns. A wait that nothing can satisfy is reported as a hang instead.

Driver and window-system answers are parameters, never computed:

- the results of Vulkan calls;
- surface capabilities, formats, present modes and queue families;
- format features and memory types;
- the image count the driver gives a swapchain;
- polled events.

A step ends with an `Outcome`. It completes, throws (`std::runtime_error` in `Vulkan.cpp`), exits (`exit(result)` in `chk`), or hangs. It can also index a container out of range, which is undefined behaviour in C++ and is modelled as its own outcome.

`Vulkan.cpp`'s globals become the fields of `GlobalRenderer.Renderer`, and `Window`'s members become the fields of `WindowRenderer.Window`. Each function that changes them is a method with a `modifies` clause. Loops stay loops. The pure choosers and searches are functions, or methods with loop invariants where the source loops.

Recorded commands are a list of abstract `Commands.Command`s. Image layouts are tracked over that list. `VK_IMAGE_LAYOUT_ATTACHMENT_OPTIMAL` is resolved per aspect: it is `COLOR_ATTACHMENT_OPTIMAL` for a colour barrier and `DEPTH_ATTACHMENT_OPTIMAL` for a depth one. So `Window.cpp`'s present barrier is consistent: where it names `COLOR_ATTACHMENT_OPTIMAL` as the old layout (874), the image was moved to `ATTACHMENT_OPTIMAL`.

Modules:

- `VkTypes`: `uint32_t`, `VkResult` with its signed codes, formats, layouts and extents.
- `SeqSearch`: first and last match in a sequence.
- `SwapchainSelection`: `createSwapchain`'s choices.
- `CapabilitySearch`: device, queue-family, depth-format and memory-type searches.
- `Commands`: command lists and layout tracking.
- `DeviceModel`: the device as a call log.
- `GlobalRenderer`: `Vulkan.cpp`.
- `WindowRenderer`: `Window.cpp` and `Window.h`.

## Model

| member | source | states |
|---|---|---|
| VkTypes.WrapU32 | Vulkan/Vulkan.cpp:578 | conversion to `uint32_t` agrees with its argument modulo 2^32 and is the identity on values already in range |
| SeqSearch.FirstIndex | Vulkan/Window.cpp:98-103 | the index found holds `p`, and no earlier element does; None exactly when no element holds `p` |
| SeqSearch.LastIndex | Vulkan/Vulkan.cpp:381-397 | the index found holds `p`, and no later element does; None exactly when no element holds `p` |
| SeqSearch.LastIndexSnoc | Vulkan/Vulkan.cpp:381-397 | appending one element moves the last match to it exactly when it matches, and otherwise leaves it |
| SwapchainSelection.ChooseSwapSurfaceFormat | Vulkan/Vulkan.cpp:515-527 | B8G8R8A8_SRGB with the sRGB non-linear colour space when offered; otherwise the first format offered |
| SwapchainSelection.ChooseSwapPresentMode | Vulkan/Vulkan.cpp:529-539 | MAILBOX when offered, otherwise FIFO, whether or not FIFO is listed |
| SwapchainSelection.Clamp | Vulkan/Vulkan.cpp:559-563 | `std::max(lo, std::min(hi, x))`: in `[lo, hi]` when `lo <= hi`, `x` when it already lies there, `lo` below and `hi` above, and `lo` when the bounds are crossed |
| SwapchainSelection.ChooseSwapExtent | Vulkan/Vulkan.cpp:541-566 | the current extent when the surface fixes one; otherwise the framebuffer size clamped between the minimum and maximum extents, per dimension |
| SwapchainSelection.ImageCount | Vulkan/Vulkan.cpp:578-582 | one more than the minimum with `uint32_t` wrap-around, capped by the maximum only when the maximum is non-zero |
| SwapchainSelection.ImageCountWithinCapabilities | Vulkan/Vulkan.cpp:578-582 | for capabilities the Vulkan specification permits, the count is at least the minimum and at most a non-zero maximum, and it is at least two exactly when the maximum is not 1 |
| SwapchainSelection.ChooseSharing | Vulkan/Vulkan.cpp:596-608 | concurrent sharing naming both families exactly when they differ; exclusive sharing with no family list otherwise |
| SwapchainSelection.SwapchainCreateInfoFor | Vulkan/Vulkan.cpp:584-614 | the create info names the swapchain being replaced; takes the preferred sRGB format when offered, else the first one offered; takes MAILBOX exactly when offered, else FIFO; asks for one image more than the minimum, capped by a non-zero maximum; shares concurrently between both families exactly when they differ, else exclusively with no list; and uses the surface's fixed extent, or the wrapped framebuffer size clamped per dimension when the surface leaves it free |
| CapabilitySearch.FindDepthFormat | Vulkan/Vulkan.cpp:662-676 | the first of D32_SFLOAT, D32_SFLOAT_S8_UINT, D24_UNORM_S8_UINT whose optimal-tiling features allow depth-stencil attachment; an error when none does |
| CapabilitySearch.FindMemoryTypeFrom | Vulkan/Vulkan.cpp:1001-1013 | the least index from `i` on that the filter allows and whose flags include the requested ones; an error when none exists |
| CapabilitySearch.FindMemoryType | Vulkan/Vulkan.cpp:1001-1013 | the least suitable memory-type index; it throws "failed to find suitable memory type!" exactly when no type is suitable |
| CapabilitySearch.ScanLength | Vulkan/Vulkan.cpp:381-397 | the loop never looks past the last family |
| CapabilitySearch.CompleteAfterPrefix | Vulkan/Vulkan.cpp:381-397 | a scanned prefix holds both kinds exactly when it reaches the scan length |
| CapabilitySearch.ScanStep | Vulkan/Vulkan.cpp:381-397 | scanning one more family moves each index to it exactly when it matches |
| CapabilitySearch.FindQueueFamilies | Vulkan/Vulkan.cpp:371-400 | the loop returns the last graphics family and the last presenting family among those scanned; it stops right after both are known |
| CapabilitySearch.ScanKeepsLaterGraphicsFamily | Vulkan/Vulkan.cpp:381-397 | with two graphics families of which only the second presents, the scan reports the second as the graphics family |
| CapabilitySearch.Unmet | Vulkan/Vulkan.cpp:336-342 | the required names left are exactly the required ones not among the available ones |
| CapabilitySearch.CheckDeviceExtensionSupport | Vulkan/Vulkan.cpp:327-345 | true exactly when every required extension is among the available ones |
| CapabilitySearch.IsDeviceSuitable | Vulkan/Vulkan.cpp:402-415 | suitable exactly when both queue families exist, the swapchain extension is available, and the surface has at least one format and one present mode |
| Commands.AspectLayout | Vulkan/Window.cpp:780-818 | ATTACHMENT_OPTIMAL names COLOR_ATTACHMENT_OPTIMAL for the colour aspect and DEPTH_ATTACHMENT_OPTIMAL for the depth aspect; every other layout names itself |
| Commands.ReplayAppend | Vulkan/Vulkan.cpp:1100-1245 | replaying two lists one after the other replays the second from where the first left the layouts |
| Commands.ReplayNeutral | Vulkan/Vulkan.cpp:1166-1215 | commands other than barriers and rendering begins leave the tracked layouts as they are |
| DeviceModel.FrameCallsEffects | Vulkan/Vulkan.cpp:1280-1332 | a frame's calls leave its own fence awaiting the submission and every other fence as it was; they create and destroy no view or swapchain |
| DeviceModel.FrameKeepsFencesLive | Vulkan/Vulkan.cpp:1280-1332 | after a frame, every fence that had a signal coming still has one, so no later wait blocks forever |
| DeviceModel.FencesStayLive | Vulkan/Vulkan.cpp:1374-1396 | calls that neither reset nor create an unsignalled fence keep every fence with a signal coming so |
| DeviceModel.LiveViewsAfterCreate | Vulkan/Vulkan.cpp:634-659 | creating one view per image adds exactly those views to the views that exist |
| DeviceModel.LiveViewsAfterDestroy | Vulkan/Vulkan.cpp:1382-1384 | destroying a list of views removes exactly those views |
| DeviceModel.Device.CreateViews | Vulkan/Vulkan.cpp:634-659 | one view per image in order, with consecutive fresh handles, each made by its own view-creation call on that image |
| DeviceModel.Device.CreateSyncSets | Vulkan/Vulkan.cpp:1265-1273 | per index two fresh semaphores and a fence created signalled, in the loop's order; all handles are consecutive from the first unused one, so fresh and pairwise distinct, and every new fence is signalled |
| DeviceModel.Device.CreateSemaphores | Vulkan/Window.cpp:346-349 | one semaphore per entry with consecutive fresh handles, each made by its own call; no view or swapchain comes or goes |
| DeviceModel.Device.CreateFences | Vulkan/Vulkan.cpp:1252-1276 | as many fresh fences as asked, each created signalled and signalled afterwards |
| DeviceModel.Device.CreateFenceAndSemaphore | Vulkan/Window.cpp:341-344 | a fresh fence created signalled, then a fresh semaphore, in that order |
| DeviceModel.Device.CallEach | Vulkan/Vulkan.cpp:1388-1393 | the calls are made in turn, in order; when none of them destroys a view or a swapchain, the views and swapchains that exist are unchanged |
| GlobalRenderer.FrameCommandsConsistent | Vulkan/Vulkan.cpp:1100-1245 | from any layouts, `recordCommandBuffer`'s commands are consistent. Each attachment is in its declared layout, and the colour image ends in PRESENT_SRC_KHR and the depth image in DEPTH_ATTACHMENT_OPTIMAL |
| GlobalRenderer.FrameCommandsWellScoped | Vulkan/Vulkan.cpp:1166-1215 | the draw lies inside the list's one rendering scope, and no transition happens inside it |
| GlobalRenderer.DepthCallsKeepFences | Vulkan/Vulkan.cpp:678-727 | creating depth resources resets no fence and creates none unsignalled |
| GlobalRenderer.DepthCallsViews | Vulkan/Vulkan.cpp:678-727 | creating depth resources brings exactly the depth views into existence, and no swapchain |
| GlobalRenderer.DepthDestroyViews | Vulkan/Vulkan.cpp:1388-1393 | the rebuild's destroy loop ends exactly the depth views, and no swapchain |
| GlobalRenderer.DepthDestroyQuiet | Vulkan/Vulkan.cpp:1388-1393 | the rebuild's destroy loop creates nothing and resets no fence |
| GlobalRenderer.RebuiltViews | Vulkan/Vulkan.cpp:1379-1395 | once the old colour and depth views are replaced by fresh ones, the views that exist are exactly the new ones |
| GlobalRenderer.FrameOutcome | Vulkan/Vulkan.cpp:1278-1342 | a failing acquire exits with its code. Otherwise a failed begin, end, submit or present throws, and the frame completes exactly when all succeed or present is suboptimal or out of date |
| GlobalRenderer.NextFrame | Vulkan/Vulkan.cpp:1341 | the next frame index is below IMAGES_IN_FLIGHT whatever the current one |
| GlobalRenderer.NextFrameCycles | Vulkan/Vulkan.cpp:1341 | the frame index alternates: it changes each frame and returns after two |
| GlobalRenderer.SwapchainQueueFamilies | Vulkan/Vulkan.cpp:596-597 | both indices are known exactly when the families include a graphics family and a presenting one, and each index found has its kind |
| GlobalRenderer.Renderer.constructor | Vulkan/Vulkan.cpp:82-114 | the globals before `main`: null handles, empty vectors, indices 0, no resize pending, the default window size |
| GlobalRenderer.Renderer.FramebufferResizeCallback | Vulkan/Vulkan.cpp:116-120 | records the new size and asks for a new swapchain |
| GlobalRenderer.Renderer.InstallSwapchain | Vulkan/Vulkan.cpp:616-626 | the new swapchain becomes current with fresh images; it is the only swapchain added, and no view comes or goes |
| GlobalRenderer.Renderer.CreateSwapchain | Vulkan/Vulkan.cpp:568-629 | reading the first format of an empty list is out of range. It throws exactly when a queue family is missing or creation fails; otherwise the swapchain is built from the chosen create info and added |
| GlobalRenderer.Renderer.CreateImageViews | Vulkan/Vulkan.cpp:631-660 | one fresh colour view per swapchain image, in order; the views that exist grow by exactly those |
| GlobalRenderer.Renderer.CreateDepthResource | Vulkan/Vulkan.cpp:686-725 | one frame's depth image. It throws after creating the image when no memory type was found; otherwise the memory, binding and view follow |
| GlobalRenderer.Renderer.CreateDepthResourcesLoop | Vulkan/Vulkan.cpp:684-726 | each frame in flight gets a depth image, memory and view in turn; the loop stops at the first throw, and the depth views are fresh |
| GlobalRenderer.Renderer.CreateDepthResources | Vulkan/Vulkan.cpp:678-727 | it completes exactly when a depth format and a device-local memory type exist. Then it adds exactly the depth views and keeps every live fence live |
| GlobalRenderer.Renderer.CreateCommandBuffers | Vulkan/Vulkan.cpp:1076-1088 | IMAGES_IN_FLIGHT primary buffers; it throws exactly when allocation fails |
| GlobalRenderer.Renderer.CreateSyncObjects | Vulkan/Vulkan.cpp:1252-1276 | as written: semaphores and fences sized by the swapchain's image count, every fence signalled |
| GlobalRenderer.Renderer.CreateFrameSyncObjects | Vulkan/Vulkan.cpp:1252-1276 | corrected: acquire semaphores and fences per frame in flight, render-finished semaphores per image, every fence signalled |
| GlobalRenderer.Renderer.CreateSwapchainAndViews | Vulkan/Vulkan.cpp:137-152 | the swapchain and one view per image, completing exactly when the swapchain builds |
| GlobalRenderer.Renderer.BuildSwapchainResources | Vulkan/Vulkan.cpp:137-152 | swapchain, views, depth resources and command buffers; it completes exactly when each of them does, and the views that exist are exactly those held |
| GlobalRenderer.Renderer.InitVulkan | Vulkan/Vulkan.cpp:137-152 | completes exactly when every step does. Then every view and swapchain is accounted for and every fence is live, and the frame-indexed objects are large enough exactly when the swapchain has at least IMAGES_IN_FLIGHT images |
| GlobalRenderer.Renderer.InitVulkanFixed | Vulkan/Vulkan.cpp:137-152 | the same with corrected synchronisation objects: whenever it completes, every container drawFrame indexes is large enough |
| GlobalRenderer.Renderer.WaitForFrameFence | Vulkan/Vulkan.cpp:1280-1281 | indexing the fence vector out of range, a hang exactly when the frame's fence has no signal coming, otherwise the wait and the reset |
| GlobalRenderer.Renderer.AcquireImage | Vulkan/Vulkan.cpp:1284-1300 | an acquire error exits with its code, setting the rebuild flag when out of date; otherwise the image index is the one handed out |
| GlobalRenderer.Renderer.RecordCommandBuffer | Vulkan/Vulkan.cpp:1090-1250 | the first failing step decides among out of range, begin failure, view out of range and end failure. A completed recording is consistent and well scoped |
| GlobalRenderer.Renderer.SubmitAndPresent | Vulkan/Vulkan.cpp:1304-1341 | out of range on the render-finished vector, a failed submit or present, or completion. On completion the frame index advances, and the flag is set by an out-of-date or suboptimal present |
| GlobalRenderer.Renderer.RenderFrame | Vulkan/Vulkan.cpp:1302-1341 | record, submit and present end as the first failing step says; a completed frame leaves its fence awaiting the submission |
| GlobalRenderer.Renderer.AcquireAndRender | Vulkan/Vulkan.cpp:1284-1341 | with large-enough containers it ends as `FrameOutcome` says; a completed frame makes exactly the frame's calls and keeps every live fence live |
| GlobalRenderer.Renderer.DrawFrame | Vulkan/Vulkan.cpp:1278-1342 | never hangs when fences are live. With large-enough containers it ends as `FrameOutcome`; a completed frame leaves every fence live and no view or swapchain created or destroyed |
| GlobalRenderer.Renderer.ReplaceSwapchain | Vulkan/Vulkan.cpp:1376-1381 | the flag is cleared and the device idled. It completes exactly when the new swapchain builds; then the old one is destroyed and the new one is the only swapchain |
| GlobalRenderer.Renderer.RenewImageViews | Vulkan/Vulkan.cpp:1382-1386 | every old colour view destroyed, then one fresh view per new image |
| GlobalRenderer.Renderer.RenewDepthResources | Vulkan/Vulkan.cpp:1388-1395 | each frame's depth view, image and memory destroyed and created anew, completing exactly when a depth format and memory type exist |
| GlobalRenderer.Renderer.RenewSwapchainResources | Vulkan/Vulkan.cpp:1382-1395 | new colour views and depth resources; the views that exist are exactly the new ones when they were exactly the old ones |
| GlobalRenderer.Renderer.MainLoopRebuild | Vulkan/Vulkan.cpp:1374-1396 | clears the flag, completes exactly when swapchain and depth rebuild, and keeps views, swapchains and live fences accounted for. The semaphore and fence vectors keep their old sizes |
| GlobalRenderer.Renderer.RecreateRenderSemaphores | Vulkan/Vulkan.cpp:1255 | corrected: every render-finished semaphore destroyed and one created per swapchain image |
| GlobalRenderer.Renderer.MainLoopRebuildFixed | Vulkan/Vulkan.cpp:1374-1396 | corrected: the same rebuild, after which every container drawFrame indexes is still large enough |
| GlobalRenderer.NewRenderer | Vulkan/Vulkan.cpp:137-152 | `initVulkan` on a fresh device completes, and the renderer is ready for its first frame, with containers sized as written or as corrected |
| GlobalRenderer.FirstFrame | Vulkan/Vulkan.cpp:1278-1342 | the first frame after `initVulkan` completes, and asks for a rebuild exactly when present asks for one |
| GlobalRenderer.SingleImageSecondFrame | Vulkan/Vulkan.cpp:1254-1256 | with a one-image swapchain the first frame completes and the second indexes the fence vector out of range |
| GlobalRenderer.SingleImageSecondFrameFixed | Vulkan/Vulkan.cpp:1254-1256 | with frame-indexed objects sized by the frames in flight both frames complete |
| GlobalRenderer.GrownSwapchainFrame | Vulkan/Vulkan.cpp:1374-1396 | after a rebuild from two images to three, a frame acquiring image 2 indexes the render-finished vector out of range |
| GlobalRenderer.GrownSwapchainFrameFixed | Vulkan/Vulkan.cpp:1374-1396 | with the semaphores re-created by the rebuild the same frames complete |
| WindowRenderer.Chk | Vulkan/Window.cpp:1007-1014 | completes exactly on VK_SUCCESS, otherwise exits with the result's code |
| WindowRenderer.SwapchainCheck | Vulkan/Window.cpp:1016-1027 | completes exactly on a non-negative result or on out of date, otherwise exits with the code; it accepts everything `Chk` accepts |
| WindowRenderer.SelectQueueFamily | Vulkan/Window.cpp:96-103 | the first family with the graphics bit, or 0 when there is none |
| WindowRenderer.SelectDepthFormat | Vulkan/Window.cpp:227-235 | D32_SFLOAT_S8_UINT when usable as depth-stencil attachment, else D24_UNORM_S8_UINT when usable, else UNDEFINED |
| WindowRenderer.NextSelected | Vulkan/Window.cpp:945-947 | the next object index modulo three, and always in range |
| WindowRenderer.PrevSelected | Vulkan/Window.cpp:948-950 | the previous object index modulo three |
| WindowRenderer.SelectionKeysInverse | Vulkan/Window.cpp:945-950 | `+` and `-` undo each other on every object index |
| WindowRenderer.NextSelectedCycles | Vulkan/Window.cpp:945-947 | `n` presses of `+` move the selection `n` places modulo three |
| WindowRenderer.SelectedAfterKeys | Vulkan/Window.cpp:945-950 | one poll: both keys or neither leave the selection, one key moves it one place forward or back |
| WindowRenderer.NextFrameIndex | Vulkan/Window.cpp:905 | the successor modulo maxFramesInFlight, always in range |
| WindowRenderer.UpdateCommandsConsistent | Vulkan/Window.cpp:771-888 | from any layouts, `Update`'s commands are consistent and leave the colour image in PRESENT_SRC_KHR and the depth image in DEPTH_ATTACHMENT_OPTIMAL |
| WindowRenderer.UpdateCommandsReplayRendering | Vulkan/Window.cpp:805-886 | from the start of rendering, with both images in their attachment layouts, the rest is consistent |
| WindowRenderer.UpdateCommandsWellScoped | Vulkan/Window.cpp:771-888 | the draw lies inside the one rendering scope, and no transition happens inside it |
| WindowRenderer.UpdateCommandsScopeEnd | Vulkan/Window.cpp:834-865 | from the bindings on, the list stays inside rendering until it ends it |
| WindowRenderer.FrameSyncCallsQuiet | Vulkan/Window.cpp:341-344 | the frame-sync loop creates only fences and semaphores: no view, swapchain, signal or unsignalled fence |
| WindowRenderer.FixedFrameKeepsFencesLive | Vulkan/Window.cpp:748-916 | corrected frame: every fence with a signal coming keeps it, the frame's own fence awaits the submission, and no view or swapchain comes or goes |
| WindowRenderer.FrameAssembled | Vulkan/Window.cpp:748-916 | a frame as written makes the frame's calls: its fence awaits the submission and every other fence stays live |
| WindowRenderer.FixedFrameAssembled | Vulkan/Window.cpp:748-916 | the same for the corrected frame, whose fence is reset after the acquire |
| WindowRenderer.QuietCalls | Vulkan/Window.cpp:952-993 | calls that neither unsignal a fence nor signal a semaphore keep live fences live and idle semaphores idle |
| WindowRenderer.RebuiltWindowViews | Vulkan/Window.cpp:959-992 | when old colour and depth views are replaced by fresh ones, the views that exist are exactly the new ones |
| WindowRenderer.InitOutcome | Vulkan/Window.cpp:21-742 | `Init` ends with exit -1 when the chosen family cannot present, otherwise at the first failing `chk` in source order (surface capabilities, swapchain creation, depth image, command buffers), and completes exactly when none fails |
| WindowRenderer.FrameOutcomeInOrder | Vulkan/Window.cpp:748-916 | with a live fence, an acquire that is not out of date, and containers as long as the image list, a frame ends as its first failing check says |
| WindowRenderer.OutOfDateFrameHangs | Vulkan/Window.cpp:751 | an out-of-date acquire leaves its semaphore unsignalled, yet the frame is recorded and submitted waiting on it, so it hangs |
| WindowRenderer.FewerRenderSemaphoresOutOfRange | Vulkan/Window.cpp:900 | an acquired index past the render-finished semaphores indexes that vector out of range |
| WindowRenderer.FixedFrameOutcomeInOrder | Vulkan/Window.cpp:748-916 | corrected frame: under the same conditions it ends as its first failing check says for every acquire result, and an out-of-date acquire completes with nothing submitted |
| WindowRenderer.WaitResetSignals | Vulkan/Window.cpp:748-749 | waiting for and resetting a fence leave all pending signals as they were |
| WindowRenderer.WaitAcquireQuiet | Vulkan/Window.cpp:748-751 | waiting and acquiring create and destroy nothing and keep every live fence live |
| WindowRenderer.Window.constructor | Vulkan/Window.h:23-131 | the members as declared: null handles, empty vectors, indices 0, object 1 selected, `_imageCount` 0, depth format UNDEFINED |
| WindowRenderer.Window.ChkSwapchain | Vulkan/Window.cpp:1016-1027 | ends as `SwapchainCheck` says and sets the rebuild flag exactly on out of date |
| WindowRenderer.Window.FramebufferResizeCallback | Vulkan/Window.cpp:1033-1038 | records the new size and asks for a new swapchain |
| WindowRenderer.Window.CreateWindowSwapchain | Vulkan/Window.cpp:197-220 | the create info uses the minimum image count and current extent. It exits when creation fails; otherwise one swapchain with the driver's images is added |
| WindowRenderer.Window.MakeImageViews | Vulkan/Window.cpp:222-225 | one fresh view per swapchain image; the views that exist grow by exactly those |
| WindowRenderer.Window.AllocateDepthImage | Vulkan/Window.cpp:237-255 | a fresh depth image of the given extent and format, with its allocation |
| WindowRenderer.Window.CreateDepthImage | Vulkan/Window.cpp:237-265 | exits when allocation fails; otherwise the depth image and its fresh view, which is the one view added |
| WindowRenderer.Window.InitShaderData | Vulkan/Window.cpp:311-329 | one buffer per frame with its own device address |
| WindowRenderer.Window.InitFrameSyncObjects | Vulkan/Window.cpp:342-343 | frame `i`'s fence created signalled, then its semaphore; other frames untouched |
| WindowRenderer.Window.InitFrameSync | Vulkan/Window.cpp:341-344 | every frame's fence is signalled and every acquire semaphore idle |
| WindowRenderer.Window.InitCommandBuffers | Vulkan/Window.cpp:360-365 | one buffer per frame, or exit with the allocation result |
| WindowRenderer.Window.InitRenderSemaphores | Vulkan/Window.cpp:346-349 | one render-finished semaphore per swapchain image |
| WindowRenderer.Window.InitSyncObjects | Vulkan/Window.cpp:336-349 | fences live, acquire semaphores idle, and render-finished semaphores as many as the images |
| WindowRenderer.Window.InitSwapchain | Vulkan/Window.cpp:96-225 | exit -1 when the family cannot present; otherwise the window size, then an exit when the surface-capability query fails, then the swapchain and its views, ending as the creation result says |
| WindowRenderer.Window.BuildWindowSwapchain | Vulkan/Window.cpp:197-225 | the swapchain and one view per image: exactly that swapchain and those views are added |
| WindowRenderer.Window.InitSurfaceResources | Vulkan/Window.cpp:96-265 | the swapchain part, then the depth part, ending at the first failure; the views added are the colour views and the depth view |
| WindowRenderer.Window.InitDepth | Vulkan/Window.cpp:227-265 | the depth format from the format list and a depth image of extent `(x, y)` with its view |
| WindowRenderer.Window.InitFrameResources | Vulkan/Window.cpp:277-365 | the index count, buffers and synchronisation objects, then the command buffers: fences live, semaphores idle |
| WindowRenderer.Window.Init | Vulkan/Window.cpp:21-742 | ends as `InitOutcome`. On completion exactly the swapchain, its views and the depth view exist, fences are live and acquire semaphores idle, and the member `_imageCount` is left as it was |
| WindowRenderer.Window.InitFixed | Vulkan/Window.cpp:216-225 | corrected: the same, with `_imageCount` counting the views |
| WindowRenderer.Window.WaitForFrameFence | Vulkan/Window.cpp:748 | hangs exactly when the frame's fence has no signal coming; otherwise the wait, checked |
| WindowRenderer.Window.ResetFrameFence | Vulkan/Window.cpp:749 | the reset, checked |
| WindowRenderer.Window.AcquireImage | Vulkan/Window.cpp:751 | the acquire is made in every case; only a successful one writes the image index or signals the semaphore; it ends as `SwapchainCheck` |
| WindowRenderer.Window.RecordCommands | Vulkan/Window.cpp:760-888 | reset and begin checked in order, then `Update`'s commands for the acquired image |
| WindowRenderer.Window.SubmitAndPresent | Vulkan/Window.cpp:890-916 | out of range on the render semaphores, a hang when the acquire semaphore has no signal, a failed submit, or the frame advances and present is checked |
| WindowRenderer.Window.RenderFrame | Vulkan/Window.cpp:760-916 | ends as `RenderOutcome`; completion leaves the fence awaiting the submission |
| WindowRenderer.Window.WaitAndResetFence | Vulkan/Window.cpp:748-749 | a hang when the fence has no signal coming, otherwise the checked wait and reset |
| WindowRenderer.Window.AcquireAndRender | Vulkan/Window.cpp:751-916 | the acquire's check decides first; otherwise the frame goes on even when nothing was acquired |
| WindowRenderer.Window.FrameTick | Vulkan/Window.cpp:748-916 | the frame as written ends as `FrameOutcome` on every path. On completion its fence awaits the submission and every live fence stays live |
| WindowRenderer.Window.WaitAndAcquire | Vulkan/Window.cpp:748-751 | corrected: wait, then acquire before the reset |
| WindowRenderer.Window.ResetAndRender | Vulkan/Window.cpp:749-916 | corrected: reset once an image was acquired, then record, submit and present |
| WindowRenderer.Window.FixedFrameTick | Vulkan/Window.cpp:748-916 | corrected frame: ends as `FixedFrameOutcome`. An out-of-date acquire ends it with the fence still signalled, and a completed frame keeps fences live |
| WindowRenderer.Window.HandleEvents | Vulkan/Window.cpp:923-950 | a resize sets the size and the flag, and the keys move the selection as `SelectedAfterKeys` |
| WindowRenderer.Window.RequerySurface | Vulkan/Window.cpp:952-955 | the flag cleared, the device idled, the capability query checked |
| WindowRenderer.Window.CreateReplacement | Vulkan/Window.cpp:956-958 | creation names the current swapchain as old and the window size as extent; completion adds exactly the new swapchain |
| WindowRenderer.Window.ReplaceSwapchain | Vulkan/Window.cpp:952-958 | caps, then creation, checked in order |
| WindowRenderer.Window.DestroyOldViews | Vulkan/Window.cpp:959-961 | only the first `_imageCount` views are destroyed; with fewer views held the loop indexes out of range |
| WindowRenderer.Window.FetchSwapchainImages | Vulkan/Window.cpp:962-965 | `_imageCount` and the image list become the new swapchain's |
| WindowRenderer.Window.RenewImageViews | Vulkan/Window.cpp:959-975 | the first `_imageCount` views destroyed, then one fresh view per new image |
| WindowRenderer.Window.RetireOldObjects | Vulkan/Window.cpp:976-978 | the old swapchain, the depth image and the depth view destroyed, in that order |
| WindowRenderer.Window.Rebuild | Vulkan/Window.cpp:952-993 | ends as `RebuildOutcome`. When `_imageCount` counts the views, old views and swapchains are replaced by exactly the new ones |
| WindowRenderer.Window.RebuildSwapchainAndViews | Vulkan/Window.cpp:952-975 | the new swapchain and renewed views, stopping at the first failure |
| WindowRenderer.Window.RebuildDepth | Vulkan/Window.cpp:976-992 | the old objects retired and a depth image of the window's size with its view made |
| WindowRenderer.Window.RecreateRenderSemaphores | Vulkan/Window.cpp:346-349 | corrected: every render-finished semaphore destroyed and one made per new image |
| WindowRenderer.Window.RebuildFixed | Vulkan/Window.cpp:952-993 | corrected rebuild: the same outcome, and the render-finished semaphores match the new image count |
| WindowRenderer.Window.PollAndRebuild | Vulkan/Window.cpp:923-993 | events handled, then a rebuild exactly when the flag was set before or by a resize |
| WindowRenderer.Window.PollAndRebuildFixed | Vulkan/Window.cpp:923-993 | the same with the corrected rebuild |
| WindowRenderer.Window.Update | Vulkan/Window.cpp:746-994 | ends as `UpdateOutcome` of the frame, the events and the rebuild. A complete call advances the frame index, applies the keys and keeps fences live; a rebuild replaces only the first `_imageCount` old views |
| WindowRenderer.Window.UpdateFixed | Vulkan/Window.cpp:746-994 | the corrected `Update`: corrected frame and rebuild, same shape of outcome |
| WindowRenderer.NewWindow | Vulkan/Window.cpp:21-742 | `Init` on a fresh device completes, and the window is ready for its first frame |
| WindowRenderer.NewFixedWindow | Vulkan/Window.cpp:216-225 | the same after the corrected `Init`, which completes too |
| WindowRenderer.OutOfDateAcquireUpdate | Vulkan/Window.cpp:751 | an out-of-date first acquire makes `Update` hang on the never-signalled semaphore |
| WindowRenderer.OutOfDateAcquireUpdateFixed | Vulkan/Window.cpp:751 | corrected: the frame ends at the acquire, the rebuild follows, and the next frame completes |
| WindowRenderer.GrownSwapchainUpdate | Vulkan/Window.cpp:952-993 | after a resize growing the swapchain from two to three images, a frame on image 2 indexes the render semaphores out of range |
| WindowRenderer.GrownSwapchainUpdateFixed | Vulkan/Window.cpp:952-993 | with the corrected rebuild both frames complete |
| WindowRenderer.FirstRebuildLeaksViews | Vulkan/Window.cpp:216 | the first rebuild destroys no colour view: every view `Init` made still exists and the window no longer accounts for its views |
| WindowRenderer.FirstRebuildAccountsViews | Vulkan/Window.cpp:216 | after the corrected `Init` the first rebuild leaves exactly the window's views |

## Left out

- Instance, debug messenger, surface, physical and logical device creation (Vulkan.cpp 154-513 and the start of Window.cpp `Init`): the device is given. `pickPhysicalDevice` is reduced to `IsDeviceSuitable`.
- Pipelines, shader modules, Slang compilation, vertex and index buffers' contents, textures, samplers, descriptors, the command pool, the mesh loading and `readFile`: they do not affect the frame loop's bookkeeping. The mesh's index count is a parameter.
- Allocator internals: `vmaCreateImage` is one call that makes an image and its allocation.
- Cleanup, `Window::Destroy` and `ShouldClose`: teardown is not modelled.
- GLFW, time, floating point, matrices, the camera, mouse rotation and scrolling: only the resize callback, the window size and the two selection keys are modelled.
- Window.width and Window.height are `u32` in the model, not `float`. The conversions at Window.cpp 957 and 979 are taken exact.
- Static members (`_updateSwapchain`, `width`, `height`) become fields of the one `Window`, since there is only one window.
- `shaderData` is recorded as a push of the frame buffer's address; its contents are not copied.
- `findMemoryType` is evaluated once for both depth images in `createDepthResources`, because both images ask with the same requirements.
- The view and synchronisation creation loops run inside `Device` methods, so that each renderer method reasons about one call list.
- Failed creation calls append nothing to the log: a failed call creates no object.
- Some creation calls are taken to succeed. Their checks are not modelled. The calls below can fail in principle, but none of the findings depends on such a failure.
  - In `Vulkan.cpp`: the throws on image-view creation (654-656) and on semaphore or fence creation (1267-1272).
  - In `Window.cpp`: the `chk` on `vkGetSwapchainImagesKHR`, `vkCreateImageView`, `vmaCreateBuffer`, `vmaMapMemory`, `vkCreateFence` and `vkCreateSemaphore`.
  - The other results (swapchain, depth image, command buffers, the surface-capability query in `Window.cpp` `Init` at 197 and in the rebuild at 955, submit, present, acquire, fence wait and reset) are parameters, and their failures are modelled.
- A wait that can never return is reported as `Hang` at that point rather than blocking.
- One resize at most is reported per poll.
- Stencil layouts, pipeline stages and access masks are not tracked in the layout model.
- The value `_indexCount` passes to `vkCmdDrawIndexed` is not truncated to 32 bits.
- Window.CreateDepthImage: its contract says nothing about fences or semaphores; its callers state those.

## Findings

| source | as written | input that shows it | evidently intended | confidence | as-written member | corrected member |
|---|---|---|---|---|---|---|
| Vulkan/Vulkan.cpp:1254-1256 | `createSyncObjects` sizes the image-available semaphores and in-flight fences by the swapchain image count, but `drawFrame` indexes them by `frameIndex`, which alternates 0 and 1 | a swapchain the driver makes with one image, as on a surface whose maxImageCount is 1: the second frame reads `inFlightFences[1]` out of range | frame-indexed objects sized by IMAGES_IN_FLIGHT, render-finished semaphores by image count | not executed | GlobalRenderer.SingleImageSecondFrame | GlobalRenderer.SingleImageSecondFrameFixed |
| Vulkan/Vulkan.cpp:1374-1396 | the rebuild in `mainLoop` never resizes `renderFinishedSemaphores` | a two-image swapchain rebuilt with three images, then a frame acquiring image 2 | the semaphores re-created per image of the new swapchain | not executed | GlobalRenderer.GrownSwapchainFrame | GlobalRenderer.GrownSwapchainFrameFixed |
| Vulkan/Window.cpp:952-993 | the rebuild in `Update` never resizes `_renderSemaphores`, which is indexed by image at 900 and 911 | a resize that grows the swapchain from two to three images, then a frame acquiring image 2 | the semaphores re-created per image of the new swapchain | not executed | WindowRenderer.GrownSwapchainUpdate | WindowRenderer.GrownSwapchainUpdateFixed |
| Vulkan/Window.cpp:216 | a local `_imageCount` shadows the member, so the member stays 0 and the first rebuild's loop at 959 destroys no view | the first rebuild after `Init` with any image count | `Init` stores the image count in the member | not executed | WindowRenderer.FirstRebuildLeaksViews | WindowRenderer.FirstRebuildAccountsViews |
| Vulkan/Window.cpp:751 | `chkSwapchain` returns on an out-of-date acquire and `Update` goes on to submit waiting on the acquire semaphore, which nothing signals, after the fence was already reset | the first frame with an out-of-date acquire | the frame ends at the acquire so the swapchain can be rebuilt, and the fence stays signalled | not executed | WindowRenderer.OutOfDateAcquireUpdate | WindowRenderer.OutOfDateAcquireUpdateFixed |
