/**
 * The swapchain parameters `createSwapchain` in Vulkan/Vulkan.cpp derives
 * from what the surface reports: surface format, present mode, extent,
 * image count and sharing mode.  The capability conventions are those of
 * the Surface Capabilities section of the Window System Integration
 * chapter of the Vulkan specification: a `currentExtent` of 0xFFFFFFFF
 * lets the swapchain decide the size, and a `maxImageCount` of 0 means
 * there is no upper bound.
 */
module SwapchainSelection {
  import opened VkTypes
  import opened SeqSearch

  const PREFERRED_SURFACE_FORMAT := SurfaceFormat(FORMAT_B8G8R8A8_SRGB, COLOR_SPACE_SRGB_NONLINEAR_KHR)

  predicate IsPreferredSurfaceFormat(f: SurfaceFormat) {
    f.format == FORMAT_B8G8R8A8_SRGB && f.colorSpace == COLOR_SPACE_SRGB_NONLINEAR_KHR
  }

  predicate IsMailbox(m: PresentMode) { m == PRESENT_MODE_MAILBOX_KHR }

  /**
   * 8-bit sRGB in the non-linear sRGB colour space when the surface offers
   * it, otherwise the first format offered.  The source reads element 0
   * unconditionally, so an empty list is outside its domain.
   */
  function ChooseSwapSurfaceFormat(available: seq<SurfaceFormat>): (r: SurfaceFormat)
    requires |available| > 0
    ensures r in available
    ensures PREFERRED_SURFACE_FORMAT in available ==> r == PREFERRED_SURFACE_FORMAT
    ensures PREFERRED_SURFACE_FORMAT !in available ==> r == available[0]
  {
    match FirstIndex(available, IsPreferredSurfaceFormat)
    case Some(i) => available[i]
    case None => available[0]
  }

  /** Mailbox when the surface offers it, otherwise FIFO, whether or not FIFO is listed. */
  function ChooseSwapPresentMode(available: seq<PresentMode>): (r: PresentMode)
    ensures r == PRESENT_MODE_MAILBOX_KHR <==> PRESENT_MODE_MAILBOX_KHR in available
    ensures r != PRESENT_MODE_MAILBOX_KHR ==> r == PRESENT_MODE_FIFO_KHR
  {
    match FirstIndex(available, IsMailbox)
    case Some(i) => available[i]
    case None => PRESENT_MODE_FIFO_KHR
  }

  /** `std::max(lo, std::min(hi, x))`. */
  function Clamp(lo: u32, hi: u32, x: u32): (r: u32)
    ensures lo <= hi ==> lo <= r <= hi
    ensures lo <= x <= hi ==> r == x
    ensures x <= lo ==> r == lo
    ensures lo <= hi <= x ==> r == hi
    ensures hi < lo ==> r == lo
  {
    var m := if hi < x then hi else x;
    if lo < m then m else lo
  }

  /**
   * The surface's current extent when it has one; otherwise the
   * framebuffer size (signed ints from the window system, converted to
   * `uint32_t`) clamped component-wise into the surface's range.
   */
  function ChooseSwapExtent(caps: SurfaceCapabilities, framebufferWidth: int, framebufferHeight: int): (r: Extent2D)
    ensures caps.currentExtent.width != UINT32_MAX ==> r == caps.currentExtent
    ensures caps.currentExtent.width == UINT32_MAX ==>
      r.width == Clamp(caps.minImageExtent.width, caps.maxImageExtent.width, WrapU32(framebufferWidth)) &&
      r.height == Clamp(caps.minImageExtent.height, caps.maxImageExtent.height, WrapU32(framebufferHeight))
    ensures caps.currentExtent.width == UINT32_MAX && caps.minImageExtent.width <= caps.maxImageExtent.width ==>
      caps.minImageExtent.width <= r.width <= caps.maxImageExtent.width
    ensures caps.currentExtent.width == UINT32_MAX && caps.minImageExtent.height <= caps.maxImageExtent.height ==>
      caps.minImageExtent.height <= r.height <= caps.maxImageExtent.height
    ensures (caps.currentExtent.width == UINT32_MAX &&
             caps.minImageExtent.width as int <= framebufferWidth <= caps.maxImageExtent.width as int) ==>
      r.width as int == framebufferWidth
    ensures (caps.currentExtent.width == UINT32_MAX &&
             caps.minImageExtent.height as int <= framebufferHeight <= caps.maxImageExtent.height as int) ==>
      r.height as int == framebufferHeight
  {
    if caps.currentExtent.width != UINT32_MAX then caps.currentExtent
    else
      var actual := Extent2D(WrapU32(framebufferWidth), WrapU32(framebufferHeight));
      Extent2D(Clamp(caps.minImageExtent.width, caps.maxImageExtent.width, actual.width),
               Clamp(caps.minImageExtent.height, caps.maxImageExtent.height, actual.height))
  }

  /**
   * One image more than the minimum, in `uint32_t` arithmetic, capped to
   * the maximum only when the surface has one.
   */
  function ImageCount(caps: SurfaceCapabilities): (r: u32)
    ensures caps.maxImageCount > 0 ==> r <= caps.maxImageCount
    ensures caps.minImageCount < UINT32_MAX && (caps.maxImageCount == 0 || caps.minImageCount < caps.maxImageCount) ==>
      r as int == caps.minImageCount as int + 1
    ensures caps.minImageCount < UINT32_MAX && 0 < caps.maxImageCount <= caps.minImageCount ==>
      r == caps.maxImageCount
    ensures caps.minImageCount == UINT32_MAX ==> r == 0
  {
    var wanted := WrapU32(caps.minImageCount as int + 1);
    if caps.maxImageCount > 0 && wanted > caps.maxImageCount then caps.maxImageCount else wanted
  }

  /**
   * For capabilities the specification allows (at least one image, and a
   * maximum, when there is one, no smaller than the minimum), the requested
   * count is itself allowed: at least the minimum and at most the maximum.
   */
  lemma ImageCountWithinCapabilities(caps: SurfaceCapabilities)
    requires 1 <= caps.minImageCount < UINT32_MAX
    requires caps.maxImageCount == 0 || caps.minImageCount <= caps.maxImageCount
    ensures caps.minImageCount <= ImageCount(caps)
    ensures caps.maxImageCount == 0 || ImageCount(caps) <= caps.maxImageCount
    ensures ImageCount(caps) >= 2 <==> caps.maxImageCount != 1
  {
  }

  datatype SharingInfo = SharingInfo(mode: SharingMode, queueFamilyIndices: seq<nat>)

  /**
   * Concurrent sharing between the two families when they differ,
   * exclusive ownership otherwise; `queueFamilyIndexCount` is the length of
   * the list handed over.
   */
  function ChooseSharing(graphicsFamily: nat, presentFamily: nat): (r: SharingInfo)
    ensures r.mode == SHARING_MODE_CONCURRENT <==> graphicsFamily != presentFamily
    ensures r.mode == SHARING_MODE_CONCURRENT || r.mode == SHARING_MODE_EXCLUSIVE
    ensures r.mode == SHARING_MODE_CONCURRENT ==>
      |r.queueFamilyIndices| == 2 && r.queueFamilyIndices[0] != r.queueFamilyIndices[1] &&
      r.queueFamilyIndices == [graphicsFamily, presentFamily]
    ensures r.mode == SHARING_MODE_EXCLUSIVE ==> r.queueFamilyIndices == []
  {
    if graphicsFamily != presentFamily then SharingInfo(SHARING_MODE_CONCURRENT, [graphicsFamily, presentFamily])
    else SharingInfo(SHARING_MODE_EXCLUSIVE, [])
  }

  /** What `querySwapChainSupport` reports for the chosen device and surface. */
  datatype SwapchainSupport = SwapchainSupport(
    capabilities: SurfaceCapabilities,
    formats: seq<SurfaceFormat>,
    presentModes: seq<PresentMode>)

  /** The fields of `VkSwapchainCreateInfoKHR` the source sets from its choices. */
  datatype SwapchainCreateInfo = SwapchainCreateInfo(
    minImageCount: u32,
    imageFormat: Format,
    imageColorSpace: ColorSpace,
    imageExtent: Extent2D,
    sharing: SharingInfo,
    presentMode: PresentMode,
    oldSwapchain: Handle)

  /**
   * The create info `createSwapchain(oldSwapchain)` fills in: every choice
   * made above, and the handle of the swapchain being replaced.
   */
  function SwapchainCreateInfoFor(support: SwapchainSupport, graphicsFamily: nat, presentFamily: nat,
                                  framebufferWidth: int, framebufferHeight: int, oldSwapchain: Handle): (r: SwapchainCreateInfo)
    requires |support.formats| > 0
    ensures r.oldSwapchain == oldSwapchain
    // surface format: the preferred pair when offered, otherwise the first one offered
    ensures SurfaceFormat(r.imageFormat, r.imageColorSpace) in support.formats
    ensures PREFERRED_SURFACE_FORMAT in support.formats ==>
      SurfaceFormat(r.imageFormat, r.imageColorSpace) == PREFERRED_SURFACE_FORMAT
    ensures PREFERRED_SURFACE_FORMAT !in support.formats ==>
      SurfaceFormat(r.imageFormat, r.imageColorSpace) == support.formats[0]
    // present mode: mailbox exactly when offered, otherwise FIFO
    ensures r.presentMode == PRESENT_MODE_MAILBOX_KHR <==> PRESENT_MODE_MAILBOX_KHR in support.presentModes
    ensures r.presentMode != PRESENT_MODE_MAILBOX_KHR ==> r.presentMode == PRESENT_MODE_FIFO_KHR
    // image count: one more than the minimum, capped by a maximum the surface has
    ensures support.capabilities.maxImageCount > 0 ==> r.minImageCount <= support.capabilities.maxImageCount
    ensures support.capabilities.minImageCount < UINT32_MAX &&
            (support.capabilities.maxImageCount == 0 ||
             support.capabilities.minImageCount < support.capabilities.maxImageCount) ==>
      r.minImageCount as int == support.capabilities.minImageCount as int + 1
    ensures support.capabilities.minImageCount < UINT32_MAX &&
            0 < support.capabilities.maxImageCount <= support.capabilities.minImageCount ==>
      r.minImageCount == support.capabilities.maxImageCount
    // sharing: concurrent between two distinct families, exclusive otherwise
    ensures r.sharing.mode == SHARING_MODE_CONCURRENT <==> graphicsFamily != presentFamily
    ensures r.sharing.mode == SHARING_MODE_CONCURRENT ==> r.sharing.queueFamilyIndices == [graphicsFamily, presentFamily]
    ensures r.sharing.mode == SHARING_MODE_EXCLUSIVE ==> r.sharing.queueFamilyIndices == []
    // extent: the surface's own size, or the framebuffer size clamped into the surface's range
    ensures support.capabilities.currentExtent.width != UINT32_MAX ==> r.imageExtent == support.capabilities.currentExtent
    ensures support.capabilities.currentExtent.width == UINT32_MAX ==>
      r.imageExtent.width == Clamp(support.capabilities.minImageExtent.width,
                                   support.capabilities.maxImageExtent.width, WrapU32(framebufferWidth)) &&
      r.imageExtent.height == Clamp(support.capabilities.minImageExtent.height,
                                    support.capabilities.maxImageExtent.height, WrapU32(framebufferHeight))
  {
    var format := ChooseSwapSurfaceFormat(support.formats);
    SwapchainCreateInfo(
      ImageCount(support.capabilities),
      format.format,
      format.colorSpace,
      ChooseSwapExtent(support.capabilities, framebufferWidth, framebufferHeight),
      ChooseSharing(graphicsFamily, presentFamily),
      ChooseSwapPresentMode(support.presentModes),
      oldSwapchain)
  }
}
