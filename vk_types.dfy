/**
 * The part of the Vulkan API vocabulary the renderer relies on: unsigned
 * 32-bit counts and extents, result codes, the enumerants it names, and
 * the surface capability records it reads.  Enumerant values are those of
 * the Vulkan header, so that two names are equal exactly when the API
 * treats them as the same value.
 */
module VkTypes {

  /** A C `uint32_t`. */
  newtype u32 = x: int | 0 <= x < 0x1_0000_0000

  const UINT32_MAX: u32 := 0xFFFF_FFFF

  /** The C conversion of an integer to `uint32_t`: reduction modulo 2^32. */
  function WrapU32(x: int): (r: u32)
    ensures 0 <= x < 0x1_0000_0000 ==> r as int == x
    ensures (x - r as int) % 0x1_0000_0000 == 0
  {
    (x % 0x1_0000_0000) as u32
  }

  /** An opaque Vulkan object handle; 0 is VK_NULL_HANDLE. */
  type Handle = nat

  const NULL_HANDLE: Handle := 0

  /**
   * A `VkResult`.  Following the Return Codes section of the Fundamentals
   * chapter of the Vulkan specification, negative codes are errors and
   * positive codes are successful completions with a status.
   */
  datatype VkResult = VkResult(code: int)
  {
    predicate IsError() { code < 0 }
    predicate IsStatus() { code > 0 }
  }

  const SUCCESS := VkResult(0)
  const NOT_READY := VkResult(1)
  const TIMEOUT := VkResult(2)
  const SUBOPTIMAL_KHR := VkResult(1000001003)
  const ERROR_OUT_OF_HOST_MEMORY := VkResult(-1)
  const ERROR_DEVICE_LOST := VkResult(-4)
  const ERROR_SURFACE_LOST_KHR := VkResult(-1000000000)
  const ERROR_OUT_OF_DATE_KHR := VkResult(-1000001004)

  newtype Format = int
  const FORMAT_UNDEFINED: Format := 0
  const FORMAT_B8G8R8A8_SRGB: Format := 50
  const FORMAT_D32_SFLOAT: Format := 126
  const FORMAT_D24_UNORM_S8_UINT: Format := 129
  const FORMAT_D32_SFLOAT_S8_UINT: Format := 130

  newtype ColorSpace = int
  const COLOR_SPACE_SRGB_NONLINEAR_KHR: ColorSpace := 0

  newtype PresentMode = int
  const PRESENT_MODE_IMMEDIATE_KHR: PresentMode := 0
  const PRESENT_MODE_MAILBOX_KHR: PresentMode := 1
  const PRESENT_MODE_FIFO_KHR: PresentMode := 2
  const PRESENT_MODE_FIFO_RELAXED_KHR: PresentMode := 3

  newtype SharingMode = int
  const SHARING_MODE_EXCLUSIVE: SharingMode := 0
  const SHARING_MODE_CONCURRENT: SharingMode := 1

  newtype ImageLayout = int
  const IMAGE_LAYOUT_UNDEFINED: ImageLayout := 0
  const IMAGE_LAYOUT_COLOR_ATTACHMENT_OPTIMAL: ImageLayout := 2
  const IMAGE_LAYOUT_PRESENT_SRC_KHR: ImageLayout := 1000001002
  const IMAGE_LAYOUT_DEPTH_ATTACHMENT_OPTIMAL: ImageLayout := 1000241000
  const IMAGE_LAYOUT_ATTACHMENT_OPTIMAL: ImageLayout := 1000314001

  const QUEUE_GRAPHICS_BIT: bv32 := 0x1
  const FORMAT_FEATURE_DEPTH_STENCIL_ATTACHMENT_BIT: bv32 := 0x200
  const MEMORY_PROPERTY_DEVICE_LOCAL_BIT: bv32 := 0x1
  const MEMORY_PROPERTY_HOST_VISIBLE_BIT: bv32 := 0x2
  const MEMORY_PROPERTY_HOST_COHERENT_BIT: bv32 := 0x4

  /** VK_MAX_MEMORY_TYPES: the length of the memory-type array of a device. */
  const MAX_MEMORY_TYPES: nat := 32

  const SWAPCHAIN_EXTENSION_NAME: string := "VK_KHR_swapchain"

  datatype Extent2D = Extent2D(width: u32, height: u32)

  datatype SurfaceFormat = SurfaceFormat(format: Format, colorSpace: ColorSpace)

  /** The fields of `VkSurfaceCapabilitiesKHR` the renderer reads. */
  datatype SurfaceCapabilities = SurfaceCapabilities(
    minImageCount: u32,
    maxImageCount: u32,
    currentExtent: Extent2D,
    minImageExtent: Extent2D,
    maxImageExtent: Extent2D)

  datatype Option<T> = None | Some(value: T)

  /** A value, or the message of the exception the source throws instead. */
  datatype Result<T> = Ok(value: T) | Err(message: string)
}
