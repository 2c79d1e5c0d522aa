/**
 * The capability searches of Vulkan/Vulkan.cpp, over the answers of the
 * device queries, which are passed in: the depth-format priority list,
 * the memory-type bitmask search, the queue-family scan, the device
 * extension check and the device suitability test built from them.
 */
module CapabilitySearch {
  import opened VkTypes
  import opened SeqSearch

  predicate HasDepthStencilAttachment(optimalTilingFeatures: bv32) {
    optimalTilingFeatures & FORMAT_FEATURE_DEPTH_STENCIL_ATTACHMENT_BIT != 0
  }

  const DEPTH_FORMAT_CANDIDATES: seq<Format> := [FORMAT_D32_SFLOAT, FORMAT_D32_SFLOAT_S8_UINT, FORMAT_D24_UNORM_S8_UINT]

  /**
   * `findDepthFormat`: 32-bit float depth first, then 32-bit float depth
   * with stencil, then 24-bit depth with stencil; it throws when the
   * device supports none of them as a depth attachment.
   */
  function FindDepthFormat(optimalTilingFeatures: Format -> bv32): (r: Result<Format>)
    ensures HasDepthStencilAttachment(optimalTilingFeatures(FORMAT_D32_SFLOAT)) ==> r == Ok(FORMAT_D32_SFLOAT)
    ensures (!HasDepthStencilAttachment(optimalTilingFeatures(FORMAT_D32_SFLOAT)) &&
             HasDepthStencilAttachment(optimalTilingFeatures(FORMAT_D32_SFLOAT_S8_UINT))) ==>
      r == Ok(FORMAT_D32_SFLOAT_S8_UINT)
    ensures (!HasDepthStencilAttachment(optimalTilingFeatures(FORMAT_D32_SFLOAT)) &&
             !HasDepthStencilAttachment(optimalTilingFeatures(FORMAT_D32_SFLOAT_S8_UINT)) &&
             HasDepthStencilAttachment(optimalTilingFeatures(FORMAT_D24_UNORM_S8_UINT))) ==>
      r == Ok(FORMAT_D24_UNORM_S8_UINT)
    ensures r.Err? <==> forall f :: f in DEPTH_FORMAT_CANDIDATES ==> !HasDepthStencilAttachment(optimalTilingFeatures(f))
  {
    var candidates := DEPTH_FORMAT_CANDIDATES;
    assert candidates[0] == FORMAT_D32_SFLOAT && candidates[1] == FORMAT_D32_SFLOAT_S8_UINT &&
           candidates[2] == FORMAT_D24_UNORM_S8_UINT;
    match FirstIndex(candidates, f => HasDepthStencilAttachment(optimalTilingFeatures(f)))
    case Some(i) => Ok(candidates[i])
    case None => Err("No supported depth format found!")
  }

  /**
   * Memory type `i` is allowed by the resource's `typeFilter` bitmask and
   * its property flags include every flag in `properties`.
   */
  predicate MemoryTypeSuitable(typeFilter: bv32, properties: bv32, memoryTypes: seq<bv32>, i: nat)
    requires i < |memoryTypes| <= MAX_MEMORY_TYPES
  {
    typeFilter & ((1 as bv32) << i) != 0 && memoryTypes[i] & properties == properties
  }

  function FindMemoryTypeFrom(typeFilter: bv32, properties: bv32, memoryTypes: seq<bv32>, i: nat): (r: Result<nat>)
    requires |memoryTypes| <= MAX_MEMORY_TYPES
    ensures r.Ok? ==> i <= r.value < |memoryTypes| && MemoryTypeSuitable(typeFilter, properties, memoryTypes, r.value)
    ensures r.Ok? ==> forall j :: i <= j < r.value ==> !MemoryTypeSuitable(typeFilter, properties, memoryTypes, j)
    ensures r.Err? <==> forall j :: i <= j < |memoryTypes| ==> !MemoryTypeSuitable(typeFilter, properties, memoryTypes, j)
    decreases |memoryTypes| - i
  {
    if i >= |memoryTypes| then Err("failed to find suitable memory type!")
    else if MemoryTypeSuitable(typeFilter, properties, memoryTypes, i) then Ok(i)
    else FindMemoryTypeFrom(typeFilter, properties, memoryTypes, i + 1)
  }

  /**
   * `findMemoryType`: the least memory-type index the filter allows whose
   * flags contain the requested ones; it throws when there is none.
   * `memoryTypes` holds the property flags of the device's
   * `memoryTypeCount` types, at most VK_MAX_MEMORY_TYPES of them.
   */
  function FindMemoryType(typeFilter: bv32, properties: bv32, memoryTypes: seq<bv32>): (r: Result<nat>)
    requires |memoryTypes| <= MAX_MEMORY_TYPES
    ensures r.Ok? ==> r.value < |memoryTypes| && MemoryTypeSuitable(typeFilter, properties, memoryTypes, r.value)
    ensures r.Ok? ==> forall j :: 0 <= j < r.value ==> !MemoryTypeSuitable(typeFilter, properties, memoryTypes, j)
    ensures r.Err? <==> forall j :: 0 <= j < |memoryTypes| ==> !MemoryTypeSuitable(typeFilter, properties, memoryTypes, j)
  {
    FindMemoryTypeFrom(typeFilter, properties, memoryTypes, 0)
  }

  /**
   * One queue family as the scan sees it: its `queueFlags`, and whether
   * the surface-support query says it can present to the surface.
   */
  datatype QueueFamily = QueueFamily(queueFlags: bv32, surfaceSupport: bool)

  predicate SupportsGraphics(q: QueueFamily) { q.queueFlags & QUEUE_GRAPHICS_BIT != 0 }

  predicate SupportsPresent(q: QueueFamily) { q.surfaceSupport }

  datatype QueueFamilyIndices = QueueFamilyIndices(graphicsFamily: Option<nat>, presentFamily: Option<nat>)
  {
    predicate IsComplete() { graphicsFamily.Some? && presentFamily.Some? }
  }

  /** The indices held after scanning the first `n` families: the last match of each kind. */
  function IndicesAfter(families: seq<QueueFamily>, n: nat): QueueFamilyIndices
    requires n <= |families|
  {
    QueueFamilyIndices(LastIndex(families[..n], SupportsGraphics), LastIndex(families[..n], SupportsPresent))
  }

  /**
   * How many families `findQueueFamilies` looks at: it stops right after
   * the family at which both kinds have been seen, which is the later of
   * the first graphics family and the first presenting family.
   */
  function ScanLength(families: seq<QueueFamily>): (n: nat)
    ensures n <= |families|
  {
    match (FirstIndex(families, SupportsGraphics), FirstIndex(families, SupportsPresent))
    case (Some(g), Some(p)) => (if g < p then p else g) + 1
    case _ => |families|
  }

  /** The prefix scanned so far holds both kinds exactly once it reaches the scan length. */
  lemma CompleteAfterPrefix(families: seq<QueueFamily>, n: nat)
    requires n <= |families|
    ensures IndicesAfter(families, n).IsComplete() <==>
      (FirstIndex(families, SupportsGraphics).Some? && FirstIndex(families, SupportsPresent).Some? &&
       ScanLength(families) <= n)
  {
    var prefix := families[..n];
    var g := FirstIndex(families, SupportsGraphics);
    var p := FirstIndex(families, SupportsPresent);
    if LastIndex(prefix, SupportsGraphics).Some? {
      var k := LastIndex(prefix, SupportsGraphics).value;
      assert SupportsGraphics(families[k]);
    }
    if LastIndex(prefix, SupportsPresent).Some? {
      var k := LastIndex(prefix, SupportsPresent).value;
      assert SupportsPresent(families[k]);
    }
    if g.Some? && g.value < n {
      assert SupportsGraphics(prefix[g.value]);
    }
    if p.Some? && p.value < n {
      assert SupportsPresent(prefix[p.value]);
    }
  }

  /** One more family scanned: each index moves to it if it matches, and completion is only reached at the scan length. */
  lemma ScanStep(families: seq<QueueFamily>, i: nat)
    requires i < |families|
    requires !IndicesAfter(families, i).IsComplete()
    ensures IndicesAfter(families, i + 1) == QueueFamilyIndices(
      if SupportsGraphics(families[i]) then Some(i) else IndicesAfter(families, i).graphicsFamily,
      if SupportsPresent(families[i]) then Some(i) else IndicesAfter(families, i).presentFamily)
    ensures i < ScanLength(families)
    ensures IndicesAfter(families, i + 1).IsComplete() ==> i + 1 == ScanLength(families)
  {
    assert families[..i + 1] == families[..i] + [families[i]];
    LastIndexSnoc(families[..i], families[i], SupportsGraphics);
    LastIndexSnoc(families[..i], families[i], SupportsPresent);
    CompleteAfterPrefix(families, i);
    CompleteAfterPrefix(families, i + 1);
  }

  /**
   * `findQueueFamilies`: scans the families in order, recording each one
   * with the graphics bit as the graphics family and each one that can
   * present as the present family, and stops as soon as both are known.
   * So a family overwritten before the scan stops is not kept: the result
   * is the last match of each kind within the scanned prefix.
   */
  method FindQueueFamilies(families: seq<QueueFamily>) returns (indices: QueueFamilyIndices)
    ensures indices == IndicesAfter(families, ScanLength(families))
    ensures indices.IsComplete() <==>
      (exists i :: 0 <= i < |families| && SupportsGraphics(families[i])) &&
      (exists i :: 0 <= i < |families| && SupportsPresent(families[i]))
    ensures indices.graphicsFamily.Some? ==>
      indices.graphicsFamily.value < |families| && SupportsGraphics(families[indices.graphicsFamily.value])
    ensures indices.presentFamily.Some? ==>
      indices.presentFamily.value < |families| && SupportsPresent(families[indices.presentFamily.value])
  {
    indices := QueueFamilyIndices(None, None);
    assert families[..0] == [];
    var i := 0;
    while i < |families|
      invariant 0 <= i <= |families|
      invariant indices == IndicesAfter(families, i)
      invariant !indices.IsComplete()
    {
      ScanStep(families, i);
      if SupportsGraphics(families[i]) {
        indices := indices.(graphicsFamily := Some(i));
      }
      if SupportsPresent(families[i]) {
        indices := indices.(presentFamily := Some(i));
      }
      if indices.IsComplete() {
        CompleteAfterPrefix(families, i + 1);
        return;
      }
      i := i + 1;
    }
    CompleteAfterPrefix(families, i);
  }

  /**
   * The scan does not return the first graphics family: with two graphics
   * families of which only the second can present, both indices are 1.
   */
  lemma {:induction false} ScanKeepsLaterGraphicsFamily()
    ensures var families := [QueueFamily(QUEUE_GRAPHICS_BIT, false), QueueFamily(QUEUE_GRAPHICS_BIT, true)];
      FirstIndex(families, SupportsGraphics) == Some(0) &&
      IndicesAfter(families, ScanLength(families)) == QueueFamilyIndices(Some(1), Some(1))
  {
    var families := [QueueFamily(QUEUE_GRAPHICS_BIT, false), QueueFamily(QUEUE_GRAPHICS_BIT, true)];
    assert SupportsGraphics(families[0]) && !SupportsPresent(families[0]) && SupportsPresent(families[1]);
    assert families[..2] == families;
  }

  const DEVICE_EXTENSIONS: set<string> := {SWAPCHAIN_EXTENSION_NAME}

  /** The required names left after erasing every available one, as the loop does. */
  function Unmet(required: set<string>, available: seq<string>): (r: set<string>)
    ensures forall e :: e in r <==> e in required && e !in available
    decreases |available|
  {
    if available == [] then required
    else Unmet(required - {available[0]}, available[1..])
  }

  /** `checkDeviceExtensionSupport`: every required device extension is among the available ones. */
  function CheckDeviceExtensionSupport(available: seq<string>): (r: bool)
    ensures r <==> forall e :: e in DEVICE_EXTENSIONS ==> e in available
    ensures r <==> SWAPCHAIN_EXTENSION_NAME in available
  {
    var left := Unmet(DEVICE_EXTENSIONS, available);
    assert SWAPCHAIN_EXTENSION_NAME in left <==> SWAPCHAIN_EXTENSION_NAME !in available;
    left == {}
  }

  /**
   * `isDeviceSuitable`: both queue-family kinds exist, the swapchain
   * extension is available, and the surface offers at least one format and
   * one present mode.  The surface query only happens when the extension
   * check passed; `formatCount` and `presentModeCount` stand for
   * the lengths of the lists it returns.
   */
  method IsDeviceSuitable(families: seq<QueueFamily>, extensions: seq<string>,
                          formatCount: nat, presentModeCount: nat) returns (suitable: bool)
    ensures suitable <==>
      (exists i :: 0 <= i < |families| && SupportsGraphics(families[i])) &&
      (exists i :: 0 <= i < |families| && SupportsPresent(families[i])) &&
      SWAPCHAIN_EXTENSION_NAME in extensions && formatCount > 0 && presentModeCount > 0
  {
    var indices := FindQueueFamilies(families);
    var extensionsSupported := CheckDeviceExtensionSupport(extensions);
    var swapChainAdequate := false;
    if extensionsSupported {
      swapChainAdequate := formatCount > 0 && presentModeCount > 0;
    }
    suitable := indices.IsComplete() && extensionsSupported && swapChainAdequate;
  }
}
