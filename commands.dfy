/**
 * Command recording as a list of abstract commands, and image-layout
 * tracking over such a list.  A layout transition whose old layout is
 * UNDEFINED discards the contents and is allowed from any layout; any
 * other transition must name the layout the image is in, and a rendering
 * attachment must be in the layout it declares.  The generic
 * ATTACHMENT_OPTIMAL layout is the same layout as COLOR_ATTACHMENT_OPTIMAL
 * for the colour aspect of an image and as DEPTH_ATTACHMENT_OPTIMAL for
 * its depth aspect, so layouts are compared after resolving it by the
 * aspect the barrier or attachment names.  Stencil layouts, stage masks
 * and access masks are not tracked.
 */
module Commands {
  import opened VkTypes

  /** The aspect of an image a barrier transitions: colour, or depth (with or without stencil). */
  datatype Aspect = ColorAspect | DepthAspect

  /** A rendering attachment: the view, the image behind it, and the layout it declares. */
  datatype Attachment = Attachment(view: Handle, image: Handle, layout: ImageLayout)

  datatype Command =
    | ImageBarrier(image: Handle, aspect: Aspect, oldLayout: ImageLayout, newLayout: ImageLayout)
    | BeginRendering(renderArea: Extent2D, color: Attachment, depth: Attachment)
    | BindPipeline
    | SetViewport(viewport: Extent2D)
    | SetScissor(scissor: Extent2D)
    | BindDescriptorSets
    | BindVertexBuffer
    | BindIndexBuffer
    /** Push constants written from host data. */
    | PushConstants
    /** Push constants holding the device address of a buffer. */
    | PushBufferAddress(buffer: Handle)
    | Draw(vertexCount: nat, instanceCount: nat)
    | DrawIndexed(indexCount: nat, instanceCount: nat)
    | EndRendering

  /** The layout an image is in, UNDEFINED when nothing has transitioned it yet. */
  function LayoutOf(layouts: map<Handle, ImageLayout>, image: Handle): ImageLayout {
    if image in layouts then layouts[image] else IMAGE_LAYOUT_UNDEFINED
  }

  /** The layout `layout` names for the given aspect: ATTACHMENT_OPTIMAL resolved, every other layout itself. */
  function AspectLayout(aspect: Aspect, layout: ImageLayout): (r: ImageLayout)
    ensures layout != IMAGE_LAYOUT_ATTACHMENT_OPTIMAL ==> r == layout
    ensures layout == IMAGE_LAYOUT_ATTACHMENT_OPTIMAL && aspect == ColorAspect ==> r == IMAGE_LAYOUT_COLOR_ATTACHMENT_OPTIMAL
    ensures layout == IMAGE_LAYOUT_ATTACHMENT_OPTIMAL && aspect == DepthAspect ==> r == IMAGE_LAYOUT_DEPTH_ATTACHMENT_OPTIMAL
  {
    if layout != IMAGE_LAYOUT_ATTACHMENT_OPTIMAL then layout
    else if aspect == ColorAspect then IMAGE_LAYOUT_COLOR_ATTACHMENT_OPTIMAL
    else IMAGE_LAYOUT_DEPTH_ATTACHMENT_OPTIMAL
  }

  /**
   * The effect of one command on the tracked layouts; None when it
   * contradicts them.  The colour attachment of a rendering scope is read
   * by its colour aspect, the depth attachment by its depth aspect.
   */
  function Step(layouts: map<Handle, ImageLayout>, c: Command): Option<map<Handle, ImageLayout>> {
    match c
    case ImageBarrier(image, aspect, oldLayout, newLayout) =>
      if oldLayout == IMAGE_LAYOUT_UNDEFINED || AspectLayout(aspect, oldLayout) == LayoutOf(layouts, image) then
        Some(layouts[image := AspectLayout(aspect, newLayout)])
      else None
    case BeginRendering(_, color, depth) =>
      if LayoutOf(layouts, color.image) == AspectLayout(ColorAspect, color.layout) &&
         LayoutOf(layouts, depth.image) == AspectLayout(DepthAspect, depth.layout) then Some(layouts)
      else None
    case _ => Some(layouts)
  }

  /** Replays a command list from the given layouts; None at the first inconsistent command. */
  function Replay(layouts: map<Handle, ImageLayout>, cmds: seq<Command>): Option<map<Handle, ImageLayout>>
    decreases |cmds|
  {
    if cmds == [] then Some(layouts)
    else match Step(layouts, cmds[0])
      case None => None
      case Some(next) => Replay(next, cmds[1..])
  }

  /** Replaying a concatenation replays the first part and continues from where it left the layouts. */
  lemma {:induction false} ReplayAppend(layouts: map<Handle, ImageLayout>, a: seq<Command>, b: seq<Command>)
    ensures Replay(layouts, a + b) == match Replay(layouts, a)
      case None => None
      case Some(mid) => Replay(mid, b)
    decreases |a|
  {
    if a == [] {
      assert a + b == b;
    } else {
      assert (a + b)[0] == a[0];
      assert (a + b)[1..] == a[1..] + b;
      match Step(layouts, a[0])
      case None =>
      case Some(next) => ReplayAppend(next, a[1..], b);
    }
  }

  /** Commands that never touch the tracked layouts. */
  predicate LayoutNeutral(c: Command) {
    !c.ImageBarrier? && !c.BeginRendering?
  }

  lemma {:induction false} ReplayNeutral(layouts: map<Handle, ImageLayout>, cmds: seq<Command>)
    requires forall i :: 0 <= i < |cmds| ==> LayoutNeutral(cmds[i])
    ensures Replay(layouts, cmds) == Some(layouts)
    decreases |cmds|
  {
    if cmds != [] {
      assert LayoutNeutral(cmds[0]);
      ReplayNeutral(layouts, cmds[1..]);
    }
  }

  /**
   * Draws happen only between a begin and an end of rendering, rendering
   * scopes do not nest, and no layout transition happens inside one.
   */
  predicate WellScoped(cmds: seq<Command>, inside: bool)
    decreases |cmds|
  {
    if cmds == [] then !inside
    else
      var c := cmds[0];
      if c.BeginRendering? then !inside && WellScoped(cmds[1..], true)
      else if c.EndRendering? then inside && WellScoped(cmds[1..], false)
      else if c.Draw? || c.DrawIndexed? then inside && WellScoped(cmds[1..], inside)
      else if c.ImageBarrier? then !inside && WellScoped(cmds[1..], inside)
      else WellScoped(cmds[1..], inside)
  }
}
