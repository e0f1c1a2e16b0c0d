module Frames {
  /** The size of a frame, and of a page. */
  const FRAME: nat := 4096
}
