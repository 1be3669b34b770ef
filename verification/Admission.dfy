/** The host's preflight and the loader's header validation, compared. */
module Admission {
  import opened Bytes
  import opened Outcomes
  import opened Message
  import opened Receive
  import opened Session

  /** With the limits the loader advertises, it accepts a header exactly when the host's
      preflight passes and the image is non-empty, no larger than its footprint, enters
      inside its bytes, and ends below 2^64. (The loader lies below its own window, as
      its linker script places it.) */
  lemma Agree(b: Board, image: Image)
    requires |image.bytes| < U32 && b.loaderEnd <= WINDOW_MIN && b.limits.windowMax < U64
    ensures ValidateHeader(b, HeaderOf(image)).None? <==>
      && Preflight(ReadyFor(b.limits), image, |image.bytes|)
      && 0 < |image.bytes| <= image.memLen
      && image.entryOff < |image.bytes|
      && image.loadAddr + image.memLen < U64
  {}

  /** The last condition is not idle: the host's sum wraps where the loader's is
      checked, so an image at the very top of the address space passes the host. */
  lemma PreflightWraps(b: Board) returns (image: Image)
    requires b.limits == Detect(None)
    ensures |image.bytes| == 1 && Preflight(ReadyFor(b.limits), image, 1)
    ensures ValidateHeader(b, HeaderOf(image)) == Some(ErrorCode.AddrOutOfRange)
  {
    image := Image(U64 - 0x800, 0, [0], 0x1000, 0);
  }
}
