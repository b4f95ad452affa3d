/** The flag of src/islands/capture_flag.ts: once captured it stays captured. */
module CaptureFlags {

  class CaptureFlag {
    var captured: bool

    constructor (captured: bool)
      ensures this.captured == captured
    {
      this.captured := captured;
    }

    /**
     * capture: a no-op on a captured flag; otherwise the flag becomes captured and
     * plays its capture animation, reported as played.
     */
    method Capture() returns (played: bool)
      modifies this`captured
      ensures captured
      ensures played == !old(captured)
    {
      if captured {
        return false;
      }
      captured := true;
      return true;
    }
  }
}
