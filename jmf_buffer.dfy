/**
 * The parts of a JMF Buffer and of the PlugIn return flags that the
 * renderers use.
 */
module JmfBuffer {
  import opened JavaBase

  /** The return flags of a JMF PlugIn's process. */
  const BUFFER_PROCESSED_OK: int := 0
  const BUFFER_PROCESSED_FAILED: int := 1
  const INPUT_BUFFER_NOT_CONSUMED: int := 2

  /** A JMF Buffer of input: its data, and the offset and length of the bytes still to render. */
  class InputBuffer {
    const data: seq<Byte>
    var offset: int
    var length: int

    /** The offset lies in the data, and the bytes to render are there. */
    predicate Valid()
      reads this
    {
      0 <= offset <= |data| && offset + Max(length, 0) <= |data|
    }

    constructor(data: seq<Byte>, offset: int, length: int)
      ensures this.data == data && this.offset == offset && this.length == length
    {
      this.data := data;
      this.offset := offset;
      this.length := length;
    }
  }
}
