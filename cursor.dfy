/** A value model of the sequential binary reader the decoders use.
    The reader library itself is not part of this model: what it does is
    stated here as assumptions, one function per operation. Every read is
    little-endian and bounds-checked; an operation that would leave the
    buffer fails with Underrun. */
module ByteCursor {
  import opened Wrappers
  import opened Bytes

  /** A value read and the cursor after it. */
  datatype Read<+T> = Read(value: T, rest: Cursor)

  datatype Cursor = Cursor(buf: seq<byte>, pos: nat) {

    predicate IsEnd() { pos >= |buf| }

    function Tell(): nat { pos }

    predicate Has(n: int) { 0 <= n && pos + n <= |buf| }

    /** `skip(n)`: relative move; the target must lie inside the buffer. */
    function Skip(n: int): Result<Cursor>
    {
      if 0 <= pos + n <= |buf| then Ok(Cursor(buf, pos + n)) else Err(Underrun)
    }

    /** `seek(p)`: absolute move; the target must lie inside the buffer. */
    function Seek(p: int): Result<Cursor>
    {
      if 0 <= p <= |buf| then Ok(Cursor(buf, p)) else Err(Underrun)
    }

    function ReadU8(): Result<Read<byte>>
    {
      if Has(1) then Ok(Read(buf[pos], Cursor(buf, pos + 1))) else Err(Underrun)
    }

    function ReadU16(): Result<Read<u16>>
    {
      if Has(2) then Ok(Read(U16At(buf, pos), Cursor(buf, pos + 2))) else Err(Underrun)
    }

    function ReadU32(): Result<Read<u32>>
    {
      if Has(4) then Ok(Read(U32At(buf, pos), Cursor(buf, pos + 4))) else Err(Underrun)
    }

    /** Format `<l`: a signed little-endian 32-bit value. */
    function ReadI32(): Result<Read<int>>
    {
      if Has(4) then Ok(Read(I32At(buf, pos), Cursor(buf, pos + 4))) else Err(Underrun)
    }

    /** `raw(n)` and the `4s` format: the next `n` bytes as they are. */
    function ReadBytes(n: int): Result<Read<seq<byte>>>
    {
      if Has(n) then Ok(Read(buf[pos..pos + n], Cursor(buf, pos + n))) else Err(Underrun)
    }

    /** Format `${n}L`: `n` consecutive u32 values. */
    function ReadU32s(n: int): Result<Read<seq<u32>>>
    {
      if 0 <= n && Has(4 * n) then Ok(Read(U32sAt(buf, pos, n), Cursor(buf, pos + 4 * n)))
      else Err(Underrun)
    }

    /** `sub(n)`: a cursor over exactly the next `n` bytes, starting at its
        own offset 0. The decoder relies on the parent cursor moving past
        those `n` bytes as well; the library's source is not part of this
        model, so that behaviour is an assumption stated here: `rest` is the
        parent advanced by `n`. */
    function Sub(n: int): (r: Result<Read<Cursor>>)
      ensures r.Ok? <==> Has(n)
      ensures r.Ok? ==> r.value.value.pos == 0 && |r.value.value.buf| == n
      ensures r.Ok? ==> r.value.rest == Cursor(buf, pos + n)
      ensures r.Ok? ==> forall k :: 0 <= k < n ==> r.value.value.buf[k] == buf[pos + k]
    {
      if Has(n) then Ok(Read(Cursor(buf[pos..pos + n], 0), Cursor(buf, pos + n))) else Err(Underrun)
    }
  }
}
