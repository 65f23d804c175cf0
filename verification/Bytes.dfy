/** Bytes in buffers. */
module Bytes {

  type Byte = b: nat | b < 256

  // Low byte first.
  function Le16(v: nat): seq<Byte> {
    [v % 256, v / 256 % 256]
  }

  /** Copy `data` to `off`, as `memcpy` does: exactly the bytes it covers change. */
  method CopyIn(buf: array<Byte>, off: nat, data: seq<Byte>)
    requires off + |data| <= buf.Length
    modifies buf
    ensures buf[..] == old(buf[..off]) + data + old(buf[off + |data|..])
  {
    for k := 0 to |data|
      invariant forall j :: 0 <= j < buf.Length ==> buf[j] == if off <= j < off + k then data[j - off] else old(buf[j])
    {
      buf[off + k] := data[k];
    }
  }
}
