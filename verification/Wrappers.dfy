/** What the component models share. */
module Wrappers {
  datatype Option<+T> = None | Some(value: T)

  // Every failure the modelled code reports is a Status carrying only a message.
  datatype Result<+T> = Ok(value: T) | Err

  type byte = b: int | 0 <= b < 256

  // The largest size_t.
  const SIZE_MAX: nat := 0xffff_ffff_ffff_ffff

  function Overwritten(bytes: seq<byte>, at: nat, data: seq<byte>): (r: seq<byte>)
    requires at + |data| <= |bytes|
    ensures |r| == |bytes|
  {
    bytes[..at] + data + bytes[at + |data|..]
  }
}
