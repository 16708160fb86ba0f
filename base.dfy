/** Small shared vocabulary: optional values and raw bytes. */
module Base {

  datatype Option<+T> = None | Some(value: T)

  /** One octet of an MQTT payload. */
  newtype byte = b: int | 0 <= b < 256

  /** The bytes of an ASCII string literal, as Python's b"..." spells them. */
  function AsciiBytes(s: string): (bs: seq<byte>)
    requires forall i :: 0 <= i < |s| ==> s[i] as int < 128
    ensures |bs| == |s|
    ensures forall i :: 0 <= i < |s| ==> bs[i] as int == s[i] as int
  {
    if s == [] then [] else [s[0] as int as byte] + AsciiBytes(s[1..])
  }
}
