/** memcpy and memset over octet arrays. */
module Memory {
  import opened Bytes

  method MemCopy(output: array<u8>, at: nat, input: seq<u8>)
    requires at + |input| <= output.Length
    modifies output
    ensures output[..] == old(output[..at]) + input + old(output[at + |input|..])
  {
    var i := 0;
    while i < |input|
      invariant 0 <= i <= |input|
      invariant output[..] == old(output[..at]) + input[..i] + old(output[at + i..])
    {
      output[at + i] := input[i];
      i := i + 1;
    }
  }

  /** memset to zero. */
  method Fill(output: array<u8>, at: nat, len: nat)
    requires at + len <= output.Length
    modifies output
    ensures output[..] == old(output[..at]) + Zeros(len) + old(output[at + len..])
  {
    var i := 0;
    while i < len
      invariant 0 <= i <= len
      invariant output[..] == old(output[..at]) + Zeros(i) + old(output[at + i..])
    {
      output[at + i] := 0;
      i := i + 1;
    }
  }
}
