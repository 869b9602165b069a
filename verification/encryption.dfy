/** Encrypt._transform (03Streams/07encryption-decryption/encryption.js): every
    byte of the chunk is raised by one in place, except 255, which stays. */
module Encryption {
  import opened Common

  /** The mapping applied to one byte. */
  function ShiftByte(b: u8): (r: u8)
    ensures b < 255 ==> r as int == b as int + 1
    ensures b == 255 ==> r == 255
    ensures r != 0
  {
    if b != 255 then b + 1 else b
  }

  /** The mapping applied to a whole chunk, byte by byte. */
  function Shift(s: Chunk): Chunk
  {
    if s == [] then [] else [ShiftByte(s[0])] + Shift(s[1..])
  }

  /** Shift keeps the length and maps each position on its own. */
  lemma {:induction false} ShiftAt(s: Chunk)
    ensures |Shift(s)| == |s|
    ensures forall i :: 0 <= i < |s| ==> Shift(s)[i] == ShiftByte(s[i])
  {
    if s != [] {
      ShiftAt(s[1..]);
    }
  }

  /** No state is carried from one part of the input to the next: shifting a
      concatenation shifts each part. */
  lemma {:induction false} ShiftConcat(a: Chunk, b: Chunk)
    ensures Shift(a + b) == Shift(a) + Shift(b)
  {
    if a == [] {
      assert a + b == b;
    } else {
      assert (a + b)[1..] == a[1..] + b;
      ShiftConcat(a[1..], b);
    }
  }

  /** Shifting a stream chunk by chunk equals shifting the whole stream. */
  lemma {:induction false} ShiftChunks(cs: seq<Chunk>)
    ensures Concat(MapShift(cs)) == Shift(Concat(cs))
  {
    if cs != [] {
      ShiftChunks(cs[1..]);
      ShiftConcat(cs[0], Concat(cs[1..]));
    }
  }

  function MapShift(cs: seq<Chunk>): (r: seq<Chunk>)
    ensures |r| == |cs|
  {
    if cs == [] then [] else [Shift(cs[0])] + MapShift(cs[1..])
  }

  /** No output byte is 0. */
  lemma NoZeroOutput(s: Chunk)
    ensures forall i :: 0 <= i < |Shift(s)| ==> Shift(s)[i] != 0
  {
    ShiftAt(s);
  }

  /** The mapping is not injective (254 and 255 both become 255), so no
      decryption can undo it on every input. */
  lemma NotInjective()
    ensures ShiftByte(254) == ShiftByte(255)
  {
  }

  /** _transform: overwrite each byte in place and hand the same buffer on. */
  method Transform(chunk: array<u8>) returns (out: array<u8>)
    modifies chunk
    ensures out == chunk
    ensures chunk[..] == Shift(old(chunk[..]))
  {
    ghost var input := chunk[..];
    ShiftAt(input);
    for i := 0 to chunk.Length
      invariant forall j :: 0 <= j < i ==> chunk[j] == ShiftByte(input[j])
      invariant forall j :: i <= j < chunk.Length ==> chunk[j] == input[j]
    {
      if chunk[i] != 255 {
        chunk[i] := chunk[i] + 1;
      }
    }
    out := chunk;
  }
}
