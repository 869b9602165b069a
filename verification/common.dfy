/** Values shared by every stream and socket model: bytes, chunks, optional
    values, I/O errors, and the concatenation that Buffer.concat performs. */
module Common {

  /** One byte of a Node Buffer. */
  newtype u8 = x: int | 0 <= x < 256

  /** A Buffer: an immutable run of bytes. */
  type Chunk = seq<u8>

  datatype Option<T> = None | Some(value: T)

  /** An error reported by the file system or a socket; its contents are opaque. */
  datatype IoError = IoError(code: string)

  /** The outcome of an fs call that yields a value (a file descriptor, say). */
  datatype Result<T> = Ok(value: T) | Err(error: IoError)

  /** `if (fd)` in JavaScript: null and the descriptor 0 are both falsy. */
  predicate Truthy(fd: Option<nat>)
  {
    fd.Some? && fd.value != 0
  }

  /** Sum of the lengths of the pieces. */
  function TotalLength<T>(cs: seq<seq<T>>): nat
  {
    if cs == [] then 0 else |cs[0]| + TotalLength(cs[1..])
  }

  /** The pieces joined end to end, in order (Buffer.concat). */
  function Concat<T>(cs: seq<seq<T>>): (r: seq<T>)
    ensures |r| == TotalLength(cs)
  {
    if cs == [] then [] else cs[0] + Concat(cs[1..])
  }

  /** Appending one piece appends its contents: concatenation is in arrival order. */
  lemma {:induction false} ConcatAppend<T>(cs: seq<seq<T>>, c: seq<T>)
    ensures Concat(cs + [c]) == Concat(cs) + c
    ensures TotalLength(cs + [c]) == TotalLength(cs) + |c|
  {
    if cs == [] {
      assert [] + [c] == [c];
    } else {
      assert (cs + [c])[1..] == cs[1..] + [c];
      ConcatAppend(cs[1..], c);
    }
  }

  /** Buffering one more accepted chunk keeps "what is on file followed by
      what is buffered is everything accepted". */
  lemma BufferAppend(written: Chunk, buffered: seq<Chunk>, accepted: seq<Chunk>, c: Chunk)
    requires written + Concat(buffered) == Concat(accepted)
    ensures written + Concat(buffered + [c]) == Concat(accepted + [c])
  {
    ConcatAppend(buffered, c);
    ConcatAppend(accepted, c);
    AppendAssoc(written, Concat(buffered), c);
  }

  lemma AppendAssoc<T>(a: seq<T>, b: seq<T>, c: seq<T>)
    ensures a + (b + c) == (a + b) + c
  {
  }

  /** Concatenation distributes over joining two lists of pieces. */
  lemma {:induction false} ConcatJoin<T>(xs: seq<seq<T>>, ys: seq<seq<T>>)
    ensures Concat(xs + ys) == Concat(xs) + Concat(ys)
  {
    if xs == [] {
      assert [] + ys == ys;
    } else {
      assert (xs + ys)[1..] == xs[1..] + ys;
      ConcatJoin(xs[1..], ys);
    }
  }

  /** `n` zero bytes: what Buffer.alloc(n) holds. */
  function Zeros(n: nat): (r: Chunk)
    ensures |r| == n
    ensures forall i :: 0 <= i < n ==> r[i] == 0
  {
    seq(n, _ => 0)
  }

  function Min(a: int, b: int): int
  {
    if a <= b then a else b
  }
}
