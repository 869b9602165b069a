/** The writeMany loop (03Streams/01write-many/writeMany.js, and its copy at
    03Streams/04custom-writable/custom-writable.js:117-128): a counter `i`
    shared by every call writes " i " for i = 1 .. 1e6, stops after any
    write that asks for backpressure, and is re-entered by each "drain". The
    write stream's answers are an input: `accepts(k)` is what the k-th write
    of the run (counted from 0) returns. */
module WriteMany {
  import opened JsString

  /** The last number written (1e6). */
  const Limit: nat := 1000000

  /** The text written for `n`: ` ${n.toString()} `. */
  function Frame(n: nat): (f: string)
    ensures |f| >= 3 && f[0] == ' ' && f[|f| - 1] == ' '
  {
    " " + NatToString(n) + " "
  }

  /** Between its two spaces, the frame of `n` holds exactly the digits of `n`. */
  lemma FrameHoldsDigits(n: nat)
    ensures Frame(n)[1..|Frame(n)| - 1] == NatToString(n)
  {
  }

  /** The frames of 1 .. n, in increasing order. */
  function FramesUpTo(n: nat): (r: seq<string>)
    ensures |r| == n
  {
    if n == 0 then [] else FramesUpTo(n - 1) + [Frame(n)]
  }

  /** The k-th frame (from 0) of FramesUpTo(n) is that of k + 1. */
  lemma {:induction false} FramesUpToAt(n: nat, k: nat)
    requires k < n
    ensures FramesUpTo(n)[k] == Frame(k + 1)
  {
    if k < n - 1 {
      FramesUpToAt(n - 1, k);
    }
  }

  /** Two numbers with the same frame are equal. */
  lemma FrameInjective(a: nat, b: nat)
    requires Frame(a) == Frame(b)
    ensures a == b
  {
    FrameHoldsDigits(a);
    FrameHoldsDigits(b);
    NatToStringInjective(a, b);
  }

  /** Each number is written once: the frames of 1 .. n are pairwise distinct. */
  lemma FramesDistinct(n: nat)
    ensures forall j, k :: 0 <= j < k < n ==> FramesUpTo(n)[j] != FramesUpTo(n)[k]
  {
    forall j, k | 0 <= j < k < n
      ensures FramesUpTo(n)[j] != FramesUpTo(n)[k]
    {
      FramesUpToAt(n, j);
      FramesUpToAt(n, k);
      if Frame(j + 1) == Frame(k + 1) {
        FrameInjective(j + 1, k + 1);
      }
    }
  }

  /** The state captured by the writeMany closure, and what the write stream
      has been handed. */
  class Writer {
    var i: nat
    /** The strings passed to writeStream.write, in order. */
    var sent: seq<string>
    var ended: bool
    var fileClosed: bool

    /** Everything below `i` has been written once, in order. */
    ghost predicate Valid()
      reads this
    {
      1 <= i <= Limit + 1 && sent == FramesUpTo(i - 1)
    }

    constructor ()
      ensures Valid() && i == 1 && sent == [] && !ended && !fileClosed
    {
      i := 1;
      sent := [];
      ended := false;
      fileClosed := false;
    }

    /** writeMany: write from the current `i` until a write returns false
        (return at once, `i` already past that number) or `i` passes the
        limit (then end the stream). */
    method WriteMany(accepts: nat -> bool)
      requires Valid() && !ended
      modifies this`i, this`sent, this`ended
      ensures Valid() && old(i) <= i
      ensures forall k :: old(|sent|) <= k < |sent| - 1 ==> accepts(k)
      ensures ended ==> i == Limit + 1 && (|sent| > old(|sent|) ==> accepts(|sent| - 1))
      ensures !ended ==> old(i) < i && !accepts(|sent| - 1)
    {
      while i <= Limit
        invariant Valid() && old(i) <= i && !ended
        invariant forall k :: old(|sent|) <= k < |sent| ==> accepts(k)
      {
        var canWriteFurther := WriteNext(accepts);
        if !canWriteFurther {
          return;
        }
      }
      ended := true;
    }

    /** One turn of the loop: write ` ${i} ` and step `i`; the result is
        what that write returned. */
    method WriteNext(accepts: nat -> bool) returns (canWriteFurther: bool)
      requires Valid() && i <= Limit
      modifies this`i, this`sent
      ensures Valid() && i == old(i) + 1
      ensures sent == old(sent) + [Frame(old(i))]
      ensures canWriteFurther == accepts(|sent| - 1)
    {
      sent := sent + [Frame(i)];
      canWriteFurther := accepts(|sent| - 1);
      i := i + 1;
    }

    /** "finish": close the file handle. */
    method OnFinish()
      requires ended
      modifies this`fileClosed
      ensures fileClosed
    {
      fileClosed := true;
    }
  }

  /** The whole run: one initial call and one call per "drain" until the
      stream is ended. Whatever the write results, 1 .. 1e6 are written, each
      once, in increasing order, and the stream is ended only after that. */
  method Run(accepts: nat -> bool) returns (sent: seq<string>)
    ensures sent == FramesUpTo(Limit)
  {
    var w := new Writer();
    w.WriteMany(accepts);
    while !w.ended
      invariant w.Valid() && (w.ended ==> w.i == Limit + 1)
      decreases Limit + 1 - w.i, !w.ended
    {
      w.WriteMany(accepts);
    }
    sent := w.sent;
  }
}
