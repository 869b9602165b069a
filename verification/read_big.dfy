/** The filter relay of 03Streams/02read-big/readBig.js: each chunk's text is
    split on two spaces, every token whose Number() is even is written back
    wrapped in spaces, and the reader is paused while the writer asks for
    backpressure. `accepts(k)` is what the k-th write of the run (from 0)
    returns. Chunk text is taken character for character (ASCII). */
module ReadBig {
  import opened Common
  import opened JsString

  /** The two-space separator. */
  const Separator: string := "  "

  /** No two consecutive spaces, i.e. no occurrence of the separator. */
  predicate NoSeparator(t: string)
  {
    forall j :: 0 <= j < |t| - 1 ==> !(t[j] == ' ' && t[j + 1] == ' ')
  }

  /** String.prototype.split("  "): cut at each leftmost, non-overlapping
      occurrence of two spaces. */
  function Split(s: string): (r: seq<string>)
    ensures |r| >= 1
    decreases |s|
  {
    if |s| < 2 then [s]
    else if s[0] == ' ' && s[1] == ' ' then [""] + Split(s[2..])
    else
      var rest := Split(s[1..]);
      [[s[0]] + rest[0]] + rest[1..]
  }

  /** Array.prototype.join("  "). */
  function Join(ts: seq<string>): string
    requires |ts| >= 1
  {
    if |ts| == 1 then ts[0] else ts[0] + Separator + Join(ts[1..])
  }

  /** Splitting loses nothing: joining the tokens back gives the text. */
  lemma {:induction false} JoinSplit(s: string)
    ensures Join(Split(s)) == s
    decreases |s|, 1
  {
    if |s| < 2 {
    } else if s[0] == ' ' && s[1] == ' ' {
      JoinSplitAtSeparator(s);
    } else {
      JoinSplitAtChar(s);
    }
  }

  lemma {:induction false} JoinSplitAtSeparator(s: string)
    requires |s| >= 2 && s[0] == ' ' && s[1] == ' '
    ensures Join(Split(s)) == s
    decreases |s|, 0
  {
    JoinSplit(s[2..]);
    assert Split(s)[1..] == Split(s[2..]);
    assert s == Separator + s[2..];
  }

  lemma {:induction false} JoinSplitAtChar(s: string)
    requires |s| >= 2 && !(s[0] == ' ' && s[1] == ' ')
    ensures Join(Split(s)) == s
    decreases |s|, 0
  {
    var rest := Split(s[1..]);
    JoinSplit(s[1..]);
    assert Split(s)[1..] == rest[1..];
    if |rest| > 1 {
      var x, y := rest[0], Join(rest[1..]);
      assert Join(Split(s)) == ([s[0]] + x) + Separator + y;
      AppendAssoc([s[0]], x, Separator);
      AppendAssoc([s[0]], x + Separator, y);
    }
    assert s == [s[0]] + s[1..];
  }

  /** No token holds the separator: every occurrence was cut at. (The first
      token is a prefix of the text, which the induction needs.) */
  lemma {:induction false} SplitTokensHaveNoSeparator(s: string)
    ensures forall k :: 0 <= k < |Split(s)| ==> NoSeparator(Split(s)[k])
    ensures |Split(s)[0]| <= |s| && Split(s)[0] == s[..|Split(s)[0]|]
    decreases |s|, 1
  {
    if |s| < 2 {
    } else if s[0] == ' ' && s[1] == ' ' {
      SplitTokensAtSeparator(s);
    } else {
      SplitTokensAtChar(s);
    }
  }

  lemma {:induction false} SplitTokensAtSeparator(s: string)
    requires |s| >= 2 && s[0] == ' ' && s[1] == ' '
    ensures forall k :: 0 <= k < |Split(s)| ==> NoSeparator(Split(s)[k])
    ensures |Split(s)[0]| <= |s| && Split(s)[0] == s[..|Split(s)[0]|]
    decreases |s|, 0
  {
    SplitTokensHaveNoSeparator(s[2..]);
    assert Split(s)[1..] == Split(s[2..]);
  }

  lemma {:induction false} SplitTokensAtChar(s: string)
    requires |s| >= 2 && !(s[0] == ' ' && s[1] == ' ')
    ensures forall k :: 0 <= k < |Split(s)| ==> NoSeparator(Split(s)[k])
    ensures |Split(s)[0]| <= |s| && Split(s)[0] == s[..|Split(s)[0]|]
    decreases |s|, 0
  {
    var rest := Split(s[1..]);
    SplitTokensHaveNoSeparator(s[1..]);
    var first := [s[0]] + rest[0];
    assert Split(s)[0] == first;
    assert Split(s)[1..] == rest[1..];
    forall j | 0 <= j < |first| - 1
      ensures !(first[j] == ' ' && first[j + 1] == ' ')
    {
      if j > 0 {
        assert first[j] == rest[0][j - 1] && first[j + 1] == rest[0][j];
      } else if |rest[0]| >= 1 {
        assert rest[0][0] == s[1];
      }
    }
  }

  /** A text whose first token is empty but which has more tokens starts
      with the separator. */
  lemma SplitEmptyFirstToken(s: string)
    requires |Split(s)| > 1 && Split(s)[0] == []
    ensures |s| >= 2 && s[0] == ' ' && s[1] == ' '
  {
  }

  /** The cut is the leftmost one: no token but the last ends with a space,
      since that space and the separator after it would be two spaces
      starting earlier. */
  lemma {:induction false} SplitCutsLeftmost(s: string)
    ensures forall k :: 0 <= k < |Split(s)| - 1 ==> Split(s)[k] == [] || Split(s)[k][|Split(s)[k]| - 1] != ' '
    decreases |s|
  {
    if |s| < 2 {
    } else if s[0] == ' ' && s[1] == ' ' {
      SplitCutsLeftmost(s[2..]);
      assert Split(s)[1..] == Split(s[2..]);
    } else {
      var rest := Split(s[1..]);
      SplitCutsLeftmost(s[1..]);
      assert Split(s)[1..] == rest[1..];
      var first := [s[0]] + rest[0];
      assert Split(s)[0] == first;
      if |rest| > 1 {
        if rest[0] == [] {
          SplitEmptyFirstToken(s[1..]);
        } else {
          assert first[|first| - 1] == rest[0][|rest[0]| - 1];
        }
      }
    }
  }

  predicate IsJsSpace(c: char)
  {
    c == ' ' || c == '\t' || c == '\n' || c == '\r' || c as int == 11 || c as int == 12
  }

  function TrimStart(s: string): (r: string)
    ensures |r| <= |s| && r == s[|s| - |r|..]
    ensures r != [] ==> !IsJsSpace(r[0])
    ensures forall i :: 0 <= i < |s| - |r| ==> IsJsSpace(s[i])
  {
    if s != [] && IsJsSpace(s[0]) then TrimStart(s[1..]) else s
  }

  function TrimEnd(s: string): (r: string)
    ensures |r| <= |s| && r == s[..|r|]
    ensures r != [] ==> !IsJsSpace(r[|r| - 1])
    ensures forall i :: |r| <= i < |s| ==> IsJsSpace(s[i])
  {
    if s != [] && IsJsSpace(s[|s| - 1]) then TrimEnd(s[..|s| - 1]) else s
  }

  /** `Number(token) % 2 == 0` for tokens made of whitespace and decimal
      digits: blank text is 0 (even), digits are even when their last digit
      is; any other text is NaN, and NaN % 2 == 0 is false. */
  predicate NumberIsEven(token: string)
  {
    var t := TrimEnd(TrimStart(token));
    if t == [] then true
    else if AllDigits(t) then DigitValue(t[|t| - 1]) % 2 == 0
    else false
  }

  /** The last digit decides the parity of the number the digits denote. */
  lemma LastDigitParity(t: string)
    requires t != [] && AllDigits(t)
    ensures DecimalValue(t) % 2 == DigitValue(t[|t| - 1]) % 2
  {
  }

  /** For a token of digits between optional whitespace, NumberIsEven is the
      parity of the value those digits denote. */
  lemma NumberIsEvenIsParity(token: string)
    requires AllDigits(TrimEnd(TrimStart(token)))
    ensures NumberIsEven(token) <==> DecimalValue(TrimEnd(TrimStart(token))) % 2 == 0
  {
    var t := TrimEnd(TrimStart(token));
    if t != [] {
      LastDigitParity(t);
    }
  }

  /** What is written for a kept token: ` ${number} `. */
  function Wrap(token: string): (w: string)
    ensures |w| == |token| + 2 && w[0] == ' ' && w[|w| - 1] == ' '
    ensures w[1..|w| - 1] == token
  {
    " " + token + " "
  }

  /** The frames written for the tokens that pass `keep`, in order. */
  function KeptFrames(ts: seq<string>, keep: string -> bool): seq<string>
  {
    if ts == [] then []
    else KeptFrames(ts[..|ts| - 1], keep) + (if keep(ts[|ts| - 1]) then [Wrap(ts[|ts| - 1])] else [])
  }

  /** The frames written for the tokens, in order: even tokens only. */
  function EvenFrames(ts: seq<string>): seq<string>
  {
    KeptFrames(ts, NumberIsEven)
  }

  /** Filtering a joined token list filters each part in order. */
  lemma {:induction false} EvenFramesConcat(a: seq<string>, b: seq<string>)
    ensures EvenFrames(a + b) == EvenFrames(a) + EvenFrames(b)
    decreases |b|
  {
    if b == [] {
      assert a + b == a;
    } else {
      var b' := b[..|b| - 1];
      assert (a + b)[..|a + b| - 1] == a + b';
      EvenFramesConcat(a, b');
    }
  }

  /** One more token adds its frame, when it is even, at the end. */
  lemma EvenFramesStep(ts: seq<string>, n: nat)
    requires n < |ts|
    ensures EvenFrames(ts[..n + 1]) == EvenFrames(ts[..n]) + (if NumberIsEven(ts[n]) then [Wrap(ts[n])] else [])
  {
    assert ts[..n + 1][..n] == ts[..n];
  }

  lemma {:induction false} KeptFramesSound(ts: seq<string>, keep: string -> bool)
    ensures forall f :: f in KeptFrames(ts, keep) ==> exists i :: 0 <= i < |ts| && keep(ts[i]) && f == Wrap(ts[i])
  {
    if ts != [] {
      var n := |ts| - 1;
      var init := ts[..n];
      KeptFramesSound(init, keep);
      forall f | f in KeptFrames(ts, keep)
        ensures exists i :: 0 <= i < |ts| && keep(ts[i]) && f == Wrap(ts[i])
      {
        if f in KeptFrames(init, keep) {
          var i :| 0 <= i < |init| && keep(init[i]) && f == Wrap(init[i]);
          assert ts[i] == init[i];
        }
      }
    }
  }

  lemma {:induction false} KeptFramesComplete(ts: seq<string>, keep: string -> bool)
    ensures forall i :: 0 <= i < |ts| && keep(ts[i]) ==> Wrap(ts[i]) in KeptFrames(ts, keep)
  {
    if ts != [] {
      var n := |ts| - 1;
      var init := ts[..n];
      KeptFramesComplete(init, keep);
      forall i | 0 <= i < |ts| && keep(ts[i])
        ensures Wrap(ts[i]) in KeptFrames(ts, keep)
      {
        if i < n {
          assert init[i] == ts[i];
        }
      }
    }
  }

  /** Every frame written is that of an even token of the input. */
  lemma EvenFramesSound(ts: seq<string>)
    ensures forall f :: f in EvenFrames(ts) ==> exists i :: 0 <= i < |ts| && NumberIsEven(ts[i]) && f == Wrap(ts[i])
  {
    KeptFramesSound(ts, NumberIsEven);
  }

  /** Every even token's frame is written. */
  lemma EvenFramesComplete(ts: seq<string>)
    ensures forall i :: 0 <= i < |ts| && NumberIsEven(ts[i]) ==> Wrap(ts[i]) in EvenFrames(ts)
  {
    KeptFramesComplete(ts, NumberIsEven);
  }

  /** The frames written for a run of chunks, chunk by chunk. */
  function FramesOfChunks(chunks: seq<string>): seq<string>
  {
    if chunks == [] then []
    else FramesOfChunks(chunks[..|chunks| - 1]) + EvenFrames(Split(chunks[|chunks| - 1]))
  }

  /** The run's chunks up to c + 1 add chunk c's frames at the end. */
  lemma FramesOfChunksStep(chunks: seq<string>, c: nat)
    requires c < |chunks|
    ensures FramesOfChunks(chunks[..c + 1]) == FramesOfChunks(chunks[..c]) + EvenFrames(Split(chunks[c]))
  {
    assert chunks[..c + 1][..c] == chunks[..c];
  }

  /** Some write numbered lo .. hi - 1 returned false. */
  predicate SomeRefused(accepts: nat -> bool, lo: nat, hi: nat)
  {
    exists k :: lo <= k < hi && !accepts(k)
  }

  lemma SomeRefusedStep(accepts: nat -> bool, lo: nat, hi: nat)
    requires lo <= hi
    ensures SomeRefused(accepts, lo, hi + 1) <==> SomeRefused(accepts, lo, hi) || !accepts(hi)
  {
    if !accepts(hi) {
      assert lo <= hi < hi + 1 && !accepts(hi);
    }
  }

  /** The listeners between the file reader and the file writer. */
  class Pipe {
    /** The strings passed to writableStream.write, in order. */
    var written: seq<string>
    var readerPaused: bool
    var writerEnded: bool
    var readClosed: bool
    var writeClosed: bool

    constructor ()
      ensures written == [] && !readerPaused && !writerEnded && !readClosed && !writeClosed
    {
      written := [];
      readerPaused := false;
      writerEnded := false;
      readClosed := false;
      writeClosed := false;
    }

    /** "data": write the even tokens of the chunk in order. A false write
        pauses the reader, but the loop still writes the rest of the chunk's
        even tokens. A paused reader emits no data. */
    method OnData(chunk: string, accepts: nat -> bool)
      requires !readerPaused
      modifies this`written, this`readerPaused
      ensures written == old(written) + EvenFrames(Split(chunk))
      ensures readerPaused <==> SomeRefused(accepts, old(|written|), |written|)
    {
      var numbers := Split(chunk);
      ghost var before := written;
      for n := 0 to |numbers|
        invariant written == before + EvenFrames(numbers[..n])
        invariant readerPaused <==> SomeRefused(accepts, |before|, |written|)
      {
        EvenFramesStep(numbers, n);
        AppendAssoc(before, EvenFrames(numbers[..n]), if NumberIsEven(numbers[n]) then [Wrap(numbers[n])] else []);
        SomeRefusedStep(accepts, |before|, |written|);
        WriteToken(numbers[n], accepts);
      }
      assert numbers[..|numbers|] == numbers;
    }

    /** One turn of the loop: an even token is written, and a false write
        pauses the reader. */
    method WriteToken(number: string, accepts: nat -> bool)
      modifies this`written, this`readerPaused
      ensures written == old(written) + if NumberIsEven(number) then [Wrap(number)] else []
      ensures readerPaused == (old(readerPaused) || (NumberIsEven(number) && !accepts(old(|written|))))
    {
      if NumberIsEven(number) {
        written := written + [Wrap(number)];
        var canContinue := accepts(|written| - 1);
        if !canContinue {
          readerPaused := true;
        }
      }
    }

    /** "drain": resume the reader. */
    method OnDrain()
      modifies this`readerPaused
      ensures !readerPaused
    {
      readerPaused := false;
    }

    /** "end" on the reader: end the writer, then close both file handles. */
    method OnEnd()
      modifies this`writerEnded, this`readClosed, this`writeClosed
      ensures writerEnded && readClosed && writeClosed
    {
      writerEnded := true;
      readClosed := true;
      writeClosed := true;
    }
  }

  /** One chunk of the run: a paused reader is first resumed by "drain",
      then the chunk's "data" event is handled. */
  method Deliver(pipe: Pipe, chunk: string, accepts: nat -> bool)
    modifies pipe`written, pipe`readerPaused
    ensures pipe.written == old(pipe.written) + EvenFrames(Split(chunk))
  {
    if pipe.readerPaused {
      pipe.OnDrain();
    }
    pipe.OnData(chunk, accepts);
  }

  /** A whole run over the chunks the reader produces, with a drain after
      every pause: the output is each chunk's even tokens, chunk after chunk,
      and both files are closed. */
  method Run(chunks: seq<string>, accepts: nat -> bool) returns (written: seq<string>, closed: bool)
    ensures written == FramesOfChunks(chunks)
    ensures closed
  {
    var pipe := new Pipe();
    for c := 0 to |chunks|
      invariant pipe.written == FramesOfChunks(chunks[..c])
    {
      Deliver(pipe, chunks[c], accepts);
      FramesOfChunksStep(chunks, c);
    }
    assert chunks[..|chunks|] == chunks;
    pipe.OnEnd();
    written, closed := pipe.written, pipe.readClosed && pipe.writeClosed;
  }
}
