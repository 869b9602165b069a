/** DuplexStream (03Streams/06custom-duplex/custom-duplex.js): one object that
    reads one file positionally and buffers writes to another. The two
    directions share nothing but their lifetime: the read side owns
    `readFd` and `position`, the write side `writeFd`, `chunks` and
    `chunkSize`. As in CustomWritable, each fs.write is issued by one method
    and completed by CompleteFlush. */
module CustomDuplex {
  import opened Common
  import CustomReadable

  class DuplexStream {
    const readFileName: string
    const writeFileName: string
    const writableHighWaterMark: nat
    /** The bytes of the file being read. */
    const readContent: Chunk
    var readFd: Option<nat>
    var writeFd: Option<nat>
    var position: nat
    var chunks: seq<Chunk>
    var chunkSize: nat
    /** The Buffer handed to fs.write whose callback has not run yet. */
    var inFlight: Option<Chunk>
    /** The contents of the file being written. */
    var writeDisk: Chunk
    var readClosed: bool
    var writeClosed: bool
    /** Every chunk _write has been given, in order. */
    ghost var accepted: seq<Chunk>

    /** The write side's invariant: chunkSize counts the buffer, a write in
        flight carries the buffer, and the written file followed by the buffer
        is everything accepted. The read side never passes the end of file. */
    ghost predicate Valid()
      reads this
    {
      && chunkSize == TotalLength(chunks)
      && (inFlight.Some? ==> inFlight.value == Concat(chunks))
      && writeDisk + Concat(chunks) == Concat(accepted)
      && position <= |readContent|
    }

    constructor (readFileName: string, writeFileName: string, writableHighWaterMark: nat, readContent: Chunk)
      ensures Valid()
      ensures this.readFileName == readFileName && this.writeFileName == writeFileName
      ensures this.writableHighWaterMark == writableHighWaterMark && this.readContent == readContent
      ensures readFd == None && writeFd == None && position == 0 && chunks == [] && chunkSize == 0
      ensures inFlight == None && writeDisk == [] && !readClosed && !writeClosed && accepted == []
    {
      this.readFileName := readFileName;
      this.writeFileName := writeFileName;
      this.writableHighWaterMark := writableHighWaterMark;
      this.readContent := readContent;
      readFd, writeFd := None, None;
      position := 0;
      chunks, chunkSize := [], 0;
      inFlight := None;
      writeDisk := [];
      readClosed, writeClosed := false, false;
      accepted := [];
    }

    /** _construct: open the read file, and only once that succeeded open the
        write file. `readOutcome` and `writeOutcome` are what the two fs.open
        calls give back; `attempted` lists the files opened, in order. */
    method Construct(readOutcome: Result<nat>, writeOutcome: Result<nat>)
      returns (err: Option<IoError>, attempted: seq<string>)
      modifies this`readFd, this`writeFd
      ensures readOutcome.Err? ==>
                && attempted == [readFileName] && err == Some(readOutcome.error)
                && readFd == old(readFd) && writeFd == old(writeFd)
      ensures readOutcome.Ok? ==>
                && attempted == [readFileName, writeFileName] && readFd == Some(readOutcome.value)
      ensures readOutcome.Ok? && writeOutcome.Err? ==>
                err == Some(writeOutcome.error) && writeFd == old(writeFd)
      ensures readOutcome.Ok? && writeOutcome.Ok? ==>
                err == None && writeFd == Some(writeOutcome.value)
    {
      attempted := [readFileName];
      if readOutcome.Err? {
        return Some(readOutcome.error), attempted;
      }
      readFd := Some(readOutcome.value);
      attempted := attempted + [writeFileName];
      if writeOutcome.Err? {
        return Some(writeOutcome.error), attempted;
      }
      writeFd := Some(writeOutcome.value);
      err := None;
    }

    /** _write: buffer the chunk and flush the whole buffer once it holds
        writableHighWaterMark bytes or more; the read side is untouched. */
    method Write(chunk: Chunk) returns (called: bool)
      requires inFlight.None?
      modifies this`chunks, this`chunkSize, this`inFlight, this`accepted
      ensures old(Valid()) ==> Valid()
      ensures chunks == old(chunks) + [chunk] && chunkSize == old(chunkSize) + |chunk|
      ensures accepted == old(accepted) + [chunk]
      ensures called <==> chunkSize < writableHighWaterMark
      ensures inFlight == if called then None else Some(Concat(chunks))
      ensures position == old(position) && writeDisk == old(writeDisk)
    {
      chunkSize := chunkSize + |chunk|;
      chunks := chunks + [chunk];
      accepted := accepted + [chunk];
      ConcatAppend(old(chunks), chunk);
      if old(Valid()) {
        BufferAppend(writeDisk, old(chunks), old(accepted), chunk);
      }
      if chunkSize >= writableHighWaterMark {
        inFlight := Some(Concat(chunks));
        called := false;
      } else {
        called := true;
      }
    }

    /** Completion of a flush (from _write or _final), the reset done before
        the callback: on success the buffer lands in the file and both buffer
        fields are reset; on failure nothing changes but the error is
        reported. */
    method CompleteFlush(err: Option<IoError>) returns (reported: Option<IoError>)
      requires Valid() && inFlight.Some?
      modifies this`chunks, this`chunkSize, this`inFlight, this`writeDisk
      ensures Valid() && inFlight == None && reported == err
      ensures err.Some? ==> writeDisk == old(writeDisk) && chunks == old(chunks) && chunkSize == old(chunkSize)
      ensures err.None? ==> writeDisk == old(writeDisk) + old(Concat(chunks)) && chunks == [] && chunkSize == 0
      ensures position == old(position)
    {
      var data := inFlight.value;
      inFlight := None;
      if err.Some? {
        return err;
      }
      writeDisk := writeDisk + data;
      chunks := [];
      chunkSize := 0;
      reported := None;
    }

    /** Successful completion of the flush issued by _write, in the source's
        statement order: the data lands, callback() runs, and only then are
        chunks and chunkSize reset. When Node holds a further buffered chunk,
        callback() hands it to _write before returning; `reentrant` is that
        chunk. */
    method CompleteFlushAsWritten(reentrant: Option<Chunk>)
      requires inFlight.Some?
      modifies this`chunks, this`chunkSize, this`inFlight, this`writeDisk, this`accepted
      ensures writeDisk == old(writeDisk) + old(inFlight.value)
      ensures chunks == [] && chunkSize == 0 && position == old(position)
      ensures reentrant.None? ==> inFlight == None && accepted == old(accepted)
      ensures reentrant.Some? ==>
                && accepted == old(accepted) + [reentrant.value]
                && inFlight == if old(chunkSize) + |reentrant.value| >= writableHighWaterMark
                               then Some(Concat(old(chunks) + [reentrant.value]))
                               else None
    {
      var data := inFlight.value;
      inFlight := None;
      writeDisk := writeDisk + data;
      if reentrant.Some? {
        var _ := Write(reentrant.value);
      }
      chunks := [];
      chunkSize := 0;
    }

    /** _read(size): positional read on the read file; the write buffer is
        untouched. */
    method Read(size: nat, err: Option<IoError>) returns (step: CustomReadable.ReadStep)
      requires Valid()
      modifies this`position
      ensures Valid()
      ensures chunks == old(chunks) && chunkSize == old(chunkSize) && writeDisk == old(writeDisk)
      ensures err.Some? ==> step == CustomReadable.Destroyed(err.value) && position == old(position)
      ensures err.None? && CustomReadable.BytesAvailable(readContent, old(position), size) > 0 ==>
                && position == old(position) + CustomReadable.BytesAvailable(readContent, old(position), size)
                && step == CustomReadable.Pushed(readContent[old(position)..position])
      ensures err.None? && CustomReadable.BytesAvailable(readContent, old(position), size) == 0 ==>
                step == CustomReadable.PushedEnd && position == old(position)
    {
      var buffer := Zeros(size);
      if err.Some? {
        return CustomReadable.Destroyed(err.value);
      }
      var bytesRead := CustomReadable.BytesAvailable(readContent, position, size);
      buffer := readContent[position..position + bytesRead] + buffer[bytesRead..];
      if bytesRead > 0 {
        position := position + bytesRead;
        if size != bytesRead {
          step := CustomReadable.Pushed(buffer[..bytesRead]);
        } else {
          step := CustomReadable.Pushed(buffer);
        }
      } else {
        step := CustomReadable.PushedEnd;
      }
    }

    /** _final: flush a non-empty remainder; with nothing buffered call back
        without writing. */
    method Final() returns (called: bool)
      requires Valid() && inFlight.None?
      modifies this`inFlight
      ensures Valid()
      ensures called <==> |chunks| == 0
      ensures inFlight == if called then None else Some(Concat(chunks))
    {
      if |chunks| > 0 {
        inFlight := Some(Concat(chunks));
        called := false;
      } else {
        called := true;
      }
    }

    /** _destroy: close every descriptor that is set. The close callbacks
        ignore their errors, so one failing close never stops the other and
        the reported error is always the one the stream was destroyed with. */
    method Destroy(err: Option<IoError>) returns (reported: Option<IoError>)
      modifies this`readClosed, this`writeClosed
      ensures readClosed == (old(readClosed) || Truthy(readFd))
      ensures writeClosed == (old(writeClosed) || Truthy(writeFd))
      ensures reported == err
    {
      if Truthy(readFd) {
        readClosed := true;
      }
      if Truthy(writeFd) {
        writeClosed := true;
      }
      reported := err;
    }
  }

  /** One write turn: _write is given the chunk, and a flush it issues
      completes; the read side does not move. */
  method WriteTurn(d: DuplexStream, chunk: Chunk)
    requires d.Valid() && d.inFlight.None?
    modifies d`chunks, d`chunkSize, d`inFlight, d`accepted, d`writeDisk
    ensures d.Valid() && d.inFlight.None? && d.accepted == old(d.accepted) + [chunk]
    ensures d.position == old(d.position)
  {
    var called := d.Write(chunk);
    if !called {
      var _ := d.CompleteFlush(None);
    }
  }

  /** One read turn: _read(size) pushes the next bytes of the file, or
      signals its end; what was pushed so far is always the file up to the
      read position. */
  method ReadTurn(d: DuplexStream, size: nat, pushed: seq<Chunk>) returns (pushed': seq<Chunk>, done: bool)
    requires d.Valid() && size > 0 && Concat(pushed) == d.readContent[..d.position]
    modifies d`position
    ensures d.Valid() && Concat(pushed') == d.readContent[..d.position]
    ensures done ==> d.position == |d.readContent|
    ensures !done ==> d.position > old(d.position)
  {
    var p := d.position;
    var step := d.Read(size, None);
    match step {
      case Pushed(chunk) =>
        ConcatAppend(pushed, chunk);
        assert d.readContent[..p] + d.readContent[p..d.position] == d.readContent[..d.position];
        pushed', done := pushed + [chunk], false;
      case PushedEnd =>
        pushed', done := pushed, true;
    }
  }

  /** The source's order, with a writableHighWaterMark of 1: _write([1])
      issues a flush; its callback hands [2] to _write, which sees the
      not-yet-reset buffer [[1], [2]] and flushes both. The written file ends
      up [1, 1, 2], not the concatenation [1, 2] of the written chunks. */
  method DuplicationWitness() returns (written: Chunk)
    ensures written == [1, 1, 2]
    ensures written != Concat<u8>([[1], [2]])
  {
    var d := new DuplexStream("read.txt", "write.txt", 1, []);
    var called := d.Write([1]);
    assert Concat<u8>([[1]]) == [1];
    assert d.inFlight == Some([1]);
    assert Concat<u8>([[1], [2]]) == [1, 2];
    d.CompleteFlushAsWritten(Some([2]));
    assert d.writeDisk == [1] && d.inFlight == Some([1, 2]);
    d.CompleteFlushAsWritten(None);
    written := d.writeDisk;
  }

  /** Both directions driven together under round-robin interleaving, one
      write and one read per round, with every flush completed (reset first)
      before the next _write: the written file ends up as the concatenation of
      the written chunks and the pushed chunks join up to the read file,
      because neither side touches the other's fields. */
  method Interleave(readContent: Chunk, size: nat, highWaterMark: nat, input: seq<Chunk>)
    returns (pushed: seq<Chunk>, written: Chunk)
    requires size > 0
    ensures Concat(pushed) == readContent
    ensures written == Concat(input)
  {
    var d := new DuplexStream("read.txt", "write.txt", highWaterMark, readContent);
    pushed := [];
    var k := 0;
    var readDone := false;
    while k < |input| || !readDone
      invariant d.Valid() && d.inFlight.None? && d.readContent == readContent
      invariant 0 <= k <= |input| && d.accepted == input[..k]
      invariant Concat(pushed) == readContent[..d.position]
      invariant readDone ==> d.position == |readContent|
      decreases |input| - k, |readContent| - d.position, !readDone
    {
      if k < |input| {
        WriteTurn(d, input[k]);
        assert input[..k + 1] == input[..k] + [input[k]];
        k := k + 1;
      }
      if !readDone {
        pushed, readDone := ReadTurn(d, size, pushed);
      }
    }
    assert input[..k] == input;
    assert readContent[..d.position] == readContent;
    var called := d.Final();
    if !called {
      var _ := d.CompleteFlush(None);
    }
    written := d.writeDisk;
  }
}
