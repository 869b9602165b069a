/** FileWriteStream (03Streams/04custom-writable/custom-writable.js): a
    Writable that gathers chunks in memory and hands them to the file in one
    fs.write once at least highWaterMark bytes are buffered, plus whatever is
    left when the stream ends. The identical copy of the class in
    03Streams/05custom-readable/custom-readable.js:4-84 is modelled by the
    same class.

    Every fs.write is split in two steps: the method that issues it (Write,
    Final) leaves its Buffer in `inFlight`, and CompleteFlush (or
    CompleteFlushAsWritten) is the completion callback. */
module CustomWritable {
  import opened Common

  class FileWriteStream {
    const filename: string
    /** writableHighWaterMark, as passed to the constructor. */
    const highWaterMark: nat
    var fd: Option<nat>
    var chunks: seq<Chunk>
    var chunkSize: nat
    var numberOfWrites: nat
    /** The Buffer handed to fs.write whose callback has not run yet. */
    var inFlight: Option<Chunk>
    /** The contents of the file behind `fd`. */
    var disk: Chunk
    /** Whether _destroy has closed `fd`. */
    var closed: bool
    /** Every chunk _write has been given, in order. */
    ghost var accepted: seq<Chunk>

    /** chunkSize counts the buffered bytes; a write in flight carries exactly
        the buffered chunks; nothing accepted is lost or duplicated: the file
        followed by the buffer is everything accepted, in order. */
    ghost predicate Valid()
      reads this
    {
      && chunkSize == TotalLength(chunks)
      && (inFlight.Some? ==> inFlight.value == Concat(chunks))
      && disk + Concat(chunks) == Concat(accepted)
    }

    constructor (filename: string, highWaterMark: nat)
      ensures Valid()
      ensures this.filename == filename && this.highWaterMark == highWaterMark
      ensures fd == None && chunks == [] && chunkSize == 0 && numberOfWrites == 0
      ensures inFlight == None && disk == [] && !closed && accepted == []
    {
      this.filename := filename;
      this.highWaterMark := highWaterMark;
      fd := None;
      chunks := [];
      chunkSize := 0;
      numberOfWrites := 0;
      inFlight := None;
      disk := [];
      closed := false;
      accepted := [];
    }

    /** _construct: `outcome` is what fs.open(filename, "w") gives back. */
    method Construct(outcome: Result<nat>) returns (err: Option<IoError>)
      modifies this`fd
      ensures outcome.Ok? ==> fd == Some(outcome.value) && err == None
      ensures outcome.Err? ==> fd == old(fd) && err == Some(outcome.error)
    {
      if outcome.Err? {
        return Some(outcome.error);
      }
      fd := Some(outcome.value);
      err := None;
    }

    /** _write: buffer the chunk; once the buffer holds highWaterMark bytes or
        more, issue one fs.write of all of it, and otherwise call back at once.
        `called` tells whether the callback ran synchronously. Node never calls
        _write while an earlier one has not called back. */
    method Write(chunk: Chunk) returns (called: bool)
      requires inFlight.None?
      modifies this`chunks, this`chunkSize, this`inFlight, this`accepted
      ensures chunks == old(chunks) + [chunk]
      ensures chunkSize == old(chunkSize) + |chunk|
      ensures accepted == old(accepted) + [chunk]
      ensures called <==> chunkSize < highWaterMark
      ensures inFlight == if called then None else Some(Concat(chunks))
      ensures old(Valid()) ==> Valid()
    {
      chunkSize := chunkSize + |chunk|;
      chunks := chunks + [chunk];
      accepted := accepted + [chunk];
      ConcatAppend(old(chunks), chunk);
      if old(Valid()) {
        BufferAppend(disk, old(chunks), old(accepted), chunk);
      }
      if chunkSize >= highWaterMark {
        inFlight := Some(Concat(chunks));
        called := false;
      } else {
        called := true;
      }
    }

    /** Completion of a flush, with the buffer reset done BEFORE the callback
        (the order _final uses), so no later _write can see the flushed
        chunks. `err` is what fs.write reports. A failure reports the error
        and changes neither the file nor the buffer nor the count. */
    method CompleteFlush(err: Option<IoError>) returns (reported: Option<IoError>)
      requires Valid() && inFlight.Some?
      modifies this`chunks, this`chunkSize, this`numberOfWrites, this`inFlight, this`disk
      ensures Valid() && inFlight == None && reported == err
      ensures err.Some? ==> disk == old(disk) && chunks == old(chunks)
                            && chunkSize == old(chunkSize) && numberOfWrites == old(numberOfWrites)
      ensures err.None? ==> disk == old(disk) + old(Concat(chunks)) && chunks == [] && chunkSize == 0
                            && numberOfWrites == old(numberOfWrites) + 1
    {
      var data := inFlight.value;
      inFlight := None;
      if err.Some? {
        return err;
      }
      disk := disk + data;
      chunks := [];
      chunkSize := 0;
      numberOfWrites := numberOfWrites + 1;
      reported := None;
    }

    /** Successful completion of the flush issued by _write, in the source's
        statement order: the data lands, callback() runs, and only then are
        chunks, chunkSize and numberOfWrites reset. When Node holds a further
        buffered chunk, callback() hands it to _write before returning;
        `reentrant` is that chunk. */
    method CompleteFlushAsWritten(reentrant: Option<Chunk>)
      requires inFlight.Some?
      modifies this`chunks, this`chunkSize, this`numberOfWrites, this`inFlight, this`disk, this`accepted
      ensures disk == old(disk) + old(inFlight.value)
      ensures chunks == [] && chunkSize == 0 && numberOfWrites == old(numberOfWrites) + 1
      ensures reentrant.None? ==> inFlight == None && accepted == old(accepted)
      ensures reentrant.Some? ==>
                && accepted == old(accepted) + [reentrant.value]
                && inFlight == if old(chunkSize) + |reentrant.value| >= highWaterMark
                               then Some(Concat(old(chunks) + [reentrant.value]))
                               else None
    {
      var data := inFlight.value;
      inFlight := None;
      disk := disk + data;
      if reentrant.Some? {
        var _ := Write(reentrant.value);
      }
      chunks := [];
      chunkSize := 0;
      numberOfWrites := numberOfWrites + 1;
    }

    /** _final: flush the remainder when any chunk is buffered; otherwise call
        back at once without writing. */
    method Final() returns (called: bool)
      requires inFlight.None?
      modifies this`inFlight
      ensures called <==> |chunks| == 0
      ensures inFlight == if called then None else Some(Concat(chunks))
      ensures old(Valid()) ==> Valid()
    {
      if |chunks| > 0 {
        inFlight := Some(Concat(chunks));
        called := false;
      } else {
        called := true;
      }
    }

    /** _destroy: close `fd` when it is set; report the close error in
        preference to the error the stream was destroyed with. `closeErr` is
        what fs.close would report. */
    method Destroy(error: Option<IoError>, closeErr: Option<IoError>) returns (reported: Option<IoError>)
      modifies this`closed
      ensures closed == (old(closed) || Truthy(fd))
      ensures Truthy(fd) && closeErr.Some? ==> reported == closeErr
      ensures Truthy(fd) && closeErr.None? ==> reported == error
      ensures !Truthy(fd) ==> reported == error
    {
      if Truthy(fd) {
        closed := true;
        reported := if closeErr.Some? then closeErr else error;
      } else {
        reported := error;
      }
    }
  }

  /** Writing `input` chunk by chunk and then ending the stream, with every
      flush completing (reset first) before the next _write, leaves on disk
      exactly the concatenation of the input: nothing lost, nothing twice. */
  method WriteAll(highWaterMark: nat, input: seq<Chunk>) returns (disk: Chunk)
    ensures disk == Concat(input)
  {
    var s := new FileWriteStream("text.txt", highWaterMark);
    var k := 0;
    while k < |input|
      invariant 0 <= k <= |input|
      invariant s.Valid() && s.inFlight.None?
      invariant s.accepted == input[..k]
    {
      var called := s.Write(input[k]);
      if !called {
        var _ := s.CompleteFlush(None);
      }
      assert input[..k + 1] == input[..k] + [input[k]];
      k := k + 1;
    }
    assert input[..k] == input;
    var called := s.Final();
    if !called {
      var _ := s.CompleteFlush(None);
    }
    disk := s.disk;
  }

  /** With highWaterMark 1, write [1] (its flush is issued), then complete
      that flush in the source's order while Node re-enters _write with [2]:
      the file ends up holding [1, 1, 2] although only [1] and [2] were
      written. */
  method DuplicationWitness() returns (disk: Chunk)
    ensures disk == [1, 1, 2]
    ensures disk != Concat<u8>([[1], [2]])
  {
    var s := new FileWriteStream("text.txt", 1);
    var called := s.Write([1]);
    s.CompleteFlushAsWritten(Some([2]));
    s.CompleteFlushAsWritten(None);
    disk := s.disk;
    assert Concat<u8>([[1], [2]]) == [1, 2];
  }

  /** The same run with the reset ordered before the callback writes [1, 2]. */
  method CorrectedOrderWitness() returns (disk: Chunk)
    ensures disk == [1, 2]
  {
    var s := new FileWriteStream("text.txt", 1);
    var called := s.Write([1]);
    var reported := s.CompleteFlush(None);
    called := s.Write([2]);
    reported := s.CompleteFlush(None);
    disk := s.disk;
  }
}
