/** FileReadStream and the data/drain/end relay of
    03Streams/05custom-readable/custom-readable.js. The reader pulls chunks by
    positional fs.read calls from an offset it tracks itself; the relay feeds
    every chunk to a FileWriteStream and pauses the reader while the writer
    asks it to. The file is a byte sequence that does not change while it is
    read. */
module CustomReadable {
  import opened Common

  /** What one _read call does with the stream: push a chunk, push the end
      marker (null), or destroy the stream with a read error. */
  datatype ReadStep = Pushed(chunk: Chunk) | PushedEnd | Destroyed(error: IoError)

  /** How many bytes a positional read of `size` bytes at `position` returns. */
  function BytesAvailable(content: Chunk, position: nat, size: nat): (n: nat)
    requires position <= |content|
    ensures n <= size && position + n <= |content|
    ensures n < size ==> position + n == |content|
  {
    Min(size, |content| - position)
  }

  class FileReadStream {
    const filename: string
    /** The bytes of the file being read. */
    const content: Chunk
    var fd: Option<nat>
    /** Offset of the next read; every byte before it has been pushed. */
    var position: nat
    var closed: bool

    constructor (filename: string, content: Chunk)
      ensures this.filename == filename && this.content == content
      ensures fd == None && position == 0 && !closed
    {
      this.filename := filename;
      this.content := content;
      fd := None;
      position := 0;
      closed := false;
    }

    /** _construct: `outcome` is what fs.open(filename, "r") gives back. */
    method Construct(outcome: Result<nat>) returns (err: Option<IoError>)
      modifies this`fd
      ensures outcome.Ok? ==> fd == Some(outcome.value) && err == None
      ensures outcome.Err? ==> fd == old(fd) && err == Some(outcome.error)
    {
      if outcome.Err? {
        return Some(outcome.error);
      }
      fd := Some(outcome.value);
      err := None;
    }

    /** _read(size): read up to `size` bytes at `position` into a fresh
        Buffer.alloc(size). A non-empty read advances `position` by the bytes
        read and pushes exactly those bytes (a subarray when the read is short,
        the whole buffer when it is full); an empty read pushes the end marker.
        `err` is the error fs.read reports, if any. */
    method Read(size: nat, err: Option<IoError>) returns (step: ReadStep)
      requires position <= |content|
      modifies this`position
      ensures position <= |content|
      ensures err.Some? ==> step == Destroyed(err.value) && position == old(position)
      ensures err.None? && BytesAvailable(content, old(position), size) > 0 ==>
                && position == old(position) + BytesAvailable(content, old(position), size)
                && step == Pushed(content[old(position)..position])
      ensures err.None? && BytesAvailable(content, old(position), size) == 0 ==>
                step == PushedEnd && position == old(position)
    {
      var buffer := Zeros(size);
      if err.Some? {
        return Destroyed(err.value);
      }
      var bytesRead := BytesAvailable(content, position, size);
      buffer := content[position..position + bytesRead] + buffer[bytesRead..];
      if bytesRead > 0 {
        position := position + bytesRead;
        if size != bytesRead {
          step := Pushed(buffer[..bytesRead]);
        } else {
          step := Pushed(buffer);
        }
      } else {
        step := PushedEnd;
      }
    }

    /** _destroy: close `fd` when it is set; report the error the stream was
        destroyed with in preference to the close error. */
    method Destroy(err: Option<IoError>, closeErr: Option<IoError>) returns (reported: Option<IoError>)
      modifies this`closed
      ensures closed == (old(closed) || Truthy(fd))
      ensures Truthy(fd) && err.Some? ==> reported == err
      ensures Truthy(fd) && err.None? ==> reported == closeErr
      ensures !Truthy(fd) ==> reported == err
    {
      if Truthy(fd) {
        closed := true;
        reported := if err.Some? then err else closeErr;
      } else {
        reported := err;
      }
    }
  }

  /** The three listeners wired between the reader and the writer. */
  class Relay {
    /** Chunks handed to writeStream.write, in order. */
    var forwarded: seq<Chunk>
    var readerPaused: bool
    var writerEnded: bool

    constructor ()
      ensures forwarded == [] && !readerPaused && !writerEnded
    {
      forwarded := [];
      readerPaused := false;
      writerEnded := false;
    }

    /** "data": forward the chunk; `canContinue` is what write returned. A
        paused reader emits no data. */
    method OnData(chunk: Chunk, canContinue: bool)
      requires !readerPaused
      modifies this`forwarded, this`readerPaused
      ensures forwarded == old(forwarded) + [chunk]
      ensures readerPaused == !canContinue
    {
      forwarded := forwarded + [chunk];
      if !canContinue {
        readerPaused := true;
      }
    }

    /** "drain" on the writer: resume the reader. */
    method OnDrain()
      modifies this`readerPaused
      ensures !readerPaused
    {
      readerPaused := false;
    }

    /** "end" on the reader: end the writer. */
    method OnEnd()
      modifies this`writerEnded
      ensures writerEnded
    {
      writerEnded := true;
    }
  }

  /** The relay has forwarded, in chunks of 1 .. size bytes, exactly the
      bytes before the reader's position. */
  ghost predicate Copied(reader: FileReadStream, relay: Relay, size: nat)
    reads reader, relay
  {
    && reader.position <= |reader.content|
    && Concat(relay.forwarded) == reader.content[..reader.position]
    && forall k :: 0 <= k < |relay.forwarded| ==> 0 < |relay.forwarded[k]| <= size
  }

  /** One turn of a copy: resume a paused reader, read, and hand what was
      read to the relay ("data", or "end" once the file is exhausted). */
  method CopyTurn(reader: FileReadStream, relay: Relay, size: nat, accepts: nat -> bool) returns (done: bool)
    requires Copied(reader, relay, size) && size > 0
    modifies reader`position, relay`forwarded, relay`readerPaused, relay`writerEnded
    ensures Copied(reader, relay, size)
    ensures done ==> reader.position == |reader.content| && relay.writerEnded
    ensures !done ==> reader.position > old(reader.position)
  {
    if relay.readerPaused {
      relay.OnDrain();
    }
    var p := reader.position;
    var step := reader.Read(size, None);
    match step {
      case Pushed(chunk) =>
        ConcatAppend(relay.forwarded, chunk);
        assert reader.content[..p] + chunk == reader.content[..reader.position];
        relay.OnData(chunk, accepts(|relay.forwarded|));
        done := false;
      case PushedEnd =>
        relay.OnEnd();
        done := true;
    }
  }

  /** A whole copy run: the reader is pulled `size` bytes at a time while the
      relay forwards each chunk; write results come from `accepts` (the
      result of the k-th write), and every false is followed by one drain.
      The forwarded chunks, joined, are the whole file, and the writer is
      ended. */
  method CopyFile(content: Chunk, size: nat, accepts: nat -> bool) returns (forwarded: seq<Chunk>, ended: bool)
    requires size > 0
    ensures Concat(forwarded) == content
    ensures ended
    ensures forall k :: 0 <= k < |forwarded| ==> 0 < |forwarded[k]| <= size
  {
    var reader := new FileReadStream("src.txt", content);
    var relay := new Relay();
    var done := false;
    while !done
      invariant Copied(reader, relay, size) && reader.content == content
      invariant done ==> reader.position == |content| && relay.writerEnded
      decreases |content| - reader.position, !done
    {
      done := CopyTurn(reader, relay, size, accepts);
    }
    assert content[..|content|] == content;
    forwarded, ended := relay.forwarded, relay.writerEnded;
  }
}
