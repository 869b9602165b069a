/** The uploader client (04Networking/03uploader/client.js): it sends the
    header `fileName:<name>`, then streams the file onto the socket, pausing
    the file stream while the socket asks for backpressure, half-closes the
    socket when the file is done, and aborts on a server frame starting with
    `ERROR:`. Socket frames are strings with one character per byte. */
module UploaderClient {
  import opened Common
  import opened JsString

  const HeaderMarker: string := "fileName:"
  const ErrorPrefix: string := "ERROR:"

  /** The header frame: `fileName:${fileName}`. */
  function Header(fileName: string): (h: string)
    ensures StartsWith(h, HeaderMarker) && h[|HeaderMarker|..] == fileName
  {
    HeaderMarker + fileName
  }

  /** Whether a server frame reports a failure. */
  predicate IsErrorFrame(msg: string)
  {
    StartsWith(msg, ErrorPrefix)
  }

  /** The teardown actions, recorded in the order they are taken. */
  datatype Teardown = EndSocket | CloseFile

  class Client {
    /** The frames passed to client.write, in order. */
    var sent: seq<string>
    var totalBytesWritten: nat
    /** Whether the connect callback got past the header (file open, header sent). */
    var started: bool
    var fileStreamPaused: bool
    /** Whether the catch block ran (process.exit). */
    var exited: bool
    var teardown: seq<Teardown>

    /** Before the start nothing is sent; afterwards the header comes first
        and totalBytesWritten counts the bytes of every later frame. */
    ghost predicate Valid()
      reads this
    {
      && (!started ==> sent == [] && totalBytesWritten == 0)
      && (started ==> |sent| >= 1 && StartsWith(sent[0], HeaderMarker)
                      && totalBytesWritten == TotalLength(sent[1..]))
    }

    constructor ()
      ensures Valid() && sent == [] && totalBytesWritten == 0 && !started
      ensures !fileStreamPaused && !exited && teardown == []
    {
      sent := [];
      totalBytesWritten := 0;
      started := false;
      fileStreamPaused := false;
      exited := false;
      teardown := [];
    }

    /** The connect callback. `filePath` is process.argv[2]; `baseName` is
        what path.basename gives for it; `openError` is the error fs.open
        or stat throws, if any. With no path (absent or empty) the connection is ended and
        no header is sent; an open failure lands in the catch block. */
    method Connect(filePath: Option<string>, baseName: string, openError: Option<IoError>)
      requires Valid() && !started && !exited && teardown == []
      modifies this`sent, this`started, this`exited, this`teardown
      ensures Valid()
      ensures filePath.None? || filePath == Some("") ==>
                sent == [] && !started && teardown == [EndSocket] && !exited
      ensures filePath.Some? && filePath != Some("") && openError.Some? ==>
                sent == [] && !started && teardown == [] && exited
      ensures filePath.Some? && filePath != Some("") && openError.None? ==>
                sent == [Header(baseName)] && started && teardown == [] && !exited
    {
      if filePath.None? || filePath == Some("") {
        teardown := teardown + [EndSocket];
        return;
      }
      if openError.Some? {
        exited := true;
        return;
      }
      sent := sent + [Header(baseName)];
      started := true;
    }

    /** "data" on the file stream: send the chunk, count its bytes, and pause
        the file stream when the write returns false. A paused stream emits
        no data. */
    method OnFileData(data: string, canWrite: bool)
      requires Valid() && started && !fileStreamPaused
      modifies this`sent, this`totalBytesWritten, this`fileStreamPaused
      ensures Valid()
      ensures sent == old(sent) + [data]
      ensures totalBytesWritten == old(totalBytesWritten) + |data|
      ensures fileStreamPaused == !canWrite
    {
      ConcatAppend(sent[1..], data);
      assert (sent + [data])[1..] == sent[1..] + [data];
      sent := sent + [data];
      totalBytesWritten := totalBytesWritten + |data|;
      if !canWrite {
        fileStreamPaused := true;
      }
    }

    /** "drain" on the socket: resume the file stream. */
    method OnDrain()
      requires started
      modifies this`fileStreamPaused
      ensures !fileStreamPaused
    {
      fileStreamPaused := false;
    }

    /** "end" on the file stream: half-close the socket, then close the file. */
    method OnFileEnd()
      requires started
      modifies this`teardown
      ensures teardown == old(teardown) + [EndSocket, CloseFile]
    {
      teardown := teardown + [EndSocket, CloseFile];
    }

    /** "data" on the socket: a frame starting with `ERROR:` ends the socket
        and closes the file; any other frame is only logged. */
    method OnServerData(msg: string) returns (aborted: bool)
      requires started
      modifies this`teardown
      ensures aborted <==> IsErrorFrame(msg)
      ensures teardown == old(teardown) + (if aborted then [EndSocket, CloseFile] else [])
    {
      if StartsWith(msg, ErrorPrefix) {
        teardown := teardown + [EndSocket, CloseFile];
        aborted := true;
      } else {
        aborted := false;
      }
    }
  }

  /** A whole upload: the header, then every chunk of the file, with a drain
      after each pause. The header is the first frame, the file's chunks
      follow it unchanged and in order, and totalBytesWritten is the file
      size. */
  method Upload(baseName: string, chunks: seq<string>, accepts: nat -> bool)
    returns (sent: seq<string>, total: nat)
    ensures sent == [Header(baseName)] + chunks
    ensures total == TotalLength(chunks) == |Concat(chunks)|
  {
    var c := new Client();
    c.Connect(Some("./" + baseName), baseName, None);
    for k := 0 to |chunks|
      invariant c.Valid() && c.started
      invariant c.sent == [Header(baseName)] + chunks[..k]
    {
      if c.fileStreamPaused {
        c.OnDrain();
      }
      c.OnFileData(chunks[k], accepts(k));
      assert chunks[..k + 1] == chunks[..k] + [chunks[k]];
    }
    c.OnFileEnd();
    assert chunks[..|chunks|] == chunks;
    assert c.sent[1..] == chunks;
    sent, total := c.sent, c.totalBytesWritten;
  }
}
