/** One connection of the uploader server (04Networking/03uploader/server.js).
    It has two states: header-expected and ready. In the first, the chunk's
    text must contain `fileName:`. The name after it is opened for writing,
    or the error frame goes back and the socket is ended. In the ready state
    every chunk goes to the file stream, and the socket is paused while that
    stream asks for backpressure. Socket chunks are strings with one
    character per byte. */
module UploaderServer {
  import opened Common
  import opened JsString
  import UploaderClient

  /** The frame sent back for a chunk without the marker. */
  const ErrorFrame: string := "ERROR: Invalid header. Expected 'fileName:'\n"

  /** The header parse: the name after the first `fileName:`, if any. */
  function ParseHeader(text: string): Option<string>
  {
    if !Includes(text, UploaderClient.HeaderMarker) then None
    else Some(TextAfter(text, UploaderClient.HeaderMarker))
  }

  /** With no `fileName:` in the text there is no name. Otherwise the name is
      everything after the first `fileName:`, up to the end of the chunk;
      text before the marker is dropped. */
  lemma ParseHeaderFindsMarker(text: string)
    ensures ParseHeader(text).None? <==> forall j :: !OccursAt(text, UploaderClient.HeaderMarker, j)
    ensures ParseHeader(text).Some? ==>
              var name, m := ParseHeader(text).value, |UploaderClient.HeaderMarker|;
              && |name| + m <= |text| && name == text[|text| - |name|..]
              && OccursAt(text, UploaderClient.HeaderMarker, |text| - |name| - m)
              && forall j :: 0 <= j < |text| - |name| - m ==> !OccursAt(text, UploaderClient.HeaderMarker, j)
  {
  }

  /** A header chunk exactly as the client sends it parses back to the name. */
  lemma ServerParsesClientHeader(name: string)
    ensures ParseHeader(UploaderClient.Header(name)) == Some(name)
  {
    var h := UploaderClient.Header(name);
    assert OccursAt(h, UploaderClient.HeaderMarker, 0);
    ParseHeaderFindsMarker(h);
    var r := ParseHeader(h);
    assert |r.value| == |name|;
  }

  /** When the header and the first bytes of the file arrive as one chunk,
      those bytes become part of the name. */
  lemma CoalescedHeaderAbsorbsData(name: string, data: string)
    ensures ParseHeader(UploaderClient.Header(name) + data) == Some(name + data)
  {
    assert UploaderClient.Header(name) + data == UploaderClient.Header(name + data);
    ServerParsesClientHeader(name + data);
  }

  /** The error frame is one the client recognises as a rejection. */
  lemma ClientRecognisesErrorFrame()
    ensures UploaderClient.IsErrorFrame(ErrorFrame)
  {
    var f := ErrorFrame;
    assert f[0] == 'E';
    assert f[1] == 'R';
    assert f[2] == 'R';
    assert f[3] == 'O';
    assert f[4] == 'R';
    assert f[5] == ':';
    assert f[..6] == UploaderClient.ErrorPrefix;
  }

  /** The closure state of one connection, and what it has done so far. */
  class UploadConnection {
    var isFileHandlerCreated: bool
    /** The name the storage path was joined from, once a header parsed. */
    var storageName: Option<string>
    /** Whether fileHandler and fileStream are set. */
    var fileOpen: bool
    var socketPaused: bool
    /** Pending fileStream.once("drain") listeners. */
    var drainListeners: nat
    var socketEnded: bool
    /** The frames written to the socket, in order. */
    var outbox: seq<string>
    /** The chunks passed to fileStream.write, in order. */
    var written: seq<string>
    var fileStreamEnded: bool
    var fileStreamDestroyed: bool
    var fileClosed: bool

    /** Nothing reaches the file before the state flips; the state flips
        exactly when the file is opened under a parsed name; at most one
        drain listener is ever pending, and in the ready state the socket is
        paused exactly while one is. */
    ghost predicate Valid()
      reads this
    {
      && fileOpen == isFileHandlerCreated
      && (fileOpen ==> storageName.Some?)
      && (!isFileHandlerCreated ==> written == [] && drainListeners == 0)
      && drainListeners <= 1
      && (isFileHandlerCreated ==> (socketPaused <==> drainListeners == 1))
    }

    /** A new connection expects a header and has no file. */
    constructor ()
      ensures Valid()
      ensures !isFileHandlerCreated && storageName == None && !fileOpen
      ensures !socketPaused && drainListeners == 0 && !socketEnded
      ensures outbox == [] && written == []
      ensures !fileStreamEnded && !fileStreamDestroyed && !fileClosed
    {
      isFileHandlerCreated := false;
      storageName := None;
      fileOpen := false;
      socketPaused := false;
      drainListeners := 0;
      socketEnded := false;
      outbox := [];
      written := [];
      fileStreamEnded := false;
      fileStreamDestroyed := false;
      fileClosed := false;
    }

    /** "data" on the socket. `openError` is what fs.open rejects with, if
        anything, and `canWrite` what fileStream.write returns. A paused
        socket emits no data. */
    method OnData(data: string, openError: Option<IoError>, canWrite: bool)
      requires Valid() && !socketPaused
      modifies this`isFileHandlerCreated, this`storageName, this`fileOpen, this`socketPaused
      modifies this`drainListeners, this`socketEnded, this`outbox, this`written
      ensures Valid()
      ensures !old(isFileHandlerCreated) ==> HeaderOutcome(data, openError, old(outbox), old(socketEnded))
      ensures old(isFileHandlerCreated) ==> ChunkOutcome(data, canWrite, old(written), old(storageName), old(outbox), old(socketEnded))
    {
      if !isFileHandlerCreated {
        ReceiveHeader(data, openError);
      } else {
        ReceiveChunk(data, canWrite);
      }
    }

    /** The state after a header chunk. Without the marker the error frame
        is sent, the socket ended and no file opened. With it, the name is
        recorded; a rejected open is not handled, so the handler stops with
        the socket paused; a successful one flips the state and resumes the
        socket. The chunk itself is never written to the file. */
    ghost predicate HeaderOutcome(data: string, openError: Option<IoError>, outbox0: seq<string>, ended0: bool)
      reads this
    {
      && written == []
      && (ParseHeader(data).None? ==>
            && outbox == outbox0 + [ErrorFrame] && socketEnded && socketPaused
            && !isFileHandlerCreated && !fileOpen)
      && (ParseHeader(data).Some? ==>
            && storageName == ParseHeader(data) && outbox == outbox0 && socketEnded == ended0
            && isFileHandlerCreated == openError.None? && fileOpen == openError.None?
            && socketPaused == openError.Some?)
    }

    /** The state after a chunk in the ready state: it is appended to what
        the file stream was given, and a false write pauses the socket with
        one drain listener pending. */
    ghost predicate ChunkOutcome(data: string, canWrite: bool, written0: seq<string>,
                                 name0: Option<string>, outbox0: seq<string>, ended0: bool)
      reads this
    {
      && isFileHandlerCreated && storageName == name0 && outbox == outbox0 && socketEnded == ended0
      && written == written0 + [data] && socketPaused == !canWrite
      && drainListeners == (if canWrite then 0 else 1)
    }

    /** The branch taken while no file handler exists: read the header. */
    method ReceiveHeader(data: string, openError: Option<IoError>)
      requires Valid() && !isFileHandlerCreated
      modifies this`isFileHandlerCreated, this`storageName, this`fileOpen, this`socketPaused
      modifies this`socketEnded, this`outbox
      ensures Valid()
      ensures HeaderOutcome(data, openError, old(outbox), old(socketEnded))
    {
      socketPaused := true;
      var fileName := ParseHeader(data);
      if fileName.None? {
        // the write's callback ends the socket
        outbox := outbox + [ErrorFrame];
        socketEnded := true;
        return;
      }
      storageName := fileName;
      if openError.Some? {
        return;
      }
      fileOpen := true;
      isFileHandlerCreated := true;
      socketPaused := false;
    }

    /** The branch taken once the file stream exists: hand it the chunk. */
    method ReceiveChunk(data: string, canWrite: bool)
      requires Valid() && isFileHandlerCreated && !socketPaused
      modifies this`socketPaused, this`drainListeners, this`written
      ensures Valid()
      ensures ChunkOutcome(data, canWrite, old(written), storageName, outbox, socketEnded)
    {
      written := written + [data];
      if !canWrite {
        socketPaused := true;
        drainListeners := drainListeners + 1;
      }
    }

    /** "drain" on the file stream: each pending once-listener resumes the
        socket and is removed. */
    method OnFileDrain()
      requires Valid()
      modifies this`socketPaused, this`drainListeners
      ensures Valid() && drainListeners == 0
      ensures socketPaused == (old(socketPaused) && old(drainListeners) == 0)
    {
      if drainListeners > 0 {
        socketPaused := false;
        drainListeners := 0;
      }
    }

    /** "end" on the socket: end the file stream and close the handle, each
        only if it exists. */
    method OnEnd()
      modifies this`fileStreamEnded, this`fileClosed
      ensures fileStreamEnded == (old(fileStreamEnded) || fileOpen)
      ensures fileClosed == (old(fileClosed) || fileOpen)
    {
      if fileOpen {
        fileStreamEnded := true;
        fileClosed := true;
      }
    }

    /** "error" on the socket: destroy the file stream and close the handle,
        each only if it exists. */
    method OnError()
      modifies this`fileStreamDestroyed, this`fileClosed
      ensures fileStreamDestroyed == (old(fileStreamDestroyed) || fileOpen)
      ensures fileClosed == (old(fileClosed) || fileOpen)
    {
      if fileOpen {
        fileStreamDestroyed := true;
        fileClosed := true;
      }
    }
  }

  /** A first chunk without the marker: the only frame sent back is the error
      frame, the socket is ended, and no file is opened. */
  method RejectHeader(first: string) returns (outbox: seq<string>, ended: bool, fileOpen: bool)
    requires !Includes(first, UploaderClient.HeaderMarker)
    ensures outbox == [ErrorFrame] && ended && !fileOpen
  {
    var conn := new UploadConnection();
    conn.OnData(first, None, true);
    outbox, ended, fileOpen := conn.outbox, conn.socketEnded, conn.fileOpen;
  }

  /** A whole upload, each client write arriving as one chunk: the client's
      frames fed to one connection, with a drain after every pause. The file
      is stored under the client's base name, receives exactly the client's
      file chunks in order (never the header), and is closed at the end. */
  method Transfer(baseName: string, chunks: seq<string>, clientAccepts: nat -> bool, serverAccepts: nat -> bool)
    returns (stored: Option<string>, written: seq<string>, closed: bool)
    ensures stored == Some(baseName)
    ensures written == chunks
    ensures closed
  {
    var frames, _ := UploaderClient.Upload(baseName, chunks, clientAccepts);
    var conn := new UploadConnection();
    ServerParsesClientHeader(baseName);
    conn.OnData(frames[0], None, true);
    for k := 1 to |frames|
      invariant conn.Valid() && conn.isFileHandlerCreated && conn.storageName == Some(baseName)
      invariant conn.written == frames[1..k]
    {
      if conn.socketPaused {
        conn.OnFileDrain();
      }
      conn.OnData(frames[k], None, serverAccepts(k - 1));
      assert frames[1..k + 1] == frames[1..k] + [frames[k]];
    }
    conn.OnEnd();
    assert frames[1..] == chunks;
    stored, written, closed := conn.storageName, conn.written, conn.fileClosed;
  }
}
