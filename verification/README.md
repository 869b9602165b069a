# Backpressure-controlled stream and socket demos, in Dafny

This project models the hand-written parts of a set of Node.js streaming
experiments. Each experiment relays byte chunks between files and sockets under
bounded memory, and each is modelled together with what it promises:

- **FileWriteStream** (`CustomWritable`) is a Writable that buffers chunks in
  memory. It flushes them with one `fs.write` once `writableHighWaterMark`
  bytes are held, and flushes any remainder in `_final`. `_destroy` closes
  the descriptor. The driver loop `writeMany` writes ` 1 ` … ` 1000000 `
  (`WriteMany`).
- **FileReadStream** (`CustomReadable`) is a Readable that reads a file
  positionally and pushes exactly the bytes it read. It is wired to a
  FileWriteStream by a data/drain/end relay.
- **DuplexStream** (`CustomDuplex`) reads one file and buffers writes to
  another. The two directions share only the object's lifetime.
- **Encrypt._transform** (`Encryption`) raises every byte of a chunk by one
  in place; 255 stays 255.
- **readBig** (`ReadBig`) splits each chunk's text on two spaces. It writes
  every token whose `Number()` is even, wrapped in spaces, and pauses the
  reader on backpressure.
- **The uploader protocol** (`UploaderClient`, `UploaderServer`) works as
  follows:
  - The client sends the header `fileName:<name>`, then streams the file.
  - The server parses the header from the first chunk, opens the
    destination and writes every later chunk to it.
  - A first chunk without the marker gets the error frame
    `ERROR: Invalid header. Expected 'fileName:'\n` and the socket is ended.
- **The chat app** (`ChatServer`, `ChatClient`) works as follows:
  - The server gives each connection the id `clients.length + 1` and
    announces it to the earlier clients.
  - The server parses `<id>-message-<text>` frames and broadcasts them to
    every listed client.
  - The client sends `${clientId}-message-${text}` and takes its id from the
    `id-<n>` frame.

The modelling conventions are:

- Files are byte sequences (`seq<u8>`).
- Socket traffic is `string`, one character per byte.
- The boolean that `write()` returns is an input of the model. A handler
  that writes once takes a `bool`. A handler that loops takes
  `accepts: nat -> bool`, the result of the k-th write of the run.
- The result of each `fs` call is a parameter: `Result`, `Option<IoError>`,
  or the file contents.
- Each event handler is one atomic method of a class whose fields are the
  handler's closure state.
- Node's own guarantees become preconditions. A paused stream emits no data,
  and `_write` is not called again before its callback.
- Each `fs.write` is split into the method that issues it (the buffer is
  left in `inFlight`) and `CompleteFlush`, its completion callback.

Where the code differs from the protocol's intended design, the model follows
the code:

- The flush is asynchronous. A write that reaches the threshold calls back
  only when `fs.write` completes.
- FileWriteStream's `_destroy` reports the close error in preference to the
  original error. FileReadStream's does the opposite, and DuplexStream's
  always reports the original error.
- The uploaded file's name runs to the end of the first chunk. When the
  header and the first file bytes arrive together, those bytes become part of
  the name (`UploaderServer.CoalescedHeaderAbsorbsData`).
- A rejected `fs.open` on the server is not handled. The connection stays
  paused and never becomes ready.

## Model

| member | source | states |
|---|---|---|
| Common.Truthy | 03Streams/04custom-writable/custom-writable.js:74 | JavaScript's `if (this.fd)`: an unset descriptor and the descriptor 0 are both falsy, every other descriptor truthy (also custom-readable.js:74 and 132, and the `this.readFd ?` / `this.writeFd ?` tests of custom-duplex.js:120-130) |
| Common.Concat | 03Streams/04custom-writable/custom-writable.js:38 | `Buffer.concat`: the result's length is the total length of the chunks |
| Common.Zeros | 03Streams/05custom-readable/custom-readable.js:109 | `Buffer.alloc(size)`: exactly `size` bytes, every one of them 0 (also custom-duplex.js:77) |
| Common.ConcatAppend | 03Streams/04custom-writable/custom-writable.js:34-35 | appending a chunk to the buffer appends its bytes to the concatenation and its length to `chunkSize`'s total |
| Common.ConcatJoin | 03Streams/04custom-writable/custom-writable.js:38 | concatenating two runs of chunks is concatenating their concatenations |
| CustomWritable.FileWriteStream.constructor | 03Streams/04custom-writable/custom-writable.js:5-15 | no descriptor, an empty buffer, `chunkSize` 0 and no writes yet |
| CustomWritable.FileWriteStream.Construct | 03Streams/04custom-writable/custom-writable.js:21-27 | a successful open stores the descriptor; a failed one reports its error and leaves `fd` unset |
| CustomWritable.FileWriteStream.Write | 03Streams/04custom-writable/custom-writable.js:33-48 | the chunk is appended in arrival order and `chunkSize` grows by its length; the callback runs at once exactly when `chunkSize` < highWaterMark; otherwise one flush of the whole buffer, concatenated in order, is issued; `chunkSize` = total buffered length and "file + buffer = everything accepted" are kept |
| CustomWritable.FileWriteStream.CompleteFlush | 03Streams/04custom-writable/custom-writable.js:38-44 | (reset ordered before the callback, as in lines 57-61) a successful flush appends exactly the flushed bytes to the file, empties `chunks`, zeroes `chunkSize` and adds exactly 1 to `numberOfWrites`; a failed one reports the error and changes none of them |
| CustomWritable.FileWriteStream.CompleteFlushAsWritten | 03Streams/04custom-writable/custom-writable.js:38-44 | the source's order: the flushed bytes land, a re-entrant `_write` from `callback()` sees the not-yet-reset buffer and issues a flush of old + new chunks, then the reset discards the buffer |
| CustomWritable.FileWriteStream.Final | 03Streams/04custom-writable/custom-writable.js:55-67 | writes exactly when the buffer is non-empty, and then the concatenated remainder; with an empty buffer it calls back without writing |
| CustomWritable.FileWriteStream.Destroy | 03Streams/04custom-writable/custom-writable.js:73-83 | closes `fd` only when it is truthy, and then reports the close error in preference to the original error; otherwise reports the original error |
| CustomWritable.WriteAll | 03Streams/04custom-writable/custom-writable.js:33-67 | with each flush's reset done before the next `_write`, the file after `_final` is the concatenation of all accepted chunks, each once, in order |
| CustomWritable.DuplicationWitness | 03Streams/04custom-writable/custom-writable.js:38-44 | as written, highWaterMark 1 and writes [1], [2] leave [1, 1, 2] in the file, which is not the concatenation of what was written |
| CustomWritable.CorrectedOrderWitness | 03Streams/04custom-writable/custom-writable.js:38-44 | with the reset first, the same writes leave exactly [1, 2] |
| WriteMany.Writer.constructor | 03Streams/01write-many/writeMany.js:46 | the counter starts at 1 with nothing written, the stream not ended and the file open |
| WriteMany.Frame | 03Streams/01write-many/writeMany.js:49 | `` ` ${i} ` ``: at least three characters, a space first and last |
| WriteMany.FrameHoldsDigits | 03Streams/01write-many/writeMany.js:49 | between the two spaces the frame holds exactly the decimal digits of i |
| WriteMany.FramesUpToAt | 03Streams/01write-many/writeMany.js:46-52 | the k-th frame written is that of k + 1 |
| WriteMany.FrameInjective | 03Streams/01write-many/writeMany.js:49 | different numbers give different frames |
| WriteMany.FramesDistinct | 03Streams/01write-many/writeMany.js:46-52 | no number is written twice |
| WriteMany.Writer.WriteMany | 03Streams/01write-many/writeMany.js:47-55 | continues from the current `i`; returns right after the first false write with `i` already past that number; all earlier writes of the call returned true; `end()` only once `i` has passed 1e6; the frames so far are always those of 1 .. i-1 in order |
| WriteMany.Writer.WriteNext | 03Streams/01write-many/writeMany.js:48-50 | one turn: ` ${i} ` is appended to what was written, `i` steps by one, and the write result is returned, keeping the frames those of 1 .. i-1 |
| WriteMany.Writer.OnFinish | 03Streams/01write-many/writeMany.js:58-61 | the file handle is closed on finish |
| WriteMany.Run | 03Streams/01write-many/writeMany.js:46-63 | for any sequence of write results, with a drain re-entering after each false one, exactly ` 1 ` … ` 1000000 ` are written, in increasing order |
| CustomReadable.BytesAvailable | 03Streams/05custom-readable/custom-readable.js:113 | a positional read returns at most `size` bytes, stays inside the file, and is short only at end of file |
| CustomReadable.FileReadStream.constructor | 03Streams/05custom-readable/custom-readable.js:87-93 | `position` starts at 0 with no descriptor |
| CustomReadable.FileReadStream.Construct | 03Streams/05custom-readable/custom-readable.js:96-102 | a successful open stores the descriptor; a failed one reports its error |
| CustomReadable.FileReadStream.Read | 03Streams/05custom-readable/custom-readable.js:108-128 | a read error destroys the stream with that error and pushes nothing; a non-empty read advances `position` by exactly the bytes read and pushes exactly the file bytes at the old position; a 0-byte read pushes the end marker and leaves `position` unchanged |
| CustomReadable.FileReadStream.Destroy | 03Streams/05custom-readable/custom-readable.js:131-139 | closes `fd` only when it is truthy, and then reports the original error when there is one and the close error otherwise; with no `fd` it reports the original error |
| CustomReadable.Relay.OnData | 03Streams/05custom-readable/custom-readable.js:159-164 | every chunk is forwarded to `write` in order; a false return pauses the reader |
| CustomReadable.Relay.constructor | 03Streams/05custom-readable/custom-readable.js:145-153 | nothing forwarded yet, the reader flowing and the writer not ended |
| CustomReadable.CopyTurn | 03Streams/05custom-readable/custom-readable.js:155-170 | one turn of a copy (drain, read, then "data" or "end") keeps the forwarded chunks equal to the file up to the read position, and either advances the position or ends the writer at end of file |
| CustomReadable.Relay.OnDrain | 03Streams/05custom-readable/custom-readable.js:155-157 | drain resumes the reader |
| CustomReadable.Relay.OnEnd | 03Streams/05custom-readable/custom-readable.js:166-170 | the reader's end ends the writer |
| CustomReadable.CopyFile | 03Streams/05custom-readable/custom-readable.js:108-170 | over a whole run the forwarded chunks join up to the file from offset 0 to its end, each of 1 .. size bytes, and the writer is ended |
| CustomDuplex.DuplexStream.constructor | 03Streams/06custom-duplex/custom-duplex.js:9-32 | both descriptors unset, `position` 0 and an empty write buffer |
| CustomDuplex.DuplexStream.Construct | 03Streams/06custom-duplex/custom-duplex.js:37-50 | the read file is opened first; if that fails the write file is never opened; the write file is opened only afterwards |
| CustomDuplex.DuplexStream.Write | 03Streams/06custom-duplex/custom-duplex.js:55-71 | buffers in order; a flush of the concatenated buffer is issued exactly when `chunkSize` ≥ writableHighWaterMark; `position` is untouched |
| CustomDuplex.DuplexStream.CompleteFlush | 03Streams/06custom-duplex/custom-duplex.js:61-66 | a successful flush appends exactly the buffer to the write file and resets both buffer fields; `position` is untouched |
| CustomDuplex.DuplexStream.CompleteFlushAsWritten | 03Streams/06custom-duplex/custom-duplex.js:61-66 | the source's order: the flushed bytes land, a `_write` re-entered from `callback()` sees the not-yet-reset buffer and issues a flush of old + new chunks, then the reset discards the buffer; `position` is untouched |
| CustomDuplex.DuplicationWitness | 03Streams/06custom-duplex/custom-duplex.js:55-66 | with the source's order, writes [1] and [2] at writableHighWaterMark 1 leave [1, 1, 2] in the write file, not their concatenation |
| CustomDuplex.DuplexStream.Read | 03Streams/06custom-duplex/custom-duplex.js:76-97 | `position` advances by the bytes read, exactly those bytes are pushed, and a 0-byte read pushes the end marker; the write buffer and the write file are untouched |
| CustomDuplex.DuplexStream.Final | 03Streams/06custom-duplex/custom-duplex.js:103-114 | flushes exactly when the buffer is non-empty; otherwise calls back without writing |
| CustomDuplex.DuplexStream.Destroy | 03Streams/06custom-duplex/custom-duplex.js:119-135 | closes each set descriptor, neither close stopping the other, and reports the original error |
| CustomDuplex.Interleave | 03Streams/06custom-duplex/custom-duplex.js:55-114 | with writes and reads interleaved round-robin (one write, then one read, per round), and each flush's reset done before the next `_write`, the pushed chunks join up to the read file and the write file is the concatenation of the written chunks |
| CustomDuplex.WriteTurn | 03Streams/06custom-duplex/custom-duplex.js:55-70 | one `_write` and its flush append the chunk to what was accepted, leave no write in flight and leave the read position alone |
| CustomDuplex.ReadTurn | 03Streams/06custom-duplex/custom-duplex.js:76-97 | one `_read` keeps the pushed chunks equal to the read file up to the position, and either advances the position or reports the end of file |
| Encryption.Shift | 03Streams/07encryption-decryption/encryption.js:6-10 | the loop's result as a value: each byte of the chunk shifted by ShiftByte, in place and in order (its properties are ShiftAt, ShiftConcat and ShiftChunks) |
| Encryption.ShiftByte | 03Streams/07encryption-decryption/encryption.js:7-9 | a byte below 255 is raised by one; 255 stays; the result is never 0 |
| Encryption.ShiftAt | 03Streams/07encryption-decryption/encryption.js:6-10 | the transform keeps the length and maps each position by itself |
| Encryption.ShiftConcat | 03Streams/07encryption-decryption/encryption.js:5-12 | no state crosses chunk boundaries: shifting a concatenation shifts each part |
| Encryption.ShiftChunks | 03Streams/07encryption-decryption/encryption.js:5-12 | shifting a stream chunk by chunk equals shifting the whole stream |
| Encryption.NoZeroOutput | 03Streams/07encryption-decryption/encryption.js:7-9 | no output byte is 0 |
| Encryption.NotInjective | 03Streams/07encryption-decryption/encryption.js:7-9 | 254 and 255 both become 255, so no inverse exists |
| Encryption.Transform | 03Streams/07encryption-decryption/encryption.js:5-12 | overwrites the chunk in place with its shift and hands the same buffer on |
| ReadBig.Split | 03Streams/02read-big/readBig.js:14 | `split("  ")`: at least one token; JoinSplit, SplitTokensHaveNoSeparator and SplitCutsLeftmost together fix the tokens |
| ReadBig.JoinSplit | 03Streams/02read-big/readBig.js:14 | splitting on two spaces loses nothing: joining the tokens back gives the text |
| ReadBig.SplitTokensHaveNoSeparator | 03Streams/02read-big/readBig.js:14 | no token contains two consecutive spaces, and the first token is a prefix of the text |
| ReadBig.SplitCutsLeftmost | 03Streams/02read-big/readBig.js:14 | the cuts are leftmost: no token but the last ends with a space, so `"   "` splits into `""` and `" "` |
| ReadBig.TrimStart | 03Streams/02read-big/readBig.js:17 | `Number()`'s leading-whitespace strip: a suffix that does not start with whitespace, and everything removed before it is whitespace |
| ReadBig.TrimEnd | 03Streams/02read-big/readBig.js:17 | the trailing-whitespace strip: a prefix that does not end with whitespace, and everything removed after it is whitespace |
| ReadBig.IsJsSpace | 03Streams/02read-big/readBig.js:17 | the whitespace `Number()` strips around a token: space, tab, line feed, carriage return, vertical tab and form feed (the ASCII part of JavaScript's white space and line terminators) |
| ReadBig.NumberIsEven | 03Streams/02read-big/readBig.js:17 | `Number(token) % 2 == 0` on whitespace-trimmed text: blank text is even, a run of digits is even when its last digit is, anything else is NaN and not even |
| ReadBig.NumberIsEvenIsParity | 03Streams/02read-big/readBig.js:17 | for a token of digits between whitespace, the even test is the parity of the number the digits denote; this agrees with `Number()` only below 2^53, where it is exact |
| ReadBig.EvenFrames | 03Streams/02read-big/readBig.js:16-19 | the frames written for a token list: ` token ` for each even token, in token order (its properties are EvenFramesConcat, EvenFramesSound and EvenFramesComplete) |
| ReadBig.Wrap | 03Streams/02read-big/readBig.js:18 | `` ` ${number} ` ``: two characters longer than the token, a space first and last, and the token itself in between |
| ReadBig.EvenFramesConcat | 03Streams/02read-big/readBig.js:16-19 | filtering a joined token list filters each part in order |
| ReadBig.EvenFramesSound | 03Streams/02read-big/readBig.js:16-19 | every frame written is ` token ` for an even token of the input |
| ReadBig.EvenFramesComplete | 03Streams/02read-big/readBig.js:16-19 | every even token's ` token ` frame is written |
| ReadBig.Pipe.OnData | 03Streams/02read-big/readBig.js:13-24 | the chunk's even tokens are written in order; the reader ends up paused exactly when one of this chunk's writes returned false, and the loop still writes the rest |
| ReadBig.Pipe.constructor | 03Streams/02read-big/readBig.js:10-11 | nothing written yet, the reader flowing, the writer not ended and both handles open |
| ReadBig.Pipe.WriteToken | 03Streams/02read-big/readBig.js:17-22 | an even token is written as ` token `, and a false write pauses the reader; other tokens change nothing |
| ReadBig.Pipe.OnDrain | 03Streams/02read-big/readBig.js:26-28 | drain resumes the reader |
| ReadBig.Pipe.OnEnd | 03Streams/02read-big/readBig.js:30-35 | the reader's end ends the writer and closes both handles |
| ReadBig.Deliver | 03Streams/02read-big/readBig.js:13-28 | one chunk of the run: after a "drain" resumes a paused reader, the chunk's even frames are appended to what was written |
| ReadBig.Run | 03Streams/02read-big/readBig.js:13-35 | the output is each chunk's even tokens, chunk after chunk, and both files are closed |
| UploaderClient.Header | 04Networking/03uploader/client.js:24 | the header is `fileName:` followed by the name |
| UploaderClient.Client.constructor | 04Networking/03uploader/client.js:9-10 | nothing sent, nothing counted, not started |
| UploaderClient.Client.Connect | 04Networking/03uploader/client.js:10-24 | with no path the connection is ended and no header is sent; an open failure lands in the catch block (exit); otherwise exactly the header is sent first |
| UploaderClient.Client.OnFileData | 04Networking/03uploader/client.js:32-48 | the chunk is sent after everything earlier, `totalBytesWritten` grows by its length, and a false write pauses the file stream |
| UploaderClient.Client.OnDrain | 04Networking/03uploader/client.js:51-53 | drain resumes the file stream |
| UploaderClient.Client.OnFileEnd | 04Networking/03uploader/client.js:56-60 | the socket is half-closed, then the file is closed |
| UploaderClient.Client.OnServerData | 04Networking/03uploader/client.js:63-74 | aborts (ends the socket, then closes the file) exactly when the message starts with `ERROR:`; any other message changes nothing |
| UploaderClient.IsErrorFrame | 04Networking/03uploader/client.js:66 | a server message reports a failure exactly when it starts with `ERROR:` (used by OnServerData's contract and by ClientRecognisesErrorFrame) |
| UploaderClient.Upload | 04Networking/03uploader/client.js:24-60 | the header is the first frame, the file's chunks follow unchanged and in order, and `totalBytesWritten` is the file size |
| UploaderServer.ParseHeader | 04Networking/03uploader/server.js:21-35 | `indexOf("fileName:")` then `substring` past the marker, with no name when the marker is absent (its contract is ParseHeaderFindsMarker) |
| UploaderServer.ParseHeaderFindsMarker | 04Networking/03uploader/server.js:21-35 | no name exactly when `fileName:` occurs nowhere; otherwise the name is the text after its first occurrence, up to the end of the chunk |
| UploaderServer.ServerParsesClientHeader | 04Networking/03uploader/server.js:33-35 | the client's header `fileName:` + name parses back to the name |
| UploaderServer.CoalescedHeaderAbsorbsData | 04Networking/03uploader/server.js:33-35 | a header arriving together with file bytes yields a name that includes those bytes |
| UploaderServer.ClientRecognisesErrorFrame | 04Networking/03uploader/server.js:26 | the server's error frame is one the client treats as fatal |
| UploaderServer.UploadConnection.constructor | 04Networking/03uploader/server.js:12-13 | a new connection expects a header and has no file |
| UploaderServer.UploadConnection.OnData | 04Networking/03uploader/server.js:16-59 | header state: pause, then either the exact error frame and the socket ended with no file, or the name recorded and, once the open succeeds, the state flipped and the socket resumed; the header chunk is never written; ready state: the chunk goes to the file stream in order, and a false return pauses the socket with one drain listener |
| UploaderServer.UploadConnection.ReceiveHeader | 04Networking/03uploader/server.js:18-45 | the header branch: the socket is paused; a chunk without `fileName:` gets exactly the error frame and ends the socket with no file opened; otherwise the parsed name is recorded and, once the open succeeds, the connection flips to the ready state and the socket resumes; the header chunk is never written to the file |
| UploaderServer.UploadConnection.ReceiveChunk | 04Networking/03uploader/server.js:48-57 | the ready branch: the chunk is appended to what the file stream was handed, and a false write pauses the socket with one pending drain listener; nothing else changes |
| UploaderServer.UploadConnection.OnFileDrain | 04Networking/03uploader/server.js:54-56 | a pending drain listener resumes the socket and is used up |
| UploaderServer.UploadConnection.OnEnd | 04Networking/03uploader/server.js:62-65 | ends the file stream and closes the handle only when they exist |
| UploaderServer.UploadConnection.OnError | 04Networking/03uploader/server.js:68-72 | destroys the file stream and closes the handle only when they exist |
| UploaderServer.RejectHeader | 04Networking/03uploader/server.js:25-30 | a first chunk without the marker gets exactly the error frame, the socket is ended, and no file is opened |
| UploaderServer.Transfer | 04Networking/03uploader/server.js:16-65 | client and server together: the file is stored under the client's name and receives exactly the client's file chunks, in order, never the header, and is closed |
| JsString.StartsWith | 04Networking/02chat-app/client.js:63 | `String.prototype.startsWith`: the prefix is no longer than the text and equals its first characters (also the `ERROR:` test of uploader client.js:66) |
| JsString.IndexOf | 04Networking/02chat-app/server.js:36 | `indexOf`: the first occurrence, and -1 exactly when there is none |
| JsString.Includes | 04Networking/03uploader/server.js:25 | `includes`: true exactly when the pattern occurs somewhere |
| JsString.Substring | 04Networking/02chat-app/server.js:36 | `substring`: in-range arguments give the text between them, swapped when reversed; an argument at or below 0 acts as 0 and one at or beyond the length acts as the length, whatever the other argument is |
| JsString.SubstringFrom | 04Networking/02chat-app/client.js:64 | `substring(start)`: the suffix from `start`, the whole text for a negative start, and empty past the end |
| JsString.TextAfter | 04Networking/03uploader/server.js:33-35 | `s.substring(s.indexOf(p) + p.length)`: the text after the first occurrence, or from index \|p\| - 1 when there is none |
| JsString.NatToString | 03Streams/01write-many/writeMany.js:49 | `i.toString()`: decimal digits with no leading zero |
| JsString.DecimalRoundTrip | 03Streams/01write-many/writeMany.js:49 | reading back the digits of n gives n |
| JsString.NatToStringInjective | 03Streams/01write-many/writeMany.js:49 | different numbers print differently |
| ChatServer.IdFrame | 04Networking/02chat-app/server.js:21 | `id-${clientId}` |
| ChatServer.JoinedFrame | 04Networking/02chat-app/server.js:17 | `User ${clientId} joined` |
| ChatServer.LeftFrame | 04Networking/02chat-app/server.js:26 | `User ${clientId} left` |
| ChatServer.MessageFrame | 04Networking/02chat-app/server.js:45 | `> User ${id}: ${message}` |
| ChatServer.SenderId | 04Networking/02chat-app/server.js:36 | the sender id is the text before the first `-`, and empty when there is no `-` |
| ChatServer.MessageText | 04Networking/02chat-app/server.js:39-41 | the message is the text after the first `-message-`, or the text from index 8 on when that separator is absent |
| ChatServer.Server.constructor | 04Networking/02chat-app/server.js:8 | no clients listed |
| ChatServer.Server.Broadcast | 04Networking/02chat-app/server.js:16-18 | the frame goes to every listed client once and to no one else |
| ChatServer.Server.Connection | 04Networking/02chat-app/server.js:10-51 | the new id is `clients.length + 1`; every earlier client, but not the new one, is told it joined; the new socket receives `id-` + n; the client is pushed last |
| ChatServer.Server.OnEnd | 04Networking/02chat-app/server.js:24-28 | `User n left` goes to every listed client, the departed one included |
| ChatServer.Server.OnData | 04Networking/02chat-app/server.js:31-47 | `> User id: message` goes to every listed client, sender included, with the id and the message parsed from the frame |
| ChatServer.JoinedRange | 04Networking/02chat-app/server.js:16-18 | the join notices for ids a .. b, one per id |
| ChatServer.NoSelfJoin | 04Networking/02chat-app/server.js:16-18 | no client is ever told that it joined itself |
| ChatServer.ConnectAll | 04Networking/02chat-app/server.js:10-51 | after n connections the ids are 1 .. n in connection order, and each client has received its id followed by one join notice per later client, in order |
| ChatClient.Format | 04Networking/02chat-app/client.js:40 | the outgoing frame is the id, `-message-`, then the text |
| ChatClient.ParseIdFrame | 04Networking/02chat-app/client.js:63-64 | a frame starting with `id` carries the text from index 3 on; no other frame carries an id |
| ChatClient.ParsesServerIdFrame | 04Networking/02chat-app/client.js:63-64 | the server's `id-n` frame yields n |
| ChatClient.OtherServerFramesCarryNoId | 04Networking/02chat-app/client.js:63-67 | join, leave and message frames are never taken for an id frame |
| ChatClient.ServerParsesClientFrame | 04Networking/02chat-app/client.js:40 | for a client id without `-`, the server's parse of the frame gives back exactly the id and the text, whatever the text contains |
| ChatClient.UndefinedIdReachesServer | 04Networking/02chat-app/client.js:33-40 | before its id frame arrives, the client's messages reach the server under the id `undefined` |
| ChatClient.Client.constructor | 04Networking/02chat-app/client.js:33 | `clientId` starts undefined, and nothing is sent or shown |
| ChatClient.Client.Ask | 04Networking/02chat-app/client.js:36-52 | an answered prompt sends exactly the formatted line; an aborted one sends nothing and ends the connection |
| ChatClient.Client.OnData | 04Networking/02chat-app/client.js:57-71 | an id frame sets `clientId` to its text from index 3; any other frame is shown unchanged |
| ChatClient.Conversation | 04Networking/02chat-app/client.js:33-64 | a client that received its id frame and sends one line: every client, the sender included, gets the line under the sender's id after its own id and the join notices |

## Left out

- The `fs`, `net` and `readline` calls themselves. Files are byte sequences, sockets are frame sequences, and each call's outcome is a parameter.
- Node's Writable/Readable/Duplex/Transform machinery is left out. This covers the high-water-mark computation behind `write()`'s result, the internal queues, when "drain" is emitted, and `pipe`/`pipeline`. `write()`'s result is an input; "no data while paused" and "no `_write` before the previous callback" are preconditions.
- Event-loop interleaving and suspension at `await` are left out. Each handler runs as one atomic step.
- What Node does with the unhandled rejection of a failed `fs.open` in the uploader server (process termination, by default). The model stops the handler with the socket paused.
- `fs.write` writing fewer bytes than asked, and the file position of a write, are not modelled. Every successful write appends its whole buffer.
- `path.basename` and `path.join` are library calls. The client's base name is a parameter, and the server records the name it joins, not the joined path.
- `Number()` coercion in readBig covers only tokens of decimal digits between whitespace (blank is 0, so even); every other token counts as NaN and is dropped. Signs, decimal points, exponents, the `0x`/`0b`/`0o` prefixes, `Infinity` and non-ASCII whitespace are not modelled; so, for instance, `Number("0b10")` is 2, which is even, and the source writes that token while the model drops it.
- ReadBig.NumberIsEven: decides evenness by the token's last digit, which is the parity of the exact value. `Number()` rounds a digit string above 2^53 to a double, and every finite double at or above 2^53 is even. So a token such as `9007199254740993` is written by the source (it becomes 9007199254740992) but dropped by the model. The reverse also happens: a digit string of about 1.8e308 or more (309 digits or more, e.g. four hundred `2`s) becomes `Infinity`, `Infinity % 2` is `NaN`, and the source drops the token, while the model writes it because its last digit is even. The model keeps the last-digit rule, which is what the filter intends.
- UTF-8 decoding (RFC 3629) of chunks: chunk text is taken one character per byte.
- TCP may split or merge frames. The drivers `UploaderServer.Transfer` and `ChatClient.Conversation` deliver each write as one data event; `UploaderServer.CoalescedHeaderAbsorbsData` shows what a merged header does.
- The uploader client's `Date.now` throttled progress output and its floating-point percentage, the chat client's cursor and line handling, and all logging and timing.
- Rethrowing non-abort errors in the chat client's `ask`.
- The byte-shift transform has no inverse in the code, and none exists (`Encryption.NotInjective`), so no round trip is stated.
- 03Streams/03copy/copy.js only wires library streams with `pipeline`, and the UDP sender and receiver only do datagram I/O; neither is part of this model.
- CustomDuplex.DuplexStream.CompleteFlush: models the corrected order, with the reset before the callback. The source's order at lines 63-65 is `CustomDuplex.DuplexStream.CompleteFlushAsWritten`; see the findings below.
- CustomReadable.CopyFile: requires a positive read size. The readable's highWaterMark, 16 KiB in the source, is what Node passes as `size`.
- CustomDuplex.Interleave: requires a positive read size, for the same reason. Its write-side result holds for the corrected flush completion (reset before the callback). Under the source's order a `_write` re-entered from the flush callback duplicates the buffer (`CustomDuplex.DuplicationWitness`).

## Findings

| source | as written | input that shows it | evidently intended | confidence | as-written member | corrected member |
|---|---|---|---|---|---|---|
| 03Streams/04custom-writable/custom-writable.js:40-43 | `callback()` runs before `chunks`/`chunkSize` are reset. Node hands the next buffered chunk to `_write` from inside that callback, so it joins the already-flushed buffer and a flush of old + new chunks is issued before the reset clears them. The same class, in the same order, is copied at 03Streams/05custom-readable/custom-readable.js:40-43, and the one `FileWriteStream` model covers both. A second path has the same effect: when `end()` has been called, Node can run `_final` from inside that same callback (afterWrite, then finishMaybe, then callFinal), and `_final` flushes the buffer that has not been reset yet | highWaterMark 1; write [1], then write [2] while the first flush is in flight: the file holds [1, 1, 2] | reset the buffer before calling back, as `_final` does (lines 59-61), so the file is the concatenation of the written chunks | not executed | CustomWritable.FileWriteStream.CompleteFlushAsWritten, CustomWritable.DuplicationWitness | CustomWritable.FileWriteStream.CompleteFlush, CustomWritable.WriteAll |
| 03Streams/06custom-duplex/custom-duplex.js:63-65 | the same order in the duplex's `_write`: `callback()` runs before `chunks`/`chunkSize` are reset, so a `_write` re-entered from that callback flushes the already-written buffer again together with the new chunk | writableHighWaterMark 1; write [1], then write [2] while the first flush is in flight: the write file holds [1, 1, 2] | reset the buffer before calling back, as the duplex's `_final` does (lines 107-109), so the write file is the concatenation of the written chunks | not executed | CustomDuplex.DuplexStream.CompleteFlushAsWritten, CustomDuplex.DuplicationWitness | CustomDuplex.DuplexStream.CompleteFlush, CustomDuplex.Interleave |
