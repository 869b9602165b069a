/** The chat client (04Networking/02chat-app/client.js): it formats each line
    the user enters as `${clientId}-message-${text}`, and of the frames the
    server sends it takes those starting with `id` as its id and shows the
    rest. Until the id frame arrives `clientId` is undefined, which the
    template literal renders as the text "undefined". */
module ChatClient {
  import opened Common
  import opened JsString
  import ChatServer

  /** What an undefined clientId renders as. */
  const Undefined: string := "undefined"

  /** The frame sent for one line of input. */
  function Format(clientId: string, text: string): (frame: string)
    ensures |frame| == |clientId| + |ChatServer.Separator| + |text|
    ensures StartsWith(frame, clientId) && frame[|frame| - |text|..] == text
    ensures frame[|clientId|..|clientId| + |ChatServer.Separator|] == ChatServer.Separator
  {
    clientId + ChatServer.Separator + text
  }

  /** The id carried by a server frame: one starting with `id` gives its text
      from index 3 on (past `id-`); any other frame carries none. */
  function ParseIdFrame(frame: string): (id: Option<string>)
    ensures id.Some? <==> |frame| >= 2 && frame[0] == 'i' && frame[1] == 'd'
    ensures id.Some? ==> id.value == if |frame| >= 3 then frame[3..] else ""
  {
    if StartsWith(frame, "id") then Some(SubstringFrom(frame, 3)) else None
  }

  /** The server's `id-n` frame gives the client n. */
  lemma ParsesServerIdFrame(n: nat)
    ensures ParseIdFrame(ChatServer.IdFrame(NatToString(n))) == Some(NatToString(n))
  {
    var f := ChatServer.IdFrame(NatToString(n));
    assert f[..2] == "id";
    assert f[3..] == NatToString(n);
  }

  /** None of the other frames the server sends is taken for an id: they
      start with `U` or `>`. */
  lemma OtherServerFramesCarryNoId(id: string, message: string)
    ensures ParseIdFrame(ChatServer.JoinedFrame(id)).None?
    ensures ParseIdFrame(ChatServer.LeftFrame(id)).None?
    ensures ParseIdFrame(ChatServer.MessageFrame(id, message)).None?
  {
    assert ChatServer.JoinedFrame(id)[0] == 'U';
    assert ChatServer.LeftFrame(id)[0] == 'U';
    assert ChatServer.MessageFrame(id, message)[0] == '>';
  }

  /** For a clientId without a dash, the server reads back exactly the id
      and the text this client sent, whatever the text contains. */
  lemma ServerParsesClientFrame(clientId: string, text: string)
    requires '-' !in clientId
    ensures ChatServer.SenderId(Format(clientId, text)) == clientId
    ensures ChatServer.MessageText(Format(clientId, text)) == text
  {
    var f := Format(clientId, text);
    var sep := ChatServer.Separator;
    assert f[|clientId|] == '-';
    assert '-' in f;
    var id := ChatServer.SenderId(f);
    assert id == clientId;
    assert OccursAt(f, sep, |clientId|) by {
      assert f[|clientId|..|clientId| + |sep|] == sep;
    }
    var m := ChatServer.MessageText(f);
    assert |f| - |m| - |sep| == |clientId|;
  }

  /** The id a client that never received its id frame sends under, read
      back by the server. */
  lemma UndefinedIdReachesServer(text: string)
    ensures ChatServer.SenderId(Format(Undefined, text)) == Undefined
  {
    assert '-' !in Undefined;
    ServerParsesClientFrame(Undefined, text);
  }

  class Client {
    var clientId: string
    /** The server frames shown to the user, in order. */
    var displayed: seq<string>
    /** The frames written to the socket, in order. */
    var sent: seq<string>
    var ended: bool

    constructor ()
      ensures clientId == Undefined && displayed == [] && sent == [] && !ended
    {
      clientId := Undefined;
      displayed := [];
      sent := [];
      ended := false;
    }

    /** ask(): the line read, or None when the prompt was aborted (Ctrl+C),
        which closes the prompt and ends the socket. */
    method Ask(line: Option<string>)
      modifies this`sent, this`ended
      ensures line.Some? ==> sent == old(sent) + [Format(clientId, line.value)] && ended == old(ended)
      ensures line.None? ==> sent == old(sent) && ended
    {
      if line.None? {
        ended := true;
        return;
      }
      sent := sent + [Format(clientId, line.value)];
    }

    /** "data": an id frame replaces clientId; any other frame is shown as
        it is. */
    method OnData(frame: string)
      modifies this`clientId, this`displayed
      ensures ParseIdFrame(frame).Some? ==> clientId == ParseIdFrame(frame).value && displayed == old(displayed)
      ensures ParseIdFrame(frame).None? ==> clientId == old(clientId) && displayed == old(displayed) + [frame]
    {
      if StartsWith(frame, "id") {
        clientId := SubstringFrom(frame, 3);
      } else {
        displayed := displayed + [frame];
      }
    }
  }

  /** n clients connect; client `sender` receives its id frame and sends one
      line. Every client, the sender included, ends up with its own id, the
      later clients' join notices, and then the line under the sender's id. */
  method Conversation(n: nat, sender: nat, text: string) returns (inboxes: seq<seq<string>>)
    requires sender < n
    ensures |inboxes| == n
    ensures forall k :: 0 <= k < n ==>
              inboxes[k] == ChatServer.Inbox(k, n) + [ChatServer.MessageFrame(NatToString(sender + 1), text)]
  {
    var server := ChatServer.ConnectAll(n);
    var client := new Client();
    assert server.outbox[sender][0] == ChatServer.IdFrame(NatToString(sender + 1));
    ParsesServerIdFrame(sender + 1);
    client.OnData(server.outbox[sender][0]);
    client.Ask(Some(text));
    assert '-' !in NatToString(sender + 1);
    ServerParsesClientFrame(NatToString(sender + 1), text);
    server.OnData(client.sent[0]);
    inboxes := server.outbox;
  }
}
