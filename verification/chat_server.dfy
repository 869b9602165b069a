/** The chat server (04Networking/02chat-app/server.js). Every connection is
    given the id `clients.length + 1`, is told that id, and is announced to
    the clients already listed; only then is it pushed onto the list. Nothing
    is ever removed from the list. A message frame is parsed into a sender id
    and a text and broadcast to every listed client. Sockets are numbered in
    connection order, and each one's outbox holds the frames written to it. */
module ChatServer {
  import opened JsString

  const Dash: string := "-"
  const Separator: string := "-message-"

  function IdFrame(id: string): string { "id-" + id }
  function JoinedFrame(id: string): string { "User " + id + " joined" }
  function LeftFrame(id: string): string { "User " + id + " left" }
  function MessageFrame(id: string, message: string): string { "> User " + id + ": " + message }

  /** The sender id of a frame, `substring(0, indexOf("-"))`: the text before
      the first dash, or the empty text when there is no dash (indexOf's -1
      is clamped to 0). */
  function SenderId(data: string): (id: string)
    ensures '-' in data ==> |id| < |data| && id == data[..|id|] && data[|id|] == '-' && '-' !in id
    ensures '-' !in data ==> id == ""
  {
    var k := IndexOf(data, Dash);
    if k == -1 then
      assert forall j | 0 <= j < |data| :: data[j] != '-' by {
        forall j | 0 <= j < |data| ensures data[j] != '-' { OccursAtChar(data, '-', j); }
      }
      Substring(data, 0, k)
    else
      OccursAtChar(data, '-', k);
      assert forall j | 0 <= j < k :: data[j] != '-' by {
        forall j | 0 <= j < k ensures data[j] != '-' { OccursAtChar(data, '-', j); }
      }
      Substring(data, 0, k)
  }

  /** The message text of a frame: everything after the first `-message-`,
      or, when there is none, the text from index 8 on (indexOf's -1 plus
      the separator's length). */
  function MessageText(data: string): (m: string)
    ensures Includes(data, Separator) ==>
              && |m| + |Separator| <= |data| && m == data[|data| - |m|..]
              && OccursAt(data, Separator, |data| - |m| - |Separator|)
              && forall j :: 0 <= j < |data| - |m| - |Separator| ==> !OccursAt(data, Separator, j)
    ensures !Includes(data, Separator) ==> m == if |data| >= 8 then data[8..] else ""
  {
    TextAfter(data, Separator)
  }

  /** A listed client: its id as text and its socket. */
  datatype ClientEntry = ClientEntry(clientId: string, socket: nat)

  class Server {
    /** The `clients` array. */
    var clients: seq<ClientEntry>
    /** For each socket, the clientId its handlers captured. */
    var captured: seq<nat>
    /** For each socket, the frames written to it, in order. */
    var outbox: seq<seq<string>>

    /** Ids run 1, 2, 3, ... in connection order, the k-th listed client is
        socket k, and every socket ever connected is listed. */
    ghost predicate Valid()
      reads this
    {
      && |clients| == |captured| == |outbox|
      && forall k :: 0 <= k < |clients| ==>
           captured[k] == k + 1 && clients[k] == ClientEntry(NatToString(captured[k]), k)
    }

    constructor ()
      ensures Valid() && clients == [] && captured == [] && outbox == []
    {
      clients := [];
      captured := [];
      outbox := [];
    }

    /** `clients.forEach(client => client.socket.write(frame))`: the frame
        goes to every listed client, in list order, and to no one else. */
    method Broadcast(frame: string)
      requires Valid()
      modifies this`outbox
      ensures Valid()
      ensures |outbox| == old(|outbox|)
      ensures forall k :: 0 <= k < |outbox| ==> outbox[k] == old(outbox[k]) + [frame]
    {
      for i := 0 to |clients|
        invariant Valid() && |outbox| == old(|outbox|)
        invariant forall k :: 0 <= k < i ==> outbox[k] == old(outbox[k]) + [frame]
        invariant forall k :: i <= k < |outbox| ==> outbox[k] == old(outbox[k])
      {
        var s := clients[i].socket;
        outbox := outbox[s := outbox[s] + [frame]];
      }
    }

    /** "connection": the new socket gets id `clients.length + 1`. Every
        earlier client is told it joined, the new socket is sent its id, and
        the client is pushed after both. */
    method Connection() returns (socket: nat)
      requires Valid()
      modifies this`clients, this`captured, this`outbox
      ensures Valid()
      ensures socket == old(|clients|) && |clients| == socket + 1
      ensures clients == old(clients) + [ClientEntry(NatToString(socket + 1), socket)]
      ensures forall k :: 0 <= k < socket ==> outbox[k] == old(outbox[k]) + [JoinedFrame(NatToString(socket + 1))]
      ensures outbox[socket] == [IdFrame(NatToString(socket + 1))]
    {
      var clientId := |clients| + 1;
      Broadcast(JoinedFrame(NatToString(clientId)));
      socket := |outbox|;
      outbox := outbox + [[IdFrame(NatToString(clientId))]];
      captured := captured + [clientId];
      clients := clients + [ClientEntry(NatToString(clientId), socket)];
    }

    /** "end" on a socket: every listed client, the departed one included,
        is told that the captured id left. */
    method OnEnd(socket: nat)
      requires Valid() && socket < |clients|
      modifies this`outbox
      ensures Valid() && |outbox| == old(|outbox|)
      ensures forall k :: 0 <= k < |outbox| ==> outbox[k] == old(outbox[k]) + [LeftFrame(NatToString(socket + 1))]
    {
      Broadcast(LeftFrame(NatToString(captured[socket])));
    }

    /** "data" on any socket: the frame's own sender id and text, broadcast
        to every listed client, the sender included. The id is read from the
        text, not from the socket it came in on. */
    method OnData(data: string)
      requires Valid()
      modifies this`outbox
      ensures Valid() && |outbox| == old(|outbox|)
      ensures forall k :: 0 <= k < |outbox| ==> outbox[k] == old(outbox[k]) + [MessageFrame(SenderId(data), MessageText(data))]
    {
      Broadcast(MessageFrame(SenderId(data), MessageText(data)));
    }
  }

  /** The join notices for ids a .. b, in increasing order. */
  function JoinedRange(a: nat, b: nat): (r: seq<string>)
    requires a >= 1
    ensures |r| == if a <= b then b - a + 1 else 0
    decreases b
  {
    if b < a then [] else JoinedRange(a, b - 1) + [JoinedFrame(NatToString(b))]
  }

  /** What socket k has received once n clients have connected: its id, then
      one join notice for every later client, in connection order. */
  function Inbox(k: nat, n: nat): seq<string>
  {
    [IdFrame(NatToString(k + 1))] + JoinedRange(k + 2, n)
  }

  /** No client is told that it joined itself. */
  lemma {:induction false} NoSelfJoin(k: nat, n: nat)
    ensures JoinedFrame(NatToString(k + 1)) !in JoinedRange(k + 2, n)
    decreases n
  {
    if k + 2 <= n {
      NoSelfJoin(k, n - 1);
      var a, b := NatToString(k + 1), NatToString(n);
      if JoinedFrame(a) == JoinedFrame(b) {
        assert JoinedFrame(a)[5..5 + |a|] == a;
        assert JoinedFrame(b)[5..|JoinedFrame(b)| - 7] == b;
        NatToStringInjective(k + 1, n);
      }
    }
  }

  /** n connections in a row: ids 1 .. n in connection order, and each
      socket's outbox is exactly its Inbox. */
  method ConnectAll(n: nat) returns (server: Server)
    ensures fresh(server) && server.Valid() && |server.clients| == n
    ensures forall k :: 0 <= k < n ==> server.outbox[k] == Inbox(k, n)
  {
    server := new Server();
    for m := 0 to n
      invariant server.Valid() && |server.clients| == m
      invariant forall k :: 0 <= k < m ==> server.outbox[k] == Inbox(k, m)
    {
      ghost var before := server.outbox;
      var socket := server.Connection();
      forall k | 0 <= k < m
        ensures server.outbox[k] == Inbox(k, m + 1)
      {
        assert server.outbox[k] == before[k] + [JoinedFrame(NatToString(m + 1))];
      }
    }
  }
}
