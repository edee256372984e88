/** The messages the server sends, kept as an outbox of (recipient, message) pairs
    instead of serialised WebSocket frames. */
module Messages {
  import opened Wrappers
  import opened Geometry
  import opened Firing

  /** Where a message goes: a client's connection, or the socket stand-in of a bot. */
  datatype Channel = Conn(id: nat) | BotLink(user: int)

  datatype RoomUser = RoomUser(name: string, index: int)
  datatype RoomInfo = RoomInfo(roomId: int, roomUsers: seq<RoomUser>)
  datatype Winner = Winner(name: string, wins: nat)

  datatype Message =
    | RegOk(name: string, index: int)
    | RegError(errorText: string)
    | CreateGame(idGame: int, idPlayer: int)
    | StartGame(ships: seq<Ship>, currentPlayerIndex: int)
    | Turn(currentPlayer: int)
    | AttackFeedback(position: Coord, currentPlayer: int, status: AttackResult)
    | Finish(winPlayer: Option<int>)
    | UpdateRoom(rooms: seq<RoomInfo>)
    | UpdateWinners(winners: seq<Winner>)

  datatype Envelope = Envelope(to: Channel, msg: Message)

  /** The same message to each recipient, in order. */
  function Fanout(to: seq<Channel>, m: Message): (r: seq<Envelope>)
    ensures |r| == |to| && forall i :: 0 <= i < |r| ==> r[i] == Envelope(to[i], m)
  {
    seq(|to|, i requires 0 <= i < |to| => Envelope(to[i], m))
  }

  /** The last message sent is a game's finish message. */
  predicate EndsWithFinish(log: seq<Envelope>)
  {
    |log| > 0 && log[|log| - 1].msg.Finish?
  }

  /** Everything the server has sent, oldest first. */
  class Transport {
    var log: seq<Envelope>

    constructor()
      ensures log == []
    {
      log := [];
    }

    method Send(to: Channel, m: Message)
      modifies this
      ensures log == old(log) + [Envelope(to, m)]
    {
      log := log + [Envelope(to, m)];
    }

    method Broadcast(to: seq<Channel>, m: Message)
      modifies this
      ensures log == old(log) + Fanout(to, m)
    {
      for i := 0 to |to|
        invariant log == old(log) + Fanout(to[..i], m)
      {
        assert Fanout(to[..i + 1], m) == Fanout(to[..i], m) + [Envelope(to[i], m)];
        Send(to[i], m);
      }
      assert to[..|to|] == to;
    }
  }
}
