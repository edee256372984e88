/** Rooms: a waiting place for up to two players, keyed by user id, that turns into a game
    once it is full. */
module Rooms {
  import opened Wrappers
  import opened Errors
  import opened OrderedMaps
  import opened Db
  import opened Messages
  import opened Games

  class Room {
    const id: int
    var players: OMap<int, Player>

    /** At most two players, each stored under its own user id. */
    ghost predicate Valid()
      reads this
    {
      && players.Valid() && players.Size() <= 2
      && forall k | k in players.vals :: players.vals[k].user.id == k
    }

    /** The constructor: a fresh id, and the given player, if any, as the only member. */
    constructor(ids: IdSource, player: Option<Player>)
      modifies ids
      ensures Valid() && id == old(ids.last) && ids.last == old(ids.last) + 1
      ensures GetPlayers() == if player.Some? then [player.value] else []
    {
      var next := ids.Next();
      id := next;
      players := if player.Some? then Empty().Set(player.value.user.id, player.value) else Empty();
    }

    /** getPlayers: the members, each once, in the order they joined. */
    function GetPlayers(): (r: seq<Player>)
      reads this
      requires Valid()
      ensures |r| == players.Size() <= 2
      ensures forall i :: 0 <= i < |r| ==> r[i] == players.vals[players.keys[i]]
      ensures forall i :: 0 <= i < |r| ==> r[i].user.id in players.vals && players.vals[r[i].user.id] == r[i]
      ensures forall k :: k in players.vals ==> players.vals[k] in r
      ensures forall i, j :: 0 <= i < j < |r| ==> r[i].user.id != r[j].user.id
    {
      var r := players.Values();
      forall i | 0 <= i < |r| ensures r[i].user.id == players.keys[i] {
        assert players.keys[i] in players.vals;
      }
      assert forall k :: k in players.vals ==> players.vals[k] in r by {
        forall k | k in players.vals ensures players.vals[k] in r {
          var i :| 0 <= i < |players.keys| && players.keys[i] == k;
          assert r[i] == players.vals[k];
        }
      }
      r
    }

    /** isFull: the room holds two players, the most it ever holds. */
    function IsFull(): (r: bool)
      reads this
      requires Valid()
      ensures r <==> |GetPlayers()| == 2
      ensures !r ==> |GetPlayers()| < 2
    {
      players.Size() == 2
    }

    /** addPlayer: refused with GamePlayersError when full; otherwise the player is stored
        under its user id, so a member that joins again keeps its place and the size. */
    method AddPlayer(p: Player) returns (out: Outcome<Error>)
      requires Valid()
      modifies this`players
      ensures Valid()
      ensures old(IsFull()) ==> out == Fail(GamePlayersError) && players == old(players)
      ensures !old(IsFull()) ==> out == Pass && players == old(players).Set(p.user.id, p)
      ensures out.Pass? ==>
        && p in GetPlayers()
        && |GetPlayers()| == if p.user.id in old(players.vals) then old(|GetPlayers()|) else old(|GetPlayers()|) + 1
    {
      if IsFull() {
        return Fail(GamePlayersError);
      }
      players := players.Set(p.user.id, p);
      out := Pass;
    }

    /** removePlayer: drops whoever is stored under `p`'s user id, and says whether there
        was one; the other members stay, in order. */
    method RemovePlayer(p: Player) returns (present: bool)
      requires Valid()
      modifies this`players
      ensures Valid()
      ensures present == (p.user.id in old(players.vals))
      ensures players == old(players).Delete(p.user.id)
      ensures forall q: Player :: q in GetPlayers() <==> q in old(GetPlayers()) && q.user.id != p.user.id
    {
      present := p.user.id in players.vals;
      players := players.Delete(p.user.id);
    }

    /** buildGame: GamePlayersError unless full; otherwise a game between the members, in
        the order they joined. */
    method BuildGame(ids: IdSource, net: Transport) returns (r: Result<Game, Error>)
      requires Valid() && forall k | k in players.vals :: !players.vals[k].IsBot()
      modifies ids, net
      ensures !IsFull() ==> r == Err(GamePlayersError) && ids.last == old(ids.last) && net.log == old(net.log)
      ensures IsFull() ==> r.Ok?
      ensures IsFull() && r.Ok? ==>
        var g := r.value; var members := GetPlayers();
        && fresh(g) && g.Valid() && g.Repr == {g} && g.boards == map[]
        && g.first == members[0] && g.second == members[1] && g.turn == members[0]
        && g.id == old(ids.last) && ids.last == old(ids.last) + 1
        && net.log == old(net.log) + [Envelope(members[0].channel, CreateGame(g.id, members[0].user.id)),
                                      Envelope(members[1].channel, CreateGame(g.id, members[1].user.id))]
    {
      if !IsFull() {
        return Err(GamePlayersError);
      }
      var members := GetPlayers();
      assert !members[0].IsBot() && !members[1].IsBot() by {
        assert members[0] == players.vals[players.keys[0]] && members[1] == players.vals[players.keys[1]];
      }
      r := NewGame(members, ids, net);
    }
  }
}
