/** Players and the Game: turns, the attack rules between two boards, the start and the
    finish of a game, and the bot that answers its own turn by firing at random. */
module Games {
  import opened Wrappers
  import opened Errors
  import opened Json
  import opened Geometry
  import opened Grids
  import opened Placement
  import opened Firing
  import opened Fleets
  import opened Boards
  import opened Users
  import opened Db
  import opened Messages

  const BoardNotFound := "Board not found"
  const BoardExists := "Board already exists"
  const NoAttackPoints := "There are no available atack points"
  const BotWithoutGame := "Bot: game not specified"

  /** What a game request asks of the game: a fleet to place (left out when the request
      carries no ship list), a shot at a cell, or a shot at a random cell. */
  datatype Move = Fleet(ships: Option<seq<Ship>>) | Shot(c: Coord) | RandomShot

  /** A player at the table: a user, the channel messages to it go through, and its win
      count. A bot is a player whose channel reacts to turn messages; `game` is the game a
      bot has been bound to. */
  class Player {
    const user: User
    const channel: Channel
    var wins: nat
    var game: Game?

    constructor(user: User, channel: Channel)
      ensures this.user == user && this.channel == channel && wins == 0 && game == null
    {
      this.user := user;
      this.channel := channel;
      wins := 0;
      game := null;
    }

    predicate IsBot()
    {
      channel.BotLink?
    }

    /** Bot.setGame: adds a generated board for the bot, then binds the game; a failure
        while adding leaves the bot unbound. */
    method SetGame(g: Game, net: Transport) returns (out: Outcome<Error>, fin: bool)
      requires IsBot() && g.Valid() && g.second == this && game == null && net !in g.Repr
      modifies this`game, g.Repr, g.first`wins, g.second`wins, net
      ensures g.Valid() && old(g.Repr) <= g.Repr && fresh(g.Repr - old(g.Repr))
      ensures game == if out.Pass? then g else null
      ensures user.id in old(g.boards) ==> out == Fail(GameError(BoardExists)) && g.boards == old(g.boards)
      ensures out.Pass? ==> user.id !in old(g.boards) && user.id in g.boards
      ensures user.id in g.boards && user.id !in old(g.boards) ==>
        var b := g.boards[user.id];
        |b.ships| == 10 && FollowsPlan(b.ships, Plan(FleetConfig)) && WellSpread(b.ships)
      ensures user.id !in old(g.boards) && user.id !in g.boards ==> out == Fail(GameError(NoPoints))
      ensures |old(g.boards)| != 1 ==> !fin && net.log == old(net.log) && g.first.wins == old(g.first.wins)
      ensures |old(g.boards)| != 1 ==>
        && (out.Pass? <==> user.id !in old(g.boards) && user.id in g.boards)
        && (out.Fail? ==> g.boards == old(g.boards))
      ensures user.id !in old(g.boards) && user.id in g.boards ==> g.boards.Keys == old(g.boards).Keys + {user.id}
    {
      out, fin := g.AddBoard(this, None, net);
      if out.Pass? {
        game := g;
      }
    }
  }

  /** Bot's `send`: only a turn message naming the bot makes it fire. */
  predicate Reacts(bot: Player, m: Message)
  {
    bot.IsBot() && m.Turn? && m.currentPlayer == bot.user.id
  }

  /** The notices for a run of cells, each to every recipient, cell by cell. */
  function CellNotices(to: seq<Channel>, cells: seq<Coord>, player: int, status: AttackResult): seq<Envelope>
  {
    if cells == [] then []
    else
      var last := |cells| - 1;
      CellNotices(to, cells[..last], player, status) + Fanout(to, AttackFeedback(cells[last], player, status))
  }

  /** After a kill that does not end the game: the ship's cells as killed, then its ring as
      missed. */
  function SunkNotices(to: seq<Channel>, ship: Ship, player: int): seq<Envelope>
  {
    CellNotices(to, ShipCells(ship), player, Killed) + CellNotices(to, PointsAround(ship), player, Miss)
  }

  /** Every board is valid, belongs to `repr`, has its cells recorded in `cells`, and no
      two boards share their cells. */
  ghost predicate BoardsSound(boards: map<int, Board>, cells: map<int, seq<Cell>>, repr: set<object>)
    reads set k | k in boards :: boards[k], set k | k in boards :: boards[k].grid
  {
    && boards.Keys == cells.Keys
    && (forall k | k in boards ::
          && boards[k] in repr && boards[k].grid in repr
          && boards[k].Valid() && cells[k] == boards[k].grid[..])
    && (forall k, j | k in boards && j in boards && k != j :: boards[k].grid != boards[j].grid)
  }

  /** What can be observed of a game at one moment. */
  datatype Snap = Snap(log: seq<Envelope>, turn: Player, grids: map<int, seq<Cell>>, wins: (nat, nat))

  class Game {
    const id: int
    const first: Player
    const second: Player
    var boards: map<int, Board>
    var turn: Player
    /** The cells of each board, as the game last saw them. */
    ghost var cells: map<int, seq<Cell>>
    ghost var Repr: set<object>

    /** Two players with distinct ids, the human first; a bot in second place is unbound
        or bound to this game; the turn is held by one of the two; the boards are sound. */
    ghost predicate Valid()
      reads this, Repr, second`game
    {
      && this in Repr
      && first.user.id != second.user.id
      && !first.IsBot()
      && (second.IsBot() ==> second.game == null || second.game == this)
      && (turn == first || turn == second)
      && first !in Repr && second !in Repr
      && (forall k | k in boards :: boards[k] in Repr && boards[k].grid in Repr)
      && BoardsSound(boards, cells, Repr)
    }

    /** The game's constructor: no boards yet, and the first player holds the turn. */
    constructor(id: int, first: Player, second: Player)
      requires first.user.id != second.user.id && !first.IsBot()
      requires second.IsBot() ==> second.game == null
      ensures Valid() && Repr == {this}
      ensures this.id == id && this.first == first && this.second == second
      ensures boards == map[] && cells == map[] && turn == first
    {
      this.id := id;
      this.first := first;
      this.second := second;
      boards := map[];
      cells := map[];
      turn := first;
      Repr := {this};
    }

    function Channels(): seq<Channel>
    {
      [first.channel, second.channel]
    }

    /** getOpponent: the first of the two players that is not `p`. */
    function Opponent(p: Player): (r: Player)
      ensures r == first || r == second
      ensures first != second && (p == first || p == second) ==> r != p
      ensures p != first && p != second ==> r == first
    {
      if first != p then first else second
    }

    /** The turn is the bot's. */
    predicate BotPlays(t: Player)
    {
      second.IsBot() && t == second
    }

    /** The measure the bot's chain of shots runs down: every shot that is not a repeat
        resolves a cell on one of the two players' boards. */
    ghost function Fuel(): nat
      reads this
    {
      (if first.user.id in cells then Unresolved(cells[first.user.id]) else 0)
      + (if second.user.id in cells then Unresolved(cells[second.user.id]) else 0)
    }

    /** The board of the player with id `key` is there and its cells are known. */
    ghost predicate Ready(key: int)
      reads this
    {
      key in boards && key in cells && WellFormed(cells[key], |boards[key].ships|)
    }

    /** What a shot by `p` at `c` does to the opponent's board. */
    ghost function FireAt(p: Player, c: Coord): Result<Fired, Error>
      reads this
      requires Ready(Opponent(p).user.id)
    {
      var k := Opponent(p).user.id;
      Fire(cells[k], boards[k].ships, c)
    }

    /** The ship standing where `p` fires at `c`, if any. */
    ghost function HitShip(p: Player, c: Coord): Option<Ship>
      reads this
      requires Ready(Opponent(p).user.id)
    {
      var k := Opponent(p).user.id;
      TargetShip(cells[k], boards[k].ships, c)
    }

    /** A call of `atack(p, c)` that will resolve a cell. */
    ghost predicate WillFire(p: Player, c: Coord)
      reads this
    {
      && p == turn && Ready(Opponent(p).user.id) && InGrid(c)
      && cells[Opponent(p).user.id][Index(c)] != NotAvailable
    }

    /** What can be observed of the game: the outbox, the turn, every board's cells and
        the two win counts. */
    ghost function Now(net: Transport): Snap
      reads this, first`wins, second`wins, net
    {
      Snap(net.log, turn, cells, (first.wins, second.wins))
    }

    /** The win counts after one more win for `p`. */
    function WinFor(p: Player, w: (nat, nat)): (nat, nat)
    {
      if p == first then (w.0 + 1, w.1) else (w.0, w.1 + 1)
    }

    /** sendTurn as seen from outside: after `pre`, both players are told that `t` holds
        the turn; unless `t` is the bot, that is all, and `t` holds the turn. */
    predicate TurnSent(pre: seq<Envelope>, t: Player, s: Snap)
    {
      && pre + Fanout(Channels(), Turn(t.user.id)) <= s.log
      && (!BotPlays(t) ==> s.log == pre + Fanout(Channels(), Turn(t.user.id)) && s.turn == t)
    }

    /** The turn is sent again unchanged, as by `sendTurn(false)`; unless the bot holds
        it, nothing else happens. */
    predicate Resent(s0: Snap, out: Outcome<Error>, fin: bool, s: Snap)
    {
      && TurnSent(s0.log, s0.turn, s)
      && (!BotPlays(s0.turn) ==> out == Pass && !fin && s.grids == s0.grids && s.wins == s0.wins)
    }

    /** What follows a shot by `p` at `c` that resolved a cell, given its `result`,
        whether it sank the last ship (`won`) and the ship it sank: the result is
        announced; a win adds one to `p`'s wins and tells both players, with no turn
        message; otherwise (after a kill, the ship's cells and ring are announced) the turn
        is sent, and it passes to the opponent exactly on a miss. */
    predicate Announced(p: Player, c: Coord, result: AttackResult, won: bool, ship: Option<Ship>,
                        s0: Snap, out: Outcome<Error>, fin: bool, s: Snap)
    {
      var notice := Fanout(Channels(), AttackFeedback(c, p.user.id, result));
      if won then
        && out == Pass && fin && s.turn == s0.turn && s.grids == s0.grids
        && s.log == s0.log + notice + Fanout(Channels(), Finish(Some(p.user.id)))
        && s.wins == WinFor(p, s0.wins)
      else
        var next := if result == Miss then Opponent(p) else p;
        var sunk := if result == Killed && ship.Some? then SunkNotices(Channels(), ship.value, p.user.id) else [];
        && TurnSent(s0.log + notice + sunk, next, s)
        && (!BotPlays(next) ==> out == Pass && !fin && s.grids == s0.grids && s.wins == s0.wins)
    }

    /** What a shot by the turn holder `p` at `c` does, given the board's answer `f` and
        the ship `ship` standing there: off the board it fails and changes nothing; at a
        resolved cell the turn is sent again; otherwise the cell is resolved on the
        opponent's board and the shot is announced. A win is the kill that leaves the
        board without ship cells. */
    predicate Struck(p: Player, c: Coord, f: Result<Fired, Error>, ship: Option<Ship>,
                     s0: Snap, out: Outcome<Error>, fin: bool, s: Snap)
    {
      if f.Err? then out == Fail(f.error) && !fin && s == s0
      else if f.value.result == Repeat then Resent(s0, out, fin, s)
      else
        var k := Opponent(p).user.id;
        var won := f.value.result == Killed && !HasAvailableShips(f.value.grid);
        var sunk := if f.value.result == Killed then ship else None;
        Announced(p, c, f.value.result, won, sunk, s0.(grids := s0.grids[k := f.value.grid]), out, fin, s)
    }

    /** sendTurn: switches the turn when asked, then tells both players who holds it. */
    method SendTurn(toSwitch: bool, net: Transport) returns (out: Outcome<Error>, fin: bool)
      requires Valid() && net !in Repr
      modifies Repr, first`wins, second`wins, net
      decreases Fuel(), 4
      ensures Valid() && Repr == old(Repr) && boards == old(boards)
      ensures Fuel() <= old(Fuel()) && old(net.log) <= net.log
      ensures fin ==> out.Pass? && EndsWithFinish(net.log)
      ensures out.Pass? && !fin ==> !BotPlays(turn)
      ensures var t := if toSwitch then Opponent(old(turn)) else old(turn);
        && TurnSent(old(net.log), t, Now(net))
        && (!BotPlays(t) ==> out == Pass && !fin && Now(net).grids == old(cells) && Now(net).wins == old(Now(net)).wins)
    {
      if toSwitch {
        turn := Opponent(turn);
      }
      net.Broadcast(Channels(), Turn(turn.user.id));
      out, fin := Deliver(net);
    }

    /** The turn message reaching the second player: a bot named by it fires at once, and
        fails when it has not been bound to a game. */
    method Deliver(net: Transport) returns (out: Outcome<Error>, fin: bool)
      requires Valid() && net !in Repr
      modifies Repr, first`wins, second`wins, net
      decreases Fuel(), 3
      ensures Valid() && Repr == old(Repr) && boards == old(boards)
      ensures Fuel() <= old(Fuel()) && old(net.log) <= net.log
      ensures fin ==> out.Pass? && EndsWithFinish(net.log)
      ensures out.Pass? && !fin ==> !BotPlays(turn)
      ensures !BotPlays(old(turn)) ==> out == Pass && !fin && Now(net) == old(Now(net))
      ensures BotPlays(old(turn)) && old(second.game) == null ==>
        out == Fail(GameError(BotWithoutGame)) && !fin && Now(net) == old(Now(net))
    {
      if Reacts(second, Turn(turn.user.id)) {
        if second.game == null {
          return Fail(GameError(BotWithoutGame)), false;
        }
        ghost var target;
        out, fin, target := AutoAtack(second, net);
      } else {
        out, fin := Pass, false;
      }
    }

    /** autoAtack: a shot at a random cell of the opponent's board that is not resolved,
        so the board never answers with a repeat. */
    method AutoAtack(p: Player, net: Transport) returns (out: Outcome<Error>, fin: bool, ghost target: Option<Coord>)
      requires Valid() && net !in Repr
      modifies Repr, first`wins, second`wins, net
      decreases Fuel(), if p == turn then 2 else 7
      ensures Valid() && Repr == old(Repr) && boards == old(boards)
      ensures Fuel() <= old(Fuel()) && old(net.log) <= net.log
      ensures fin ==> out.Pass? && EndsWithFinish(net.log)
      ensures out.Pass? && !fin ==> !BotPlays(turn)
      ensures Opponent(p).user.id !in old(boards) ==>
        out == Fail(GameError(BoardNotFound)) && !fin && target == None && Now(net) == old(Now(net))
      ensures var k := Opponent(p).user.id;
        k in old(boards) && (forall c | InGrid(c) :: old(cells)[k][Index(c)] == NotAvailable) ==>
        out == Fail(GameError(NoAttackPoints)) && !fin && target == None && Now(net) == old(Now(net))
      ensures var k := Opponent(p).user.id;
        k in old(boards) && (exists c | InGrid(c) :: old(cells)[k][Index(c)] != NotAvailable) ==>
        target.Some?
      ensures target.Some? ==> var k := Opponent(p).user.id;
        && k in old(boards) && InGrid(target.value)
        && old(cells)[k][Index(target.value)] != NotAvailable
      ensures target.Some? && p != old(turn) ==> Resent(old(Now(net)), out, fin, Now(net))
      ensures target.Some? && p == old(turn) ==>
        && old(FireAt(p, target.value)).value.result != Repeat
        && Struck(p, target.value, old(FireAt(p, target.value)), old(HitShip(p, target.value)), old(Now(net)), out, fin, Now(net))
    {
      target := None;
      var k := Opponent(p).user.id;
      if k !in boards {
        return Fail(GameError(BoardNotFound)), false, None;
      }
      var board := boards[k];
      var points := board.AvailableCoordinates();
      var coordinate := RandomCoordinate(points, 1, false);
      if |points| == 0 || coordinate.None? {
        NoCandidate(board, points, coordinate);
        return Fail(GameError(NoAttackPoints)), false, None;
      }
      target := coordinate;
      var c := coordinate.value;
      if p == turn {
        FireOutcome(cells[k], board.ships, c);
      }
      out, fin := Atack(p, c, net);
    }

    /** When no cell can be drawn, every cell of the board is resolved. */
    lemma NoCandidate(board: Board, points: seq<Coord>, coordinate: Option<Coord>)
      requires board.Valid()
      requires forall c :: c in points <==> InGrid(c) && board.grid[Index(c)] != NotAvailable
      requires coordinate.None? <==> forall c :: c in points ==> !RunIn(points, c, 1, false)
      requires |points| == 0 || coordinate.None?
      ensures forall c | InGrid(c) :: board.grid[Index(c)] == NotAvailable
    {
      forall c | InGrid(c) ensures board.grid[Index(c)] == NotAvailable {
        if board.grid[Index(c)] != NotAvailable {
          assert c in points;
          assert RunIn(points, c, 1, false) by {
            assert Step(c, false, 0) == c;
          }
        }
      }
    }

    /** atack: the opponent must have a board; a player out of turn only hears the turn
        again; the turn holder's shot goes as `Struck` says. */
    method Atack(p: Player, c: Coord, net: Transport) returns (out: Outcome<Error>, fin: bool)
      requires Valid() && net !in Repr
      modifies Repr, first`wins, second`wins, net
      decreases Fuel(), if WillFire(p, c) then 1 else 6
      ensures Valid() && Repr == old(Repr) && boards == old(boards)
      ensures Fuel() <= old(Fuel()) && old(net.log) <= net.log
      ensures fin ==> out.Pass? && EndsWithFinish(net.log)
      ensures out.Pass? && !fin ==> !BotPlays(turn)
      ensures Opponent(p).user.id !in old(boards) ==>
        out == Fail(GameError(BoardNotFound)) && !fin && Now(net) == old(Now(net))
      ensures Opponent(p).user.id in old(boards) && p != old(turn) ==> Resent(old(Now(net)), out, fin, Now(net))
      ensures Opponent(p).user.id in old(boards) && p == old(turn) ==>
        Struck(p, c, old(FireAt(p, c)), old(HitShip(p, c)), old(Now(net)), out, fin, Now(net))
    {
      var k := Opponent(p).user.id;
      if k !in boards {
        return Fail(GameError(BoardNotFound)), false;
      }
      if p != turn {
        out, fin := SendTurn(false, net);
        return;
      }
      out, fin := Strike(p, c, net);
    }

    /** The turn holder's shot at the opponent's board. */
    method Strike(p: Player, c: Coord, net: Transport) returns (out: Outcome<Error>, fin: bool)
      requires Valid() && net !in Repr
      requires p == turn && Opponent(p).user.id in boards
      modifies Repr, first`wins, second`wins, net
      decreases Fuel(), if WillFire(p, c) then 0 else 5
      ensures Valid() && Repr == old(Repr) && boards == old(boards)
      ensures Fuel() <= old(Fuel()) && old(net.log) <= net.log
      ensures fin ==> out.Pass? && EndsWithFinish(net.log)
      ensures out.Pass? && !fin ==> !BotPlays(turn)
      ensures Struck(p, c, old(FireAt(p, c)), old(HitShip(p, c)), old(Now(net)), out, fin, Now(net))
    {
      var k := Opponent(p).user.id;
      ghost var s0 := Now(net);
      ghost var f := FireAt(p, c);
      ghost var hit := HitShip(p, c);
      ghost var fuel0 := Fuel();
      if InGrid(c) {
        FireOutcome(cells[k], boards[k].ships, c);
      }
      var r := Shoot(k, c);
      if r.Err? {
        return Fail(r.error), false;
      }
      if r.value == Repeat {
        assert Now(net) == s0;
        out, fin := SendTurn(false, net);
        assert Resent(s0, out, fin, Now(net));
        return;
      }
      ghost var s1 := s0.(grids := s0.grids[k := f.value.grid]);
      assert Now(net) == s1;
      assert Fuel() < fuel0 by {
        assert Unresolved(cells[k]) < Unresolved(s0.grids[k]);
      }
      ghost var won := r.value == Killed && !HasAvailableShips(f.value.grid);
      ghost var sunk := if r.value == Killed then hit else None;
      assert sunk == if r.value == Killed then boards[k].lastKilled else None;
      out, fin := Announce(p, c, r.value, net);
      assert Announced(p, c, f.value.result, won, sunk, s1, out, fin, Now(net));
    }

    /** The board of `k` answers a shot at `c`, and the game records its new cells. */
    method Shoot(k: int, c: Coord) returns (r: Result<AttackResult, Error>)
      requires Valid() && k in boards
      modifies this`cells, boards[k], boards[k].grid
      ensures Valid() && boards == old(boards)
      ensures var f := Fire(old(cells)[k], boards[k].ships, c);
        && (f.Err? ==> r == Err(f.error) && cells == old(cells))
        && (f.Ok? ==> r == Ok(f.value.result))
        && (f.Ok? && f.value.result == Repeat ==> cells == old(cells))
        && (f.Ok? && f.value.result != Repeat ==> cells == old(cells)[k := f.value.grid])
        && (f.Ok? && f.value.result == Killed ==> boards[k].lastKilled == TargetShip(old(cells)[k], boards[k].ships, c))
    {
      var board := boards[k];
      r := board.Attack(c);
      if r.Ok? && r.value != Repeat {
        cells := cells[k := board.grid[..]];
      }
    }

    /** After a shot that resolved a cell: the result goes to both players, then the win,
        or the sunk ship's notices and the turn. */
    method Announce(p: Player, c: Coord, result: AttackResult, net: Transport) returns (out: Outcome<Error>, fin: bool)
      requires Valid() && net !in Repr
      requires p == turn && result != Repeat && Opponent(p).user.id in boards
      modifies Repr, first`wins, second`wins, net
      decreases Fuel(), 6
      ensures Valid() && Repr == old(Repr) && boards == old(boards)
      ensures Fuel() <= old(Fuel()) && old(net.log) <= net.log
      ensures fin ==> out.Pass? && EndsWithFinish(net.log)
      ensures out.Pass? && !fin ==> !BotPlays(turn)
      ensures var k := Opponent(p).user.id;
        var won := result == Killed && !HasAvailableShips(old(cells)[k]);
        var sunk := if result == Killed then old(boards[k].lastKilled) else None;
        Announced(p, c, result, won, sunk, old(Now(net)), out, fin, Now(net))
    {
      var k := Opponent(p).user.id;
      var board := boards[k];
      var won := result == Killed && !board.HasAvailableShips();
      var sunk := if result == Killed then board.lastKilled else None;
      net.Broadcast(Channels(), AttackFeedback(c, p.user.id, result));
      if won {
        Win(p, net);
        return Pass, true;
      }
      out, fin := Proceed(p, result, sunk, net);
    }

    /** After a shot that did not win: the sunk ship's cells and ring, if a ship sank,
        then the turn, which passes to the opponent exactly on a miss. */
    method Proceed(p: Player, result: AttackResult, ship: Option<Ship>, net: Transport) returns (out: Outcome<Error>, fin: bool)
      requires Valid() && net !in Repr && p == turn
      modifies Repr, first`wins, second`wins, net
      decreases Fuel(), 5
      ensures Valid() && Repr == old(Repr) && boards == old(boards)
      ensures Fuel() <= old(Fuel()) && old(net.log) <= net.log
      ensures fin ==> out.Pass? && EndsWithFinish(net.log)
      ensures out.Pass? && !fin ==> !BotPlays(turn)
      ensures var next := if result == Miss then Opponent(p) else p;
        var sunk := if ship.Some? then SunkNotices(Channels(), ship.value, p.user.id) else [];
        && TurnSent(old(net.log) + sunk, next, Now(net))
        && (!BotPlays(next) ==> out == Pass && !fin && Now(net).grids == old(cells) && Now(net).wins == old(Now(net)).wins)
    {
      if ship.Some? {
        Sink(p, ship.value, net);
      }
      out, fin := SendTurn(result == Miss, net);
    }

    /** The winner's count goes up by one and both players hear who won. */
    method Win(p: Player, net: Transport)
      requires p == first || p == second
      requires first != second
      modifies p`wins, net
      ensures (first.wins, second.wins) == WinFor(p, old((first.wins, second.wins)))
      ensures net.log == old(net.log) + Fanout(Channels(), Finish(Some(p.user.id)))
    {
      p.wins := p.wins + 1;
      net.Broadcast(Channels(), Finish(Some(p.user.id)));
    }

    /** A sunk ship's cells, as killed, then its ring, as missed, to both players. */
    method Sink(p: Player, ship: Ship, net: Transport)
      modifies net
      ensures net.log == old(net.log) + SunkNotices(Channels(), ship, p.user.id)
    {
      SendCells(ShipCells(ship), p.user.id, Killed, net);
      SendCells(PointsAround(ship), p.user.id, Miss, net);
    }

    /** The notices for a run of cells, to both players. */
    method SendCells(cells: seq<Coord>, player: int, status: AttackResult, net: Transport)
      modifies net
      ensures net.log == old(net.log) + CellNotices(Channels(), cells, player, status)
    {
      for i := 0 to |cells|
        invariant net.log == old(net.log) + CellNotices(Channels(), cells[..i], player, status)
      {
        assert cells[..i + 1][..i] == cells[..i];
        net.Broadcast(Channels(), AttackFeedback(cells[i], player, status));
      }
      assert cells[..|cells|] == cells;
    }

    /** abandon: both players hear that the game ended with no winner. */
    method Abandon(net: Transport)
      modifies net
      ensures net.log == old(net.log) + Fanout(Channels(), Finish(None))
    {
      net.Broadcast(Channels(), Finish(None));
    }

    function StartMessages(): seq<Envelope>
      reads this
      requires first.user.id in boards && second.user.id in boards
    {
      [Envelope(first.channel, StartGame(boards[first.user.id].ships, first.user.id)),
       Envelope(second.channel, StartGame(boards[second.user.id].ships, second.user.id))]
    }

    /** The start handler: each player is sent its own fleet and its own id, then the turn
        is switched and sent. */
    method Start(net: Transport) returns (out: Outcome<Error>, fin: bool)
      requires Valid() && net !in Repr
      modifies Repr, first`wins, second`wins, net
      ensures Valid() && Repr == old(Repr) && boards == old(boards) && old(net.log) <= net.log
      ensures fin ==> out.Pass? && EndsWithFinish(net.log)
      ensures out.Pass? && !fin ==> !BotPlays(turn)
      ensures first.user.id !in boards ==> out == Fail(GameError(BoardNotFound)) && !fin && Now(net) == old(Now(net))
      ensures first.user.id in boards && second.user.id !in boards ==>
        && out == Fail(GameError(BoardNotFound)) && !fin
        && Now(net) == old(Now(net)).(log := Now(net).log)
        && net.log == old(net.log) + [Envelope(first.channel, StartGame(boards[first.user.id].ships, first.user.id))]
      ensures first.user.id in boards && second.user.id in boards ==>
        var t := Opponent(old(turn));
        && TurnSent(old(net.log) + StartMessages(), t, Now(net))
        && (!BotPlays(t) ==> out == Pass && !fin && Now(net).grids == old(Now(net)).grids && Now(net).wins == old(Now(net)).wins)
    {
      if first.user.id !in boards {
        return Fail(GameError(BoardNotFound)), false;
      }
      ghost var s0 := Now(net);
      net.Send(first.channel, StartGame(boards[first.user.id].ships, first.user.id));
      if second.user.id !in boards {
        assert Now(net) == s0.(log := net.log);
        return Fail(GameError(BoardNotFound)), false;
      }
      net.Send(second.channel, StartGame(boards[second.user.id].ships, second.user.id));
      assert net.log == s0.log + StartMessages();
      out, fin := SendTurn(true, net);
    }

    /** addBoard: one board per player, placed from the supplied fleet or generated; the
        second board to arrive starts the game. */
    method AddBoard(p: Player, fleet: Option<seq<Ship>>, net: Transport) returns (out: Outcome<Error>, fin: bool)
      requires Valid() && net !in Repr
      modifies Repr, first`wins, second`wins, net
      ensures Valid() && old(Repr) <= Repr && fresh(Repr - old(Repr)) && old(net.log) <= net.log
      ensures fin ==> out.Pass? && EndsWithFinish(net.log)
      ensures p.user.id in old(boards) ==>
        out == Fail(GameError(BoardExists)) && !fin && boards == old(boards) && Now(net) == old(Now(net))
      ensures p.user.id !in old(boards) && p.user.id !in boards ==>
        && !fin && boards == old(boards) && Now(net) == old(Now(net))
        && (fleet.Some? ==> Layout(fleet.value).Err? && out == Fail(Layout(fleet.value).error))
        && (fleet.None? ==> out == Fail(GameError(NoPoints)))
      ensures p.user.id !in old(boards) && fleet.Some? && Layout(fleet.value).Ok? ==> p.user.id in boards
      ensures p.user.id !in old(boards) && p.user.id in boards ==>
        var b := boards[p.user.id];
        && boards == old(boards)[p.user.id := b] && fresh(b)
        && (fleet.Some? ==> b.ships == Indexed(fleet.value))
        && (fleet.None? ==> |b.ships| == 10 && FollowsPlan(b.ships, Plan(FleetConfig)) && WellSpread(b.ships))
      ensures p.user.id !in old(boards) && p.user.id in boards && |old(boards)| != 1 ==>
        && out == Pass && !fin && Holds(boards[p.user.id].grid[..], boards[p.user.id].ships)
        && net.log == old(net.log) && turn == old(turn)
      ensures |old(boards)| != 1 ==> first.wins == old(first.wins) && second.wins == old(second.wins)
      ensures p.user.id !in old(boards) && p.user.id in boards && |old(boards)| == 1 ==>
        && (first.user.id !in boards || second.user.id !in boards ==> out == Fail(GameError(BoardNotFound)) && !fin)
        && (first.user.id in boards && second.user.id in boards ==>
              var t := Opponent(old(turn));
              && TurnSent(old(net.log) + StartMessages(), t, Now(net))
              && (!BotPlays(t) ==> out == Pass && !fin && !BotPlays(turn)))
    {
      out := Place(p, fleet);
      if out.Fail? {
        return out, false;
      }
      if |boards| == 2 {
        out, fin := Start(net);
      } else {
        fin := false;
      }
    }

    /** The board check and placement of addBoard, before any start. */
    method Place(p: Player, fleet: Option<seq<Ship>>) returns (out: Outcome<Error>)
      requires Valid()
      modifies this
      ensures Valid() && old(Repr) <= Repr && fresh(Repr - old(Repr)) && turn == old(turn)
      ensures p.user.id in old(boards) ==> out == Fail(GameError(BoardExists))
      ensures out.Fail? ==> boards == old(boards) && cells == old(cells)
      ensures out.Pass? <==> p.user.id !in old(boards) && p.user.id in boards
      ensures p.user.id !in old(boards) && out.Fail? ==>
        && (fleet.Some? ==> Layout(fleet.value).Err? && out == Fail(Layout(fleet.value).error))
        && (fleet.None? ==> out == Fail(GameError(NoPoints)))
      ensures out.Pass? ==>
        var b := boards[p.user.id];
        && boards == old(boards)[p.user.id := b] && fresh(b)
        && Holds(b.grid[..], b.ships)
        && (fleet.Some? ==> b.ships == Indexed(fleet.value))
        && (fleet.None? ==> |b.ships| == 10 && FollowsPlan(b.ships, Plan(FleetConfig)) && WellSpread(b.ships))
      ensures p.user.id !in old(boards) && fleet.Some? && Layout(fleet.value).Ok? ==> out.Pass?
    {
      if p.user.id in boards {
        return Fail(GameError(BoardExists));
      }
      FleetPlan();
      var made := NewBoard(fleet);
      if made.Err? {
        return Fail(made.error);
      }
      Insert(p.user.id, made.value);
      out := Pass;
    }

    /** The board map takes a new board for `key`. */
    method Insert(key: int, b: Board)
      requires Valid() && key !in boards && b.Valid() && b !in Repr && b.grid !in Repr
      modifies this
      ensures Valid() && boards == old(boards)[key := b] && cells == old(cells)[key := b.grid[..]]
      ensures Repr == old(Repr) + {b, b.grid} && turn == old(turn)
    {
      boards := boards[key := b];
      cells := cells[key := b.grid[..]];
      Repr := Repr + {b, b.grid};
    }

    /** A game request's move, handed to addBoard, atack or autoAtack. */
    method Play(p: Player, move: Move, net: Transport) returns (out: Outcome<Error>, fin: bool)
      requires Valid() && net !in Repr
      modifies Repr, first`wins, second`wins, net
      ensures Valid() && old(Repr) <= Repr && fresh(Repr - old(Repr)) && old(net.log) <= net.log
      ensures fin ==> out.Pass? && EndsWithFinish(net.log)
      ensures move.Fleet? && p.user.id in old(boards) ==>
        out == Fail(GameError(BoardExists)) && !fin && net.log == old(net.log)
      ensures !move.Fleet? && Opponent(p).user.id !in old(boards) ==>
        out == Fail(GameError(BoardNotFound)) && !fin && net.log == old(net.log)
    {
      match move {
        case Fleet(ships) =>
          out, fin := AddBoard(p, ships, net);
        case Shot(c) =>
          out, fin := Atack(p, c, net);
        case RandomShot =>
          ghost var target;
          out, fin, target := AutoAtack(p, net);
      }
    }
  }

  /** The game's constructor as the rooms call it: exactly two players, or
      GamePlayersError before anything happens; then a fresh id, and each player is told
      the game's id and its own id. */
  method NewGame(players: seq<Player>, ids: IdSource, net: Transport) returns (r: Result<Game, Error>)
    requires |players| == 2 ==> players[0].user.id != players[1].user.id && !players[0].IsBot()
    requires |players| == 2 && players[1].IsBot() ==> players[1].game == null
    modifies ids, net
    ensures |players| != 2 ==> r == Err(GamePlayersError) && ids.last == old(ids.last) && net.log == old(net.log)
    ensures |players| == 2 ==>
      && r.Ok? && fresh(r.value) && r.value.Valid() && r.value.Repr == {r.value}
      && r.value.id == old(ids.last) && ids.last == old(ids.last) + 1
      && r.value.first == players[0] && r.value.second == players[1]
      && r.value.turn == players[0] && r.value.boards == map[]
      && net.log == old(net.log) + [Envelope(players[0].channel, CreateGame(r.value.id, players[0].user.id)),
                                    Envelope(players[1].channel, CreateGame(r.value.id, players[1].user.id))]
  {
    if |players| != 2 {
      return Err(GamePlayersError);
    }
    var id := ids.Next();
    var g := new Game(id, players[0], players[1]);
    net.Send(players[0].channel, CreateGame(id, players[0].user.id));
    net.Send(players[1].channel, CreateGame(id, players[1].user.id));
    r := Ok(g);
  }

  /** The Bot's constructor: a user named "Bot" with password "any" and a fresh id, whose
      channel is the bot itself. */
  method NewBot(ids: IdSource) returns (bot: Player)
    modifies ids
    ensures fresh(bot) && bot.IsBot() && bot.wins == 0 && bot.game == null
    ensures bot.user == User(old(ids.last), "Bot", "any") && ids.last == old(ids.last) + 1
  {
    var id := ids.Next();
    var data := map["name" := Str("Bot"), "id" := Num(id), "password" := Str("any")];
    assert WellFormedUserData(data);
    var user := NewUser(data).value;
    bot := new Player(user, BotLink(id));
  }

  /** GAME_SINGLE's game: a new bot, a new game between the player and the bot (each told
      the game's id), and the bot's generated board (setGame), which may fail. */
  method BotGame(p: Player, ids: IdSource, net: Transport) returns (out: Outcome<Error>, g: Game)
    requires !p.IsBot() && p.user.id < ids.last
    modifies ids, net, p`wins
    ensures p.wins == old(p.wins)
    ensures fresh(g) && fresh(g.second) && g.Valid() && forall o | o in g.Repr :: fresh(o)
    ensures g.first == p && g.second.IsBot() && g.second.user == User(old(ids.last), "Bot", "any")
    ensures g.id == old(ids.last) + 1 && ids.last == old(ids.last) + 2
    ensures net.log == old(net.log) + [Envelope(p.channel, CreateGame(g.id, p.user.id)),
                                       Envelope(g.second.channel, CreateGame(g.id, g.second.user.id))]
    ensures out.Fail? ==> out == Fail(GameError(NoPoints)) && g.second.game == null && g.boards == map[]
    ensures out.Pass? ==> g.second.game == g && g.boards.Keys == {g.second.user.id}
  {
    var bot := NewBot(ids);
    var made := NewGame([p, bot], ids, net);
    g := made.value;
    var fin;
    out, fin := bot.SetGame(g, net);
  }
}
