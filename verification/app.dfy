/** The server's bookkeeping: the registered players, the open rooms and the running
    games; the dispatch of each client request; and what a closed connection clears away. */
module Apps {
  import opened Wrappers
  import opened Errors
  import opened Json
  import opened OrderedMaps
  import opened Db
  import opened Users
  import opened Geometry
  import opened Messages
  import opened Games
  import opened Rooms
  import opened Winners
  import opened Boards

  const UserTable := "user"
  const IncorrectPassword := "Incorrect password"
  const OpenSession := "You already have an open session"
  const NeedAuth := "Need to be authorized"
  const NoRoom := "Room doesn't exist"

  /** A client request, once its text has been parsed. A value the client left out is None.
      Attack coordinates are integers: a missing or non-numeric coordinate is off the board in
      the source, so an off-board integer stands for it. */
  datatype Request =
    | Reg(name: Option<Value>, password: Option<Value>)
    | CreateRoom
    | AddUserToRoom(indexRoom: Option<Value>)
    | AddShips(gameId: Option<Value>, ships: Option<seq<Ship>>)
    | Attack(gameId: Option<Value>, x: int, y: int)
    | RandomAttack(gameId: Option<Value>)
    | SinglePlay
    | Unknown

  /** A `Map` lookup keyed by a parsed value: only a number can equal a numeric id. */
  function Key(v: Option<Value>): (r: Option<int>)
    ensures r.Some? <==> v.Some? && v.value.Num?
    ensures r.Some? ==> v.value == Num(r.value)
  {
    if v.Some? && v.value.Num? then Some(v.value.n) else None
  }

  /** The first player in `ps` whose connection is `conn`. */
  function FirstOn(ps: seq<Player>, conn: Channel): (r: Option<Player>)
    ensures r.Some? ==> r.value in ps && r.value.channel == conn
    ensures r.None? <==> forall i | 0 <= i < |ps| :: ps[i].channel != conn
    ensures r.Some? ==>
      exists i | 0 <= i < |ps| :: ps[i] == r.value && forall j | 0 <= j < i :: ps[j].channel != conn
  {
    if ps == [] then None
    else if ps[0].channel == conn then Some(ps[0])
    else FirstOn(ps[1..], conn)
  }

  /** The first row whose "name" is strictly equal to `name`. */
  function FirstNamed(rows: seq<Row>, name: Option<Value>): (r: Option<Row>)
    ensures r.Some? ==> r.value in rows && StrictEquals(Lookup(r.value, "name"), name)
    ensures r.None? <==> forall i | 0 <= i < |rows| :: !StrictEquals(Lookup(rows[i], "name"), name)
    ensures r.Some? ==>
      exists i | 0 <= i < |rows| ::
        rows[i] == r.value && forall j | 0 <= j < i :: !StrictEquals(Lookup(rows[j], "name"), name)
  {
    if rows == [] then None
    else if StrictEquals(Lookup(rows[0], "name"), name) then Some(rows[0])
    else FirstNamed(rows[1..], name)
  }

  /** The object `{name, password}`: a property the client left out is not there. */
  function Credentials(name: Option<Value>, password: Option<Value>): (r: Row)
    ensures Lookup(r, "name") == name && Lookup(r, "password") == password && "id" !in r
  {
    (if name.Some? then map["name" := name.value] else map[])
    + (if password.Some? then map["password" := password.value] else map[])
  }

  /** Each player's connection, in order. */
  function ChannelsOf(ps: seq<Player>): (r: seq<Channel>)
    ensures |r| == |ps| && forall i :: 0 <= i < |r| ==> r[i] == ps[i].channel
  {
    seq(|ps|, i requires 0 <= i < |ps| => ps[i].channel)
  }

  /** Each player's name and current wins, in order. */
  function StandingOf(ps: seq<Player>): (r: seq<Winner>)
    reads ps
    ensures |r| == |ps| && forall i :: 0 <= i < |r| ==> r[i] == Winner(ps[i].user.name, ps[i].wins)
  {
    if ps == [] then [] else StandingOf(ps[..|ps| - 1]) + [Winner(ps[|ps| - 1].user.name, ps[|ps| - 1].wins)]
  }

  /** A room as the rooms list shows it: its id and each member's name and id, in join order. */
  function Info(room: Room): (r: RoomInfo)
    reads room
    requires room.Valid()
    ensures r.roomId == room.id && |r.roomUsers| == |room.GetPlayers()|
    ensures forall j :: 0 <= j < |r.roomUsers| ==>
      r.roomUsers[j] == RoomUser(room.GetPlayers()[j].user.name, room.GetPlayers()[j].user.id)
  {
    var ps := room.GetPlayers();
    RoomInfo(room.id, seq(|ps|, j requires 0 <= j < |ps| => RoomUser(ps[j].user.name, ps[j].user.id)))
  }

  /** The first room among `rs` whose members include the player object `p`. */
  function FirstHolding(rs: seq<Room>, p: Player): (r: Option<Room>)
    reads rs
    requires forall i | 0 <= i < |rs| :: rs[i].Valid()
    ensures r.Some? ==> r.value in rs && p in r.value.GetPlayers()
    ensures r.None? <==> forall i | 0 <= i < |rs| :: p !in rs[i].GetPlayers()
    ensures r.Some? ==> exists i | 0 <= i < |rs| :: rs[i] == r.value && forall j | 0 <= j < i :: p !in rs[j].GetPlayers()
  {
    if rs == [] then None
    else if p in rs[0].GetPlayers() then Some(rs[0])
    else FirstHolding(rs[1..], p)
  }

  /** Every stored row carries a numeric "id". */
  predicate RowsKeyed(rows: seq<Row>)
  {
    forall i | 0 <= i < |rows| :: "id" in rows[i] && rows[i]["id"].Num?
  }

  /** The row authUser settles on: the first stored row with that name, or else the
      credentials, stored under the next id. */
  function UserRow(rows: seq<Row>, name: Option<Value>, password: Option<Value>, next: int): Row
  {
    match FirstNamed(rows, name)
    case Some(row) => row
    case None => Credentials(name, password)["id" := Num(next)]
  }

  /** The checks authUser makes of the row it settled on: the row must make a valid user
      (ModelErrorFields otherwise), the password must be that user's, and the user must not
      be online already. */
  function Judge(row: Row, password: Option<Value>, online: set<int>): (r: Result<User, Error>)
    requires "id" in row ==> row["id"].Num?
    ensures r.Ok? ==> Lookup(row, "name") == Some(Str(r.value.name)) && password == Some(Str(r.value.password))
    ensures r.Ok? ==> r.value.id !in online
  {
    if !WellFormedUserData(row) then Err(ModelErrorFields)
    else if password != Some(row["password"]) then Err(AppError(IncorrectPassword))
    else if row["id"].n in online then Err(AppError(OpenSession))
    else Ok(User(row["id"].n, row["name"].s, row["password"].s))
  }

  /** authUser's verdict, given the stored rows, the id a new row would get and the ids of
      the players online. */
  function Admit(rows: seq<Row>, name: Option<Value>, password: Option<Value>, next: int, online: set<int>): (r: Result<User, Error>)
    requires RowsKeyed(rows)
    ensures r.Ok? ==> name == Some(Str(r.value.name)) && password == Some(Str(r.value.password))
    ensures r.Ok? ==> r.value.id !in online
    ensures r.Err? ==> r.error == ModelErrorFields || r.error == AppError(IncorrectPassword) || r.error == AppError(OpenSession)
  {
    var row := UserRow(rows, name, password, next);
    assert "id" in row ==> row["id"].Num? by {
      if FirstNamed(rows, name).Some? {
        var i :| 0 <= i < |rows| && rows[i] == row;
      }
    }
    assert Lookup(row, "name") == name;
    Judge(row, password, online)
  }

  /** A name no stored row has: admitted, under the next id, exactly when the name and the
      password are non-empty strings. */
  lemma NewNameAdmission(rows: seq<Row>, name: Option<Value>, password: Option<Value>, next: int, online: set<int>)
    requires RowsKeyed(rows) && FirstNamed(rows, name).None? && next !in online
    ensures Admit(rows, name, password, next, online).Ok? <==>
      && name.Some? && name.value.Str? && |name.value.s| > 0
      && password.Some? && password.value.Str? && |password.value.s| > 0
    ensures Admit(rows, name, password, next, online).Ok? ==> Admit(rows, name, password, next, online).value.id == next
  {
    var row := Credentials(name, password)["id" := Num(next)];
    assert Lookup(row, "name") == name && Lookup(row, "password") == password;
  }

  /** A name a stored row has: that row decides, whatever the next id; the password must
      equal the stored one. */
  lemma KnownNameAdmission(rows: seq<Row>, name: Option<Value>, password: Option<Value>, next: int, online: set<int>)
    requires RowsKeyed(rows) && FirstNamed(rows, name).Some?
    ensures var row := FirstNamed(rows, name).value;
      && (Admit(rows, name, password, next, online).Ok? <==>
            WellFormedUserData(row) && password == Some(row["password"]) && row["id"].n !in online)
      && (Admit(rows, name, password, next, online).Ok? ==> Admit(rows, name, password, next, online).value.id == row["id"].n)
      && (!WellFormedUserData(row) ==> Admit(rows, name, password, next, online) == Err(ModelErrorFields))
  {
    var row := FirstNamed(rows, name).value;
    var i :| 0 <= i < |rows| && rows[i] == row;
    assert "id" in row && row["id"].Num?;
  }

  /** authUser stores the row before it checks it: once a name has been refused for a
      malformed row, every later registration under that name is refused the same way,
      whatever the password. */
  lemma RefusedNameStaysRefused(rows: seq<Row>, name: Option<Value>, password: Option<Value>, next: int, online: set<int>,
                                password2: Option<Value>, next2: int, online2: set<int>)
    requires RowsKeyed(rows) && FirstNamed(rows, name).None?
    requires Admit(rows, name, password, next, online) == Err(ModelErrorFields)
    ensures RowsKeyed(rows + [UserRow(rows, name, password, next)])
    ensures Admit(rows + [UserRow(rows, name, password, next)], name, password2, next2, online2) == Err(ModelErrorFields)
  {
    var row := UserRow(rows, name, password, next);
    var rows2 := rows + [row];
    assert Lookup(row, "name") == name;
    assert !WellFormedUserData(row);
    forall i | 0 <= i < |rows| ensures !StrictEquals(Lookup(rows2[i], "name"), name) {
      assert rows2[i] == rows[i];
    }
    if StrictEquals(name, name) {
      FirstNamedAfter(rows, row, name);
      KnownNameAdmission(rows2, name, password2, next2, online2);
    } else {
      assert FirstNamed(rows2, name).None? by {
        FirstNamedAfter(rows, row, name);
      }
      var row2 := UserRow(rows2, name, password2, next2);
      assert Lookup(row2, "name") == name;
    }
  }

  /** When no row of `rows` has the name, the search over `rows + [row]` decides on `row`. */
  lemma {:induction false} FirstNamedAfter(rows: seq<Row>, row: Row, name: Option<Value>)
    requires FirstNamed(rows, name).None?
    ensures FirstNamed(rows + [row], name) == if StrictEquals(Lookup(row, "name"), name) then Some(row) else None
  {
    if rows != [] {
      assert (rows + [row])[1..] == rows[1..] + [row];
      FirstNamedAfter(rows[1..], row, name);
    }
  }

  /** The rooms of `m`. */
  ghost function Objs(m: OMap<int, Room>): set<Room>
  {
    set k | k in m.vals :: m.vals[k]
  }

  /** The keys of the rooms of `m` in which user `id` waits. */
  ghost function Holding(m: OMap<int, Room>, id: int): set<int>
    reads Objs(m)
  {
    set k | k in m.vals && id in m.vals[k].players.vals
  }

  /** The callback of removePlayerFromRooms for one room: the room drops whoever waits
      under `p`'s user id, and says whether that left it empty. */
  method Vacate(room: Room, p: Player) returns (emptied: bool)
    requires room.Valid()
    modifies room`players
    ensures room.Valid() && room.players == old(room.players).Delete(p.user.id)
    ensures emptied <==> p.user.id in old(room.players.vals) && old(room.players.Size()) == 1
  {
    var present := room.RemovePlayer(p);
    emptied := present && |room.GetPlayers()| == 0;
  }

  /** The keys of `ks` whose flag in `hs` is set. */
  ghost function Picked(ks: seq<int>, hs: seq<bool>): set<int>
    requires |ks| == |hs|
  {
    if ks == [] then {}
    else Picked(ks[..|ks| - 1], hs[..|hs| - 1]) + if hs[|hs| - 1] then {ks[|ks| - 1]} else {}
  }

  /** With distinct keys, a key is picked exactly when its own flag is set. */
  lemma {:induction false} PickedMembers(ks: seq<int>, hs: seq<bool>)
    requires |ks| == |hs|
    requires forall j, j' | 0 <= j < j' < |ks| :: ks[j] != ks[j']
    ensures forall j | 0 <= j < |ks| :: ks[j] in Picked(ks, hs) <==> hs[j]
    ensures forall k | k in Picked(ks, hs) :: k in ks
  {
    if ks != [] {
      var n := |ks| - 1;
      PickedMembers(ks[..n], hs[..n]);
      forall j | 0 <= j < n ensures ks[j] in Picked(ks, hs) <==> hs[j] {
        assert ks[..n][j] == ks[j] && hs[..n][j] == hs[j];
      }
    }
  }

  /** Picking over one more key adds that key exactly when its flag is set, and it was
      not picked before, keys being distinct. */
  lemma PickedNext(ks: seq<int>, hs: seq<bool>, i: int)
    requires |ks| == |hs| && 0 <= i < |ks|
    requires forall j, j' | 0 <= j < j' < |ks| :: ks[j] != ks[j']
    ensures ks[i] !in Picked(ks[..i], hs[..i])
    ensures Picked(ks[..i + 1], hs[..i + 1]) == Picked(ks[..i], hs[..i]) + if hs[i] then {ks[i]} else {}
  {
    PickedMembers(ks[..i], hs[..i]);
    assert ks[i] !in ks[..i] by {
      forall j | 0 <= j < i ensures ks[..i][j] != ks[i] {
        assert ks[..i][j] == ks[j];
      }
    }
    assert ks[..i + 1][..i] == ks[..i] && hs[..i + 1][..i] == hs[..i];
  }

  /** The entries of `m` once the first `i` keys of `ks` are visited, each key whose flag
      in `hs` is set deleted. */
  ghost function Swept<V>(m: OMap<int, V>, ks: seq<int>, hs: seq<bool>, i: nat): (r: OMap<int, V>)
    requires m.Valid() && i <= |ks| == |hs|
    ensures r.Valid()
  {
    if i == 0 then m
    else
      var s := Swept(m, ks, hs, i - 1);
      if hs[i - 1] then s.Delete(ks[i - 1]) else s
  }

  /** Deleting the flagged keys one by one is deleting them all at once. */
  lemma {:induction false} SweptAll<V>(m: OMap<int, V>, ks: seq<int>, hs: seq<bool>, i: nat)
    requires m.Valid() && i <= |ks| == |hs|
    requires forall j, j' | 0 <= j < j' < |ks| :: ks[j] != ks[j']
    ensures Swept(m, ks, hs, i) == m.DeleteAll(Picked(ks[..i], hs[..i]))
  {
    if i == 0 {
      DeleteAllAbsent(m, {});
    } else {
      var n := i - 1;
      SweptAll(m, ks, hs, n);
      PickedNext(ks, hs, n);
      assert n + 1 == i;
      if hs[n] {
        DeleteAllStep(m, Picked(ks[..n], hs[..n]), ks[n]);
        assert Swept(m, ks, hs, i) == Swept(m, ks, hs, n).Delete(ks[n]);
      } else {
        assert Picked(ks[..i], hs[..i]) == Picked(ks[..n], hs[..n]);
        assert Swept(m, ks, hs, i) == Swept(m, ks, hs, n);
      }
    }
  }

  /** Once every key is visited, exactly the flagged keys are deleted. */
  lemma SweptWhole<V>(m: OMap<int, V>, ks: seq<int>, hs: seq<bool>)
    requires m.Valid() && |ks| == |hs|
    requires forall j, j' | 0 <= j < j' < |ks| :: ks[j] != ks[j']
    ensures Swept(m, ks, hs, |ks|) == m.DeleteAll(Picked(ks, hs))
    ensures forall j | 0 <= j < |ks| :: ks[j] in Picked(ks, hs) <==> hs[j]
    ensures forall k | k in Picked(ks, hs) :: k in ks
  {
    SweptAll(m, ks, hs, |ks|);
    assert ks[..|ks|] == ks && hs[..|ks|] == hs;
    PickedMembers(ks, hs);
  }

  /** The loop of removePlayerFromRooms, visiting the keys `ks` of the open rooms `m` in
      order (`rs` the rooms under them): each room drops whoever waits under `p`'s user id,
      and a room that drops its only member is deleted from the result. */
  method VacateEach(ks: seq<int>, ghost rs: seq<Room>, ghost held: seq<bool>, m: OMap<int, Room>, p: Player)
    returns (r: OMap<int, Room>, ghost cleared: set<int>)
    requires |ks| == |rs| == |held| && m.Valid()
    requires forall j | 0 <= j < |rs| :: held[j] == (p.user.id in rs[j].players.vals)
    requires forall j | 0 <= j < |ks| :: ks[j] in m.vals && m.vals[ks[j]] == rs[j] && rs[j].id == ks[j]
    requires forall r | r in rs :: r.Valid() && r.players.Size() == 1
    requires forall j, j' | 0 <= j < j' < |ks| :: ks[j] != ks[j'] && rs[j] != rs[j']
    modifies rs
    ensures r == m.DeleteAll(cleared)
    ensures forall j | 0 <= j < |ks| :: ks[j] in cleared <==> p.user.id in old(rs[j].players.vals)
    ensures forall k | k in cleared :: k in ks
    ensures forall j | 0 <= j < |rs| :: old(rs[j].Valid()) && rs[j].players == old(rs[j].players).Delete(p.user.id)
  {
    r := m;
    for i := 0 to |ks|
      invariant r == Swept(m, ks, held, i)
      invariant forall j | i <= j < |ks| :: r.Get(ks[j]) == m.Get(ks[j])
      invariant forall j | 0 <= j < i :: rs[j].players == old(rs[j].players).Delete(p.user.id)
      invariant forall j | i <= j < |rs| :: rs[j].players == old(rs[j].players)
    {
      var k := ks[i];
      assert r.Get(k) == m.Get(k);
      var room := r.vals[k];
      assert room == rs[i] && rs[i] in rs;
      var emptied := Vacate(room, p);
      assert emptied == held[i];
      forall j | 0 <= j < |rs| && j != i ensures rs[j] != room {
        if j < i {
          assert rs[j] != rs[i];
        } else {
          assert rs[i] != rs[j];
        }
      }
      if emptied {
        r := r.Delete(room.id);
      }
      forall j | i + 1 <= j < |ks| ensures r.Get(ks[j]) == m.Get(ks[j]) {
        assert ks[i] != ks[j];
      }
    }
    SweptWhole(m, ks, held);
    cleared := Picked(ks, held);
  }

  /** removePlayerFromRooms' loop over the open rooms `m`, each stored under its id and
      waiting with one member: exactly the rooms `p` waited in are emptied and deleted, and
      every other room stays as it was. */
  method ClearRoomsIn(m: OMap<int, Room>, p: Player) returns (r: OMap<int, Room>)
    requires m.Valid()
    requires forall k | k in m.vals :: m.vals[k].id == k && m.vals[k].Valid() && m.vals[k].players.Size() == 1
    modifies Objs(m)
    ensures r == m.DeleteAll(old(Holding(m, p.user.id)))
    ensures forall k | k in old(Holding(m, p.user.id)) :: m.vals[k].players.Size() == 0
    ensures forall k | k in r.vals :: r.vals[k].players == old(r.vals[k].players)
  {
    ghost var gone := Holding(m, p.user.id);
    var ks := m.keys;
    ghost var rs := m.Values();
    forall j | 0 <= j < |ks| ensures ks[j] in m.vals && rs[j] == m.vals[ks[j]] && rs[j].id == ks[j] {
      assert ks[j] in m.keys;
    }
    forall j, j' | 0 <= j < j' < |ks| ensures ks[j] != ks[j'] && rs[j] != rs[j'] {
      DistinctApart(ks, j, j');
    }
    ghost var held := seq(|rs|, j requires 0 <= j < |rs| reads rs => p.user.id in rs[j].players.vals);
    ghost var cleared;
    r, cleared := VacateEach(ks, rs, held, m, p);
    assert cleared == gone by {
      forall k | k in gone ensures k in cleared {
        assert k in m.keys;
        var j :| 0 <= j < |ks| && ks[j] == k;
      }
      forall k | k in cleared ensures k in gone {
        var j :| 0 <= j < |ks| && ks[j] == k;
      }
    }
    forall k | k in gone ensures m.vals[k].players.Size() == 0 {
      assert k in m.keys;
      var j :| 0 <= j < |ks| && ks[j] == k;
    }
    forall k | k in r.vals ensures r.vals[k] == m.vals[k] && r.vals[k].players == old(r.vals[k].players) {
      assert r.Get(k) == m.Get(k) && k in m.keys;
      var j :| 0 <= j < |ks| && ks[j] == k;
    }
  }

  /** `game.players.includes(player)`: `p` is one of the game's two players. */
  predicate Plays(g: Game, p: Player)
  {
    g.first == p || g.second == p
  }

  /** What abandonPlayerGames sends, game by game along `gs`: each game `p` plays in tells
      both its players that it ended with no winner, and its FINISHED handler then sends
      every registered player (`to`) the standings `table`, most wins first. */
  function AbandonNotices(gs: seq<Game>, p: Player, to: seq<Channel>, table: seq<Winner>): seq<Envelope>
  {
    if gs == [] then []
    else AbandonNotices(gs[..|gs| - 1], p, to, table) + Notice(gs[|gs| - 1], p, to, table)
  }

  /** What abandonPlayerGames sends for the one game `g`. */
  function Notice(g: Game, p: Player, to: seq<Channel>, table: seq<Winner>): seq<Envelope>
  {
    if Plays(g, p) then Fanout(g.Channels(), Finish(None)) + Fanout(to, UpdateWinners(SortByWins(table))) else []
  }

  /** A departure says nothing at all exactly when `p` plays in none of the games. */
  lemma {:induction false} AbandonNoticesEmpty(gs: seq<Game>, p: Player, to: seq<Channel>, table: seq<Winner>)
    ensures AbandonNotices(gs, p, to, table) == [] <==> forall j | 0 <= j < |gs| :: !Plays(gs[j], p)
  {
    if gs != [] {
      var n := |gs| - 1;
      AbandonNoticesEmpty(gs[..n], p, to, table);
      forall j | 0 <= j < n ensures gs[..n][j] == gs[j] {}
      if Plays(gs[n], p) {
        assert |AbandonNotices(gs, p, to, table)| >= |gs[n].Channels()|;
      }
    }
  }

  /** Both players of each game `p` plays in hear that it ended with no winner. */
  lemma {:induction false} AbandonNoticesFinish(gs: seq<Game>, p: Player, to: seq<Channel>, table: seq<Winner>)
    ensures forall j | 0 <= j < |gs| && Plays(gs[j], p) ::
      && Envelope(gs[j].first.channel, Finish(None)) in AbandonNotices(gs, p, to, table)
      && Envelope(gs[j].second.channel, Finish(None)) in AbandonNotices(gs, p, to, table)
  {
    if gs != [] {
      var n := |gs| - 1;
      var g := gs[n];
      var before := AbandonNotices(gs[..n], p, to, table);
      var all := AbandonNotices(gs, p, to, table);
      AbandonNoticesFinish(gs[..n], p, to, table);
      assert all == before + Notice(g, p, to, table);
      forall j | 0 <= j < n && Plays(gs[j], p)
        ensures Envelope(gs[j].first.channel, Finish(None)) in all && Envelope(gs[j].second.channel, Finish(None)) in all
      {
        assert gs[..n][j] == gs[j];
      }
      if Plays(g, p) {
        var last := Notice(g, p, to, table);
        assert last[0] == Envelope(g.first.channel, Finish(None));
        assert last[1] == Envelope(g.second.channel, Finish(None));
        assert all[|before|] == last[0] && all[|before| + 1] == last[1];
      }
    }
  }

  /** A departure says nothing but that games ended with no winner, and the standings. */
  lemma {:induction false} AbandonNoticesOnly(gs: seq<Game>, p: Player, to: seq<Channel>, table: seq<Winner>)
    ensures forall e | e in AbandonNotices(gs, p, to, table) ::
      e.msg == Finish(None) || e.msg == UpdateWinners(SortByWins(table))
  {
    if gs != [] {
      var n := |gs| - 1;
      var g := gs[n];
      AbandonNoticesOnly(gs[..n], p, to, table);
      if Plays(g, p) {
        var fin := Fanout(g.Channels(), Finish(None));
        var win := Fanout(to, UpdateWinners(SortByWins(table)));
        assert AbandonNotices(gs, p, to, table) == AbandonNotices(gs[..n], p, to, table) + fin + win;
        forall e: Envelope | e in fin + win ensures e.msg == Finish(None) || e.msg == UpdateWinners(SortByWins(table)) {
          var i :| 0 <= i < |fin + win| && (fin + win)[i] == e;
          if i >= |fin| {
            assert e == win[i - |fin|];
          }
        }
      }
    }
  }

  /** The keys of the games of `m` that `p` plays in. */
  ghost function Playing(m: OMap<int, Game>, p: Player): set<int>
  {
    set k | k in m.vals && Plays(m.vals[k], p)
  }

  /** Appending in two steps is appending once. */
  lemma Regrouped<T>(a: seq<T>, b: seq<T>, c: seq<T>)
    ensures a + b + c == a + (b + c)
  {
  }

  /** One step of abandonPlayerGames' loop: a game `p` plays in tells both its players
      that it ended with no winner, and its FINISHED handler sends `to` the standings. */
  method AbandonOne(g: Game, p: Player, net: Transport, to: seq<Channel>, table: seq<Winner>)
    modifies net
    ensures net.log == old(net.log) + Notice(g, p, to, table)
  {
    if g.first == p || g.second == p {
      g.Abandon(net);
      net.Broadcast(to, UpdateWinners(SortByWins(table)));
    }
  }

  /** The loop of abandonPlayerGames over the registered games `m`, each stored under its
      id, with the FINISHED handler of each abandoned game folded in: each game `p` plays
      in tells both its players that it ended with no winner, is deleted, and `to` gets
      the standings `table`; every other game stays. */
  method AbandonIn(m: OMap<int, Game>, p: Player, net: Transport, to: seq<Channel>, table: seq<Winner>)
    returns (r: OMap<int, Game>)
    requires m.Valid() && forall k | k in m.vals :: m.vals[k].id == k
    modifies net
    ensures r == m.DeleteAll(Playing(m, p))
    ensures forall k | k in r.vals :: !Plays(r.vals[k], p)
    ensures net.log == old(net.log) + AbandonNotices(m.Values(), p, to, table)
  {
    var ks := m.keys;
    var gs := m.Values();
    ghost var hs := seq(|gs|, j requires 0 <= j < |gs| => Plays(gs[j], p));
    forall j | 0 <= j < |ks| ensures ks[j] in m.vals && gs[j] == m.vals[ks[j]] && gs[j].id == ks[j] {
      assert ks[j] in m.keys;
    }
    forall j, j' | 0 <= j < j' < |ks| ensures ks[j] != ks[j'] {
      DistinctApart(ks, j, j');
    }
    r := m;
    for i := 0 to |ks|
      invariant r == Swept(m, ks, hs, i)
      invariant net.log == old(net.log) + AbandonNotices(gs[..i], p, to, table)
    {
      var g := gs[i];
      AbandonNoticesNext(gs, i, p, to, table);
      if g.first == p || g.second == p {
        r := r.Delete(g.id);
      }
      AbandonOne(g, p, net, to, table);
      Regrouped(old(net.log), AbandonNotices(gs[..i], p, to, table), Notice(g, p, to, table));
    }
    assert gs[..|ks|] == gs;
    SweptPlaying(m, p, hs);
  }

  /** The notices of one more game follow those of the games before it. */
  lemma AbandonNoticesNext(gs: seq<Game>, i: nat, p: Player, to: seq<Channel>, table: seq<Winner>)
    requires i < |gs|
    ensures AbandonNotices(gs[..i + 1], p, to, table) == AbandonNotices(gs[..i], p, to, table) + Notice(gs[i], p, to, table)
  {
    assert gs[..i + 1][..i] == gs[..i];
  }

  /** Sweeping the keys of `m` in order, flagging the games `p` plays in, deletes exactly
      those games and leaves none that `p` plays in. */
  lemma SweptPlaying(m: OMap<int, Game>, p: Player, hs: seq<bool>)
    requires m.Valid() && |hs| == |m.keys|
    requires forall j | 0 <= j < |hs| :: m.keys[j] in m.vals && hs[j] == Plays(m.vals[m.keys[j]], p)
    ensures Swept(m, m.keys, hs, |hs|) == m.DeleteAll(Playing(m, p))
    ensures forall k | k in Swept(m, m.keys, hs, |hs|).vals :: !Plays(Swept(m, m.keys, hs, |hs|).vals[k], p)
  {
    var ks := m.keys;
    forall j, j' | 0 <= j < j' < |ks| ensures ks[j] != ks[j'] {
      DistinctApart(ks, j, j');
    }
    SweptWhole(m, ks, hs);
    assert Picked(ks, hs) == Playing(m, p) by {
      forall k | k in Playing(m, p) ensures k in Picked(ks, hs) {
        assert k in m.keys;
        var j :| 0 <= j < |ks| && ks[j] == k;
      }
      forall k | k in Picked(ks, hs) ensures k in Playing(m, p) {
        var j :| 0 <= j < |ks| && ks[j] == k;
      }
    }
    var r := Swept(m, ks, hs, |ks|);
    forall k | k in r.vals ensures !Plays(r.vals[k], p) {
      assert r.Get(k) == m.Get(k);
    }
  }

  /** Dropping the key `k`, then the keys of `held`, drops `k` and the keys of `held`. */
  lemma FilledRooms<V>(r0: OMap<int, V>, r1: OMap<int, V>, r2: OMap<int, V>, k: int, held: set<int>)
    requires r0.Valid() && r1 == r0.Delete(k) && r2 == r1.DeleteAll(held)
    ensures r2 == r0.DeleteAll({k} + held)
  {
    DeleteOne(r0, k);
    DeleteAllTwice(r0, {k}, held);
  }

  /** Dropping the keys in `a`, then those of `b` still left, drops the keys of both. */
  lemma RemovedInTurn<V>(r0: OMap<int, V>, r1: OMap<int, V>, r2: OMap<int, V>, a: set<int>, b: set<int>, c: set<int>)
    requires r0.Valid() && r1 == r0.DeleteAll(a) && c == b - a && r2 == r1.DeleteAll(c)
    ensures r2 == r0.DeleteAll(a + b)
  {
    DeleteAllTwice(r0, a, b - a);
    assert a + (b - a) == a + b;
  }

  class App {
    const db: Database
    const ids: IdSource
    const net: Transport
    var players: OMap<int, Player>
    var rooms: OMap<int, Room>
    var games: OMap<int, Game>
    /** The objects of every registered game. */
    ghost var Shared: set<object>

    /** The user table, if it has been created. */
    ghost function UserTableObj(): set<Table>
      reads db
    {
      if UserTable in db.tables then {db.tables[UserTable]} else {}
    }

    /** The open rooms. */
    ghost function RoomObjs(): set<Room>
      reads this`rooms
    {
      set k | k in rooms.vals :: rooms.vals[k]
    }

    /** The second player of every registered game, whose `game` field the game reads. */
    ghost function Seconds(): set<Player>
      reads this`games
    {
      set k | k in games.vals :: games.vals[k].second
    }

    /** The players of the registered games, whose win counts a game request may change. */
    ghost function Peers(): set<Player>
      reads this`games
    {
      (set k | k in games.vals :: games.vals[k].first) + (set k | k in games.vals :: games.vals[k].second)
    }

    /** The games' objects are apart from the App, its database, the counter, the outbox,
        the rooms and every player. */
    ghost predicate Separate()
      reads this`Shared, this`players, this`rooms, this`games, Shared
    {
      && this !in Shared && db !in Shared && net !in Shared && ids !in Shared
      && RoomObjs() !! Shared
      && (forall k | k in games.vals :: games.vals[k] in Shared && games.vals[k].Repr <= Shared)
      && (forall k | k in games.vals :: games.vals[k].first !in Shared && games.vals[k].second !in Shared)
      && (forall k | k in players.vals :: players.vals[k] !in Shared)
    }

    /** The user table holds rows under their own numeric "id", each handed out by the
        counter, and is no game's object. */
    ghost predicate TableSound()
      reads this`Shared, db, ids, UserTableObj()
    {
      && UserTableObj() !! Shared
      && (UserTable in db.tables ==>
            var t := db.tables[UserTable];
            && t.Valid()
            && forall k | k in t.items.vals :: "id" in t.items.vals[k] && t.items.vals[k]["id"] == Num(k) && k < ids.last)
    }

    /** Each registered player is a client, stored under its user id, and no two share a
        connection. */
    ghost predicate PlayersSound()
      reads this`players
    {
      && players.Valid()
      && (forall k | k in players.vals :: players.vals[k].user.id == k && players.vals[k].channel.Conn?)
      && (forall k, j | k in players.vals && j in players.vals && k != j ::
            players.vals[k].channel != players.vals[j].channel)
    }

    /** Each open room is stored under its id and waits with exactly one member, a
        registered player, and no player waits in two rooms. */
    ghost predicate RoomsSound()
      reads this`rooms, this`players, RoomObjs()
    {
      && rooms.Valid()
      && (forall k {:trigger rooms.vals[k]} | k in rooms.vals ::
            rooms.vals[k].id == k && rooms.vals[k].Valid() && rooms.vals[k].players.Size() == 1)
      && (forall k, j | k in rooms.vals && j in rooms.vals[k].players.vals ::
            players.Get(j) == Some(rooms.vals[k].players.vals[j]))
      && (forall k, k', j | k in rooms.vals && k' in rooms.vals && j in rooms.vals[k].players.vals
            && j in rooms.vals[k'].players.vals :: k == k')
    }

    /** The keys of the open rooms in which user `id` waits: at most one. */
    ghost function HeldBy(id: int): (r: set<int>)
      reads this`rooms, RoomObjs()
    {
      set k | k in rooms.vals && id in rooms.vals[k].players.vals
    }

    /** Each game is stored under its id and is valid, and no two share an object. */
    ghost predicate GamesSound()
      reads this`games, this`Shared, Shared, Seconds()`game
    {
      && games.Valid()
      && (forall k | k in games.vals ::
            games.vals[k] in Shared && games.vals[k].Repr <= Shared
            && games.vals[k].id == k && games.vals[k].Valid())
      && (forall k, j | k in games.vals && j in games.vals && k != j :: games.vals[k].Repr !! games.vals[j].Repr)
    }

    /** Every id in use, of a player, a room or a game, was handed out by the counter. */
    ghost predicate Issued()
      reads this`players, this`rooms, this`games, ids
    {
      && (forall k | k in players.vals :: k < ids.last)
      && (forall k | k in rooms.vals :: k < ids.last)
      && (forall k | k in games.vals :: k < ids.last)
    }

    ghost predicate Valid()
      reads this, db, ids, Shared, Seconds()`game, UserTableObj(), RoomObjs()
    {
      Separate() && TableSound() && PlayersSound() && RoomsSound() && GamesSound() && Issued()
    }

    /** The separation depends on the registries and the games' objects only. */
    twostate lemma SeparateKept()
      requires old(Separate()) && Shared == old(Shared) && players == old(players)
      requires rooms == old(rooms) && games == old(games) && unchanged(old(Shared))
      ensures Separate()
    {
    }

    /** Advancing the counter keeps every id in use below it. */
    twostate lemma IssuedKept()
      requires old(Issued()) && players == old(players) && rooms == old(rooms) && games == old(games)
      requires ids.last >= old(ids.last)
      ensures Issued()
    {
    }

    /** The games' invariant depends on the registry and the games' objects only. */
    twostate lemma GamesKept()
      requires old(GamesSound()) && games == old(games) && Shared == old(Shared)
      requires unchanged(old(Shared)) && unchanged(old(Seconds()))
      ensures GamesSound()
    {
    }

    /** The rooms' invariant depends on the registries and the rooms only. */
    twostate lemma RoomsKept()
      requires old(RoomsSound()) && rooms == old(rooms) && players == old(players)
      requires unchanged(old(RoomObjs()))
      ensures RoomsSound()
    {
    }

    /** The user table's invariant depends on the database and the table only, and
        survives an advance of the counter. */
    twostate lemma TableKept()
      requires old(TableSound()) && Shared == old(Shared) && unchanged(db) && unchanged(old(UserTableObj()))
      requires ids.last >= old(ids.last)
      ensures TableSound()
    {
    }

    /** The App's constructor: an empty database and no players, rooms or games. */
    constructor(ids: IdSource, net: Transport)
      ensures Valid() && this.ids == ids && this.net == net && fresh(db)
      ensures players == Empty() && rooms == Empty() && games == Empty()
    {
      db := new Database();
      this.ids := ids;
      this.net := net;
      players := Empty();
      rooms := Empty();
      games := Empty();
      new;
      Shared := {};
    }

    /** The first registered player on connection `conn`. */
    function FindPlayer(conn: Channel): (r: Option<Player>)
      reads this`players
      requires PlayersSound()
      ensures r.Some? ==> r.value.channel == conn && players.Get(r.value.user.id) == Some(r.value)
      ensures r.None? <==> forall k | k in players.vals :: players.vals[k].channel != conn
    {
      var ps := players.Values();
      var r := FirstOn(ps, conn);
      if r.Some? then
        var i :| 0 <= i < |ps| && ps[i] == r.value;
        var k := players.keys[i];
        assert k in players.keys && k in players.vals && players.vals[k] == r.value;
        r
      else
        assert forall k | k in players.vals :: players.vals[k].channel != conn by {
          forall k | k in players.vals ensures players.vals[k].channel != conn {
            var i :| 0 <= i < |players.keys| && players.keys[i] == k;
            assert ps[i] == players.vals[k];
          }
        }
        r
    }

    /** Every registered player's connection, in registration order. */
    function Recipients(): (r: seq<Channel>)
      reads this`players
      requires players.Valid()
      ensures |r| == players.Size()
      ensures forall i :: 0 <= i < |r| ==> r[i] == players.vals[players.keys[i]].channel
    {
      ChannelsOf(players.Values())
    }

    /** Each registered player's name and wins, in registration order. */
    function Standings(): (r: seq<Winner>)
      reads this`players, players.Values()
      requires players.Valid()
      ensures |r| == players.Size()
      ensures forall i :: 0 <= i < |r| ==>
        var p := players.vals[players.keys[i]]; r[i] == Winner(p.user.name, p.wins)
    {
      StandingOf(players.Values())
    }

    /** The open rooms under the keys `ks`, in that order. */
    function RoomsAt(ks: seq<int>): (r: seq<RoomInfo>)
      reads this`rooms, this`players, RoomObjs()
      requires RoomsSound() && forall i | 0 <= i < |ks| :: ks[i] in rooms.vals
      ensures forall i :: 0 <= i < |ks| ==> rooms.vals[ks[i]] in RoomObjs() && rooms.vals[ks[i]].Valid()
      ensures |r| == |ks| && forall i :: 0 <= i < |ks| ==> r[i] == Info(rooms.vals[ks[i]])
    {
      if ks == [] then []
      else
        var k := ks[|ks| - 1];
        assert k in rooms.vals;
        var room := rooms.vals[k];
        RoomsAt(ks[..|ks| - 1]) + [Info(room)]
    }

    /** Each open room with its members' names and ids, in the order the rooms opened. */
    function RoomList(): (r: seq<RoomInfo>)
      reads this`rooms, this`players, RoomObjs()
      requires RoomsSound()
      ensures forall i :: 0 <= i < rooms.Size() ==> rooms.vals[rooms.keys[i]] in RoomObjs() && rooms.vals[rooms.keys[i]].Valid()
      ensures |r| == rooms.Size() && forall i :: 0 <= i < |r| ==> r[i] == Info(rooms.vals[rooms.keys[i]])
    {
      RoomsAt(rooms.keys)
    }

    /** Sending changes the outbox only, which neither the invariant nor the lists read. */
    twostate lemma Sent()
      requires old(Valid()) && unchanged(this, db, ids) && unchanged(old(Shared)) && unchanged(old(Seconds()))
      requires unchanged(old(RoomObjs())) && unchanged(old(UserTableObj())) && unchanged(old(players.Values()))
      ensures Valid()
      ensures Recipients() == old(Recipients()) && RoomList() == old(RoomList()) && Standings() == old(Standings())
    {
    }

    /** The ROOMS event: every registered player gets the list of open rooms. */
    method SendRooms()
      requires Valid()
      modifies net
      ensures Valid() && net.log == old(net.log) + Fanout(old(Recipients()), UpdateRoom(old(RoomList())))
      ensures Recipients() == old(Recipients()) && RoomList() == old(RoomList()) && Standings() == old(Standings())
      ensures forall id :: HeldBy(id) == old(HeldBy(id))
    {
      net.Broadcast(Recipients(), UpdateRoom(RoomList()));
      Sent();
    }

    /** The WINNERS event: every registered player gets the standings, most wins first. */
    method SendWinners()
      requires Valid()
      modifies net
      ensures Valid() && net.log == old(net.log) + Fanout(old(Recipients()), UpdateWinners(SortByWins(old(Standings()))))
      ensures Recipients() == old(Recipients()) && RoomList() == old(RoomList()) && Standings() == old(Standings())
    {
      net.Broadcast(Recipients(), UpdateWinners(SortByWins(Standings())));
      Sent();
    }

    /** One message to one connection. */
    method Reply(to: Channel, m: Message)
      requires Valid()
      modifies net
      ensures Valid() && net.log == old(net.log) + [Envelope(to, m)]
      ensures Recipients() == old(Recipients()) && RoomList() == old(RoomList()) && Standings() == old(Standings())
    {
      net.Send(to, m);
      Sent();
    }

    /** The rows of the user table, in the order they were stored. */
    ghost function UserRows(): (r: seq<Row>)
      reads this`Shared, db, ids, UserTableObj()
      requires TableSound()
      ensures RowsKeyed(r)
    {
      if UserTable in db.tables then
        var t := db.tables[UserTable];
        var rows := t.items.Values();
        assert RowsKeyed(rows) by {
          forall i | 0 <= i < |rows| ensures "id" in rows[i] && rows[i]["id"].Num? {
            var k := t.items.keys[i];
            assert k in t.items.keys;
            assert k in t.items.vals && rows[i] == t.items.vals[k];
          }
        }
        rows
      else []
    }

    /** What registering `name` with `password` would answer now. */
    ghost function Verdict(name: Option<Value>, password: Option<Value>): Result<User, Error>
      reads this`players, this`Shared, ids, db, UserTableObj()
      requires TableSound() && PlayersSound()
    {
      Admit(UserRows(), name, password, ids.last, players.vals.Keys)
    }

    /** The user table, created empty on first use; the stored rows stay as they are. */
    method UsersTable() returns (t: Table)
      requires TableSound()
      modifies db
      ensures TableSound() && UserTable in db.tables && t == db.tables[UserTable]
      ensures UserTableObj() == {t} && (old(UserTable in db.tables) ==> t == old(db.tables[UserTable]))
      ensures old(UserTable !in db.tables) ==> fresh(t)
      ensures UserRows() == old(UserRows())
    {
      t := db.GetTable(UserTable);
    }

    /** A row stored under the next id, which carries that id, keeps the user table sound. */
    lemma RowsAdded(items: OMap<int, Row>, id: int, row: Row, last: int)
      requires items.Valid() && "id" in row && row["id"] == Num(id) && id < last
      requires forall k | k in items.vals :: "id" in items.vals[k] && items.vals[k]["id"] == Num(k) && k < last
      ensures var after := items.Set(id, row);
        forall k | k in after.vals :: "id" in after.vals[k] && after.vals[k]["id"] == Num(k) && k < last
    {
      var after := items.Set(id, row);
      forall k | k in after.vals ensures "id" in after.vals[k] && after.vals[k]["id"] == Num(k) && k < last {
        if k != id {
          assert after.Get(k) == items.Get(k);
        }
      }
    }

    /** authUser's lookup: the first stored row with the name, or else the credentials,
        added to the user table (created on first use) under the next id. */
    method FindOrAddRow(name: Option<Value>, password: Option<Value>) returns (row: Row)
      requires TableSound()
      modifies db, UserTableObj(), ids
      ensures TableSound() && ids.last >= old(ids.last)
      ensures var rows := old(UserRows());
        && row == UserRow(rows, name, password, old(ids.last))
        && if FirstNamed(rows, name).Some? then UserRows() == rows && ids.last == old(ids.last)
           else UserRows() == rows + [row] && ids.last == old(ids.last) + 1
      ensures "id" in row && row["id"].Num? && row["id"].n < ids.last
    {
      ghost var rows := UserRows();
      var t := UsersTable();
      var all := t.All();
      assert all == rows;
      var found := FirstNamed(all, name);
      if found.Some? {
        row := found.value;
        ghost var i :| 0 <= i < |rows| && rows[i] == row;
        ghost var k := t.items.keys[i];
        assert k in t.items.keys;
        assert k in t.items.vals && row == t.items.vals[k];
      } else {
        ghost var before := t.items;
        row := t.Add(Credentials(name, password), ids);
        SetNewKeyAppends(before, old(ids.last), row);
        RowsAdded(before, old(ids.last), row, ids.last);
      }
    }

    /** The lookup of authUser, which touches the database and the counter only. */
    method StoreRow(name: Option<Value>, password: Option<Value>) returns (row: Row)
      requires Valid()
      modifies db, UserTableObj(), ids
      ensures Valid() && players == old(players) && rooms == old(rooms) && games == old(games) && Shared == old(Shared)
      ensures var rows := old(UserRows());
        && row == UserRow(rows, name, password, old(ids.last))
        && if FirstNamed(rows, name).Some? then UserRows() == rows && ids.last == old(ids.last)
           else UserRows() == rows + [row] && ids.last == old(ids.last) + 1
      ensures "id" in row && row["id"].Num? && row["id"].n < ids.last
    {
      row := FindOrAddRow(name, password);
      SeparateKept();
      RoomsKept();
      GamesKept();
      IssuedKept();
    }

    /** The last step of authUser: a player for the user on the connection, stored under
        its user id. */
    method Enroll(user: User, conn: nat) returns (player: Player)
      requires Valid() && user.id !in players.vals && user.id < ids.last && FindPlayer(Conn(conn)).None?
      modifies this`players
      ensures Valid() && fresh(player) && player.user == user && player.channel == Conn(conn) && player.wins == 0
      ensures players == old(players).Set(user.id, player)
    {
      ghost var before := players;
      player := new Player(user, Conn(conn));
      players := players.Set(user.id, player);
      SeparateEnrolled(player);
      PlayersEnrolled(before, player);
      RoomsEnrolled(player);
      IssuedEnrolled(player);
      GamesKept();
      TableKept();
    }

    /** A new player outside the games' objects keeps the separation. */
    twostate lemma SeparateEnrolled(new player: Player)
      requires old(Separate()) && old(players.Valid()) && player !in Shared && players == old(players).Set(player.user.id, player)
      requires rooms == old(rooms) && games == old(games) && Shared == old(Shared) && unchanged(old(Shared))
      ensures Separate()
    {
    }

    /** A new player on an unused connection, under its unused user id, keeps the
        registry sound. */
    lemma PlayersEnrolled(before: OMap<int, Player>, player: Player)
      requires before.Valid()
      requires forall k | k in before.vals :: before.vals[k].user.id == k && before.vals[k].channel.Conn?
      requires forall k, j | k in before.vals && j in before.vals && k != j :: before.vals[k].channel != before.vals[j].channel
      requires forall k | k in before.vals :: before.vals[k].channel != player.channel
      requires player.channel.Conn?
      ensures var after := before.Set(player.user.id, player);
        && (forall k | k in after.vals :: after.vals[k].user.id == k && after.vals[k].channel.Conn?)
        && (forall k, j | k in after.vals && j in after.vals && k != j :: after.vals[k].channel != after.vals[j].channel)
    {
    }

    /** Registering a player leaves every room member registered. */
    twostate lemma RoomsEnrolled(new player: Player)
      requires old(RoomsSound()) && old(players.Valid()) && player.user.id !in old(players.vals)
      requires players == old(players).Set(player.user.id, player)
      requires rooms == old(rooms) && unchanged(old(RoomObjs()))
      ensures RoomsSound()
    {
      forall k | k in rooms.vals ensures rooms.vals[k] in old(RoomObjs()) {
      }
      forall k, j | k in rooms.vals && j in rooms.vals[k].players.vals
        ensures players.Get(j) == Some(rooms.vals[k].players.vals[j])
      {
        assert rooms.vals[k] in old(RoomObjs());
        assert j in old(rooms.vals[k].players.vals);
        assert old(players.Get(j)) == Some(rooms.vals[k].players.vals[j]);
        assert j != player.user.id;
      }
    }

    /** Registering a player under an id below the counter keeps every id issued. */
    twostate lemma IssuedEnrolled(new player: Player)
      requires old(Issued()) && old(players.Valid()) && player.user.id < ids.last && players == old(players).Set(player.user.id, player)
      requires rooms == old(rooms) && games == old(games) && unchanged(ids)
      ensures Issued()
    {
    }

    /** The checks of authUser once the row is settled: a user the row makes, with the
        right password and not yet online, becomes a player on the connection. */
    method Admission(conn: nat, row: Row, password: Option<Value>) returns (r: Result<Player, Error>)
      requires Valid() && FindPlayer(Conn(conn)).None?
      requires "id" in row && row["id"].Num? && row["id"].n < ids.last
      modifies this`players
      ensures Valid()
      ensures r.Err? ==> Judge(row, password, old(players.vals.Keys)) == Err(r.error) && players == old(players)
      ensures r.Ok? ==>
        && Judge(row, password, old(players.vals.Keys)) == Ok(r.value.user)
        && fresh(r.value) && r.value.channel == Conn(conn) && r.value.wins == 0
        && players == old(players).Set(r.value.user.id, r.value)
    {
      var u := NewUser(row);
      if u.Err? {
        return Err(u.error);
      }
      var user := u.value;
      if !CheckPassword(user, password) {
        return Err(AppError(IncorrectPassword));
      }
      if user.id in players.vals {
        return Err(AppError(OpenSession));
      }
      var player := Enroll(user, conn);
      r := Ok(player);
    }

    /** authUser: the verdict of Admit, with the row stored first when the name is new; an
        admitted user becomes a player on the connection, under its user id. */
    method AuthUser(conn: nat, name: Option<Value>, password: Option<Value>) returns (r: Result<Player, Error>)
      requires Valid() && FindPlayer(Conn(conn)).None?
      modifies this`players, db, UserTableObj(), ids
      ensures Valid() && rooms == old(rooms) && games == old(games) && Shared == old(Shared)
      ensures r.Err? <==> old(Verdict(name, password)).Err?
      ensures r.Err? ==> old(Verdict(name, password)) == Err(r.error) && players == old(players)
      ensures r.Ok? ==>
        && old(Verdict(name, password)) == Ok(r.value.user)
        && fresh(r.value) && r.value.channel == Conn(conn) && r.value.wins == 0
        && players == old(players).Set(r.value.user.id, r.value)
      ensures var rows := old(UserRows());
        if FirstNamed(rows, name).Some? then UserRows() == rows && ids.last == old(ids.last)
        else UserRows() == rows + [UserRow(rows, name, password, old(ids.last))] && ids.last == old(ids.last) + 1
    {
      var row := StoreRow(name, password);
      r := Admission(conn, row, password);
    }

    /** The replies to a successful reg: the reg answer to the new player, then the rooms
        and the winners to every registered player. */
    method Welcome(player: Player)
      requires Valid()
      modifies net
      ensures Valid()
      ensures net.log == old(net.log) + [Envelope(player.channel, RegOk(player.user.name, player.user.id))]
                         + Fanout(old(Recipients()), UpdateRoom(old(RoomList())))
                         + Fanout(old(Recipients()), UpdateWinners(SortByWins(old(Standings()))))
      ensures Recipients() == old(Recipients()) && RoomList() == old(RoomList()) && Standings() == old(Standings())
    {
      Reply(player.channel, RegOk(player.user.name, player.user.id));
      SendRooms();
      SendWinners();
    }

    /** The reg request of a connection with no player: authUser, then the reg reply; on
        success every registered player also gets the rooms and the winners. */
    method Register(conn: nat, name: Option<Value>, password: Option<Value>) returns (r: Result<Player, Error>)
      requires Valid() && FindPlayer(Conn(conn)).None?
      modifies this`players, db, UserTableObj(), ids, net
      ensures Valid() && rooms == old(rooms) && games == old(games) && Shared == old(Shared)
      ensures r.Err? <==> old(Verdict(name, password)).Err?
      ensures r.Err? ==>
        && players == old(players)
        && net.log == old(net.log) + [Envelope(Conn(conn), RegError(Text(r.error)))]
      ensures r.Ok? ==>
        && old(Verdict(name, password)) == Ok(r.value.user)
        && players == old(players).Set(r.value.user.id, r.value) && r.value.channel == Conn(conn)
        && net.log == old(net.log) + [Envelope(Conn(conn), RegOk(r.value.user.name, r.value.user.id))]
                      + Fanout(Recipients(), UpdateRoom(RoomList()))
                      + Fanout(Recipients(), UpdateWinners(SortByWins(Standings())))
    {
      r := AuthUser(conn, name, password);
      if r.Err? {
        Reply(Conn(conn), RegError(Text(r.error)));
        return;
      }
      Welcome(r.value);
    }

    /** The open rooms in the order they opened are valid rooms, each under its own id. */
    lemma RoomsListed()
      requires RoomsSound()
      ensures var rs := rooms.Values();
        forall i | 0 <= i < |rs| :: rooms.keys[i] in rooms.vals && rs[i] in RoomObjs() && rs[i].Valid() && rs[i].id == rooms.keys[i]
    {
      var rs := rooms.Values();
      forall i | 0 <= i < |rs|
        ensures rooms.keys[i] in rooms.vals && rs[i] in RoomObjs() && rs[i].Valid() && rs[i].id == rooms.keys[i]
      {
        var k := rooms.keys[i];
        assert k in rooms.keys;
        assert rooms.vals[k] in RoomObjs();
      }
    }

    /** The room in which the registered player `p` waits, found as createRoom finds it:
        the first open room whose members include `p`. */
    function RoomOf(p: Player): (r: Option<Room>)
      reads this`rooms, this`players, RoomObjs()
      requires RoomsSound() && players.Get(p.user.id) == Some(p)
      ensures r.None? <==> HeldBy(p.user.id) == {}
      ensures r.Some? ==> r.value.id in HeldBy(p.user.id) && rooms.vals[r.value.id] == r.value
    {
      var rs := rooms.Values();
      RoomsListed();
      var r := FirstHolding(rs, p);
      if r.Some? then
        var i :| 0 <= i < |rs| && rs[i] == r.value;
        var members := r.value.GetPlayers();
        var j :| 0 <= j < |members| && members[j] == p;
        assert p.user.id in r.value.players.vals;
        assert r.value.id == rooms.keys[i] && rooms.vals[r.value.id] == r.value;
        assert r.value.id in HeldBy(p.user.id);
        r
      else
        assert HeldBy(p.user.id) == {} by {
          forall k | k in rooms.vals ensures p.user.id !in rooms.vals[k].players.vals {
            var i :| 0 <= i < |rooms.keys| && rooms.keys[i] == k;
            assert rs[i] == rooms.vals[k] && p !in rs[i].GetPlayers();
          }
        }
        r
    }

    /** A new room outside the games' objects keeps the separation. */
    twostate lemma SeparateOpened(new room: Room)
      requires old(Separate()) && old(rooms.Valid()) && rooms == old(rooms).Set(room.id, room)
      requires players == old(players) && games == old(games) && Shared == old(Shared) && unchanged(old(Shared))
      requires room !in Shared
      ensures Separate()
    {
      forall k | k in rooms.vals && k != room.id ensures rooms.vals[k] in old(RoomObjs()) {
        assert rooms.Get(k) == old(rooms.Get(k));
      }
    }

    /** A new room whose only member is a registered player waiting nowhere else keeps the
        rooms sound. */
    twostate lemma RoomsOpened(new room: Room, p: Player)
      requires old(RoomsSound()) && old(players.Get(p.user.id)) == Some(p) && old(HeldBy(p.user.id)) == {}
      requires room.Valid() && room.GetPlayers() == [p] && room.id !in old(rooms.vals)
      requires rooms == old(rooms).Set(room.id, room) && players == old(players) && unchanged(old(RoomObjs()))
      ensures RoomsSound()
    {
      assert p.user.id in room.players.vals;
      forall j | j in room.players.vals ensures j == p.user.id && room.players.vals[j] == p {
        assert room.players.vals[j] in room.GetPlayers();
      }
      forall k | k in rooms.vals && k != room.id ensures rooms.vals[k] in old(RoomObjs()) && rooms.vals[k] == old(rooms.vals[k]) {
        assert rooms.Get(k) == old(rooms.Get(k));
      }
      forall k | k in rooms.vals && k != room.id ensures p.user.id !in rooms.vals[k].players.vals {
        assert k !in old(HeldBy(p.user.id));
      }
      forall k, k', j | k in rooms.vals && k' in rooms.vals && j in rooms.vals[k].players.vals
        && j in rooms.vals[k'].players.vals ensures k == k'
      {
        if k != room.id && k' != room.id {
          assert j in old(rooms.vals[k].players.vals) && j in old(rooms.vals[k'].players.vals);
        }
      }
    }

    /** A room under the id just handed out keeps every id issued. */
    twostate lemma IssuedOpened(new room: Room)
      requires old(Issued()) && old(rooms.Valid()) && room.id < ids.last && ids.last >= old(ids.last)
      requires rooms == old(rooms).Set(room.id, room) && players == old(players) && games == old(games)
      ensures Issued()
    {
    }

    /** The second half of createRoom: a new room with `p` as its only member, registered
        under its fresh id. */
    method OpenRoom(p: Player) returns (room: Room)
      requires Valid() && players.Get(p.user.id) == Some(p) && HeldBy(p.user.id) == {}
      modifies this`rooms, ids
      ensures Valid() && players == old(players) && games == old(games) && Shared == old(Shared)
      ensures fresh(room) && room.id == old(ids.last) && ids.last == old(ids.last) + 1
      ensures rooms == old(rooms).Set(room.id, room) && room.GetPlayers() == [p]
    {
      room := new Room(ids, Some(p));
      rooms := rooms.Set(room.id, room);
      SeparateOpened(room);
      RoomsOpened(room, p);
      IssuedOpened(room);
      GamesKept();
      TableKept();
    }

    /** A player waits in at most one room. */
    lemma OnlyRoom(id: int, k: int)
      requires RoomsSound() && k in HeldBy(id)
      ensures HeldBy(id) == {k}
    {
      forall k' | k' in HeldBy(id) ensures k' == k {
        assert id in rooms.vals[k].players.vals && id in rooms.vals[k'].players.vals;
      }
    }

    /** createRoom(player): the room the player already waits in, or else a new room with
        the player as its only member, registered under its fresh id. Either way the player
        then waits in exactly one room, the returned one. */
    method CreateRoom(p: Player) returns (room: Room)
      requires Valid() && players.Get(p.user.id) == Some(p)
      modifies this`rooms, ids
      ensures Valid() && players == old(players) && games == old(games) && Shared == old(Shared)
      ensures old(HeldBy(p.user.id)) != {} ==>
        rooms == old(rooms) && ids.last == old(ids.last) && old(HeldBy(p.user.id)) == {room.id}
      ensures old(HeldBy(p.user.id)) == {} ==>
        && fresh(room) && room.id == old(ids.last) && ids.last == old(ids.last) + 1
        && rooms == old(rooms).Set(room.id, room) && room.GetPlayers() == [p]
      ensures room.id in rooms.vals && rooms.vals[room.id] == room && HeldBy(p.user.id) == {room.id}
    {
      var found := RoomOf(p);
      if found.Some? {
        room := found.value;
        OnlyRoom(p.user.id, room.id);
        return;
      }
      room := OpenRoom(p);
      assert p.user.id in room.players.vals;
      OnlyRoom(p.user.id, room.id);
    }

    /** Dropping rooms keeps the separation. */
    twostate lemma SeparateCleared(gone: set<int>)
      requires old(Separate()) && old(rooms.Valid()) && rooms == old(rooms).DeleteAll(gone)
      requires players == old(players) && games == old(games) && Shared == old(Shared) && unchanged(old(Shared))
      ensures Separate()
    {
      forall k | k in rooms.vals ensures rooms.vals[k] in old(RoomObjs()) {
        assert rooms.Get(k) == old(rooms.Get(k));
      }
    }

    /** Dropping rooms, the others untouched, keeps the rooms sound. */
    twostate lemma RoomsCleared(gone: set<int>)
      requires old(RoomsSound()) && rooms == old(rooms).DeleteAll(gone) && players == old(players)
      requires forall k | k in rooms.vals :: k in old(rooms.vals) && rooms.vals[k].players == old(rooms.vals[k].players)
      ensures RoomsSound()
    {
      forall k | k in rooms.vals ensures rooms.vals[k] == old(rooms.vals[k]) {
        assert rooms.Get(k) == old(rooms.Get(k));
      }
    }

    /** Dropping rooms keeps every id issued. */
    twostate lemma IssuedCleared(gone: set<int>)
      requires old(Issued()) && old(rooms.Valid()) && rooms == old(rooms).DeleteAll(gone)
      requires players == old(players) && games == old(games) && ids.last >= old(ids.last)
      ensures Issued()
    {
      forall k | k in rooms.vals ensures k in old(rooms.vals) {
        assert rooms.Get(k) == old(rooms.Get(k));
      }
    }

    /** The loop of removePlayerFromRooms: every open room drops whoever waits under `p`'s
        user id, and a room that drops a member and is left empty is deleted. */
    method ClearRooms(p: Player)
      requires rooms.Valid()
      requires forall k | k in rooms.vals :: rooms.vals[k].id == k && rooms.vals[k].Valid() && rooms.vals[k].players.Size() == 1
      modifies this`rooms, RoomObjs()
      ensures rooms == old(rooms).DeleteAll(old(HeldBy(p.user.id)))
      ensures forall k | k in old(HeldBy(p.user.id)) :: old(rooms.vals[k]).players.Size() == 0
      ensures forall k | k in rooms.vals :: k in old(rooms.vals) && rooms.vals[k].players == old(rooms.vals[k].players)
    {
      assert RoomObjs() == Objs(rooms);
      assert HeldBy(p.user.id) == Holding(rooms, p.user.id);
      rooms := ClearRoomsIn(rooms, p);
    }

    /** removePlayerFromRooms: as each room waits with one member, exactly the rooms `p`
        waited in go, emptied; every other room stays as it was. */
    method RemovePlayerFromRooms(p: Player)
      requires Valid()
      modifies this`rooms, RoomObjs()
      ensures Valid() && players == old(players) && games == old(games) && Shared == old(Shared)
      ensures rooms == old(rooms).DeleteAll(old(HeldBy(p.user.id)))
      ensures forall k | k in old(HeldBy(p.user.id)) :: old(rooms.vals[k]).players.Size() == 0
      ensures forall k | k in rooms.vals :: k in old(rooms.vals) && rooms.vals[k].players == old(rooms.vals[k].players)
      ensures HeldBy(p.user.id) == {}
    {
      ghost var gone := HeldBy(p.user.id);
      ClearRooms(p);
      forall k | k in rooms.vals ensures p.user.id !in rooms.vals[k].players.vals {
        assert k !in gone;
      }
      SeparateCleared(gone);
      RoomsCleared(gone);
      IssuedCleared(gone);
      GamesKept();
      TableKept();
    }

    /** The keys of the registered games `p` plays in. */
    ghost function PlayingIn(p: Player): set<int>
      reads this`games
    {
      set k | k in games.vals && Plays(games.vals[k], p)
    }

    /** Dropping registered games keeps the invariant: what stays is as it was. */
    twostate lemma GamesShrunk()
      requires old(Valid()) && games.Valid()
      requires forall j | j in games.vals :: j in old(games.vals) && games.vals[j] == old(games.vals[j])
      requires players == old(players) && rooms == old(rooms) && Shared == old(Shared)
      requires unchanged(db, ids) && unchanged(old(Shared)) && unchanged(old(Seconds()))
      requires unchanged(old(UserTableObj())) && unchanged(old(RoomObjs()))
      ensures Valid()
    {
      TableKept();
      RoomsKept();
    }

    /** Replaces the registered games by `left`, some of them as they were. */
    method KeepGames(left: OMap<int, Game>)
      requires Valid() && left.Valid()
      requires forall j | j in left.vals :: j in games.vals && left.vals[j] == games.vals[j]
      modifies this`games
      ensures Valid() && games == left
    {
      games := left;
      GamesShrunk();
    }

    /** The FINISHED handler the App attaches to each game it registers: the game is
        dropped, and every registered player gets the standings. */
    method Finished(g: Game)
      requires Valid() && g.id in games.vals && games.vals[g.id] == g
      modifies this`games, net
      ensures Valid() && games == old(games).Delete(g.id)
      ensures players == old(players) && rooms == old(rooms) && Shared == old(Shared)
      ensures net.log == old(net.log) + Fanout(old(Recipients()), UpdateWinners(SortByWins(old(Standings()))))
    {
      var left := games.Delete(g.id);
      forall j | j in left.vals ensures j in games.vals && left.vals[j] == games.vals[j] {
        assert left.Get(j) == games.Get(j);
      }
      ghost var to, table := Recipients(), Standings();
      KeepGames(left);
      assert Recipients() == to && Standings() == table;
      SendWinners();
    }

    /** The notices of abandonPlayerGames: the games `p` plays in are abandoned and, by
        their FINISHED handlers, dropped from `left`, which keeps the other games. */
    method AbandonAll(p: Player) returns (left: OMap<int, Game>)
      requires Valid()
      modifies net
      ensures Valid() && left == games.DeleteAll(PlayingIn(p)) && left.Valid()
      ensures forall k | k in left.vals :: k in games.vals && left.vals[k] == games.vals[k] && !Plays(left.vals[k], p)
      ensures net.log == old(net.log) + AbandonNotices(games.Values(), p, Recipients(), Standings())
    {
      assert PlayingIn(p) == Playing(games, p);
      left := AbandonIn(games, p, net, Recipients(), Standings());
      forall k | k in left.vals ensures k in games.vals && left.vals[k] == games.vals[k] {
        assert left.Get(k) == games.Get(k);
      }
      Sent();
    }

    /** abandonPlayerGames: every registered game `p` plays in is abandoned, which tells
        both its players, and its FINISHED handler drops it and sends the standings; the
        other games stay. */
    method AbandonPlayerGames(p: Player)
      requires Valid()
      modifies this`games, net
      ensures Valid() && players == old(players) && rooms == old(rooms) && Shared == old(Shared)
      ensures games == old(games).DeleteAll(old(PlayingIn(p)))
      ensures forall k | k in games.vals :: !Plays(games.vals[k], p)
      ensures net.log == old(net.log) + AbandonNotices(old(games.Values()), p, old(Recipients()), old(Standings()))
    {
      var left := AbandonAll(p);
      KeepGames(left);
    }


    /** Taking a room off the list keeps the invariant, whatever became of that room. */
    twostate lemma RoomTaken(room: Room)
      requires old(Valid()) && room.id in old(rooms.vals) && old(rooms.vals[room.id]) == room
      requires rooms == old(rooms).Delete(room.id) && players == old(players) && games == old(games) && Shared == old(Shared)
      requires unchanged(db, ids) && unchanged(old(Shared)) && unchanged(old(Seconds())) && unchanged(old(UserTableObj()))
      requires forall k | k in old(rooms.vals) && k != room.id :: unchanged(old(rooms.vals[k]))
      ensures Valid()
    {
      DeleteOne(old(rooms), room.id);
      forall k | k in rooms.vals ensures k in old(rooms.vals) && k != room.id && rooms.vals[k] == old(rooms.vals[k]) {
        assert rooms.Get(k) == old(rooms.Get(k));
      }
      SeparateCleared({room.id});
      RoomsCleared({room.id});
      IssuedCleared({room.id});
      GamesKept();
      TableKept();
    }

    /** The seat-taking half of the join: `p` is added to the open room `room`, and a room
        this fills is taken off the list (deleteRoom); a player who already waits in the
        room leaves it as it was. */
    method Seat(room: Room, p: Player) returns (full: bool)
      requires Valid() && players.Get(p.user.id) == Some(p) && room.id in rooms.vals && rooms.vals[room.id] == room
      modifies this`rooms, room`players
      ensures Valid() && players == old(players) && games == old(games) && Shared == old(Shared)
      ensures full <==> p.user.id !in old(room.players.vals)
      ensures !full ==> rooms == old(rooms) && room.players == old(room.players)
      ensures forall k | k in rooms.vals :: k in old(rooms.vals) && rooms.vals[k].players == old(rooms.vals[k].players)
      ensures full ==>
        && old(room.Valid()) && rooms == old(rooms).Delete(room.id) && room.Valid()
        && room.GetPlayers() == [old(room.GetPlayers())[0], p]
        && forall j | j in room.players.vals :: players.Get(j) == Some(room.players.vals[j])
    {
      ghost var was := room.players;
      assert room in RoomObjs();
      var added := room.AddPlayer(p);
      full := room.IsFull();
      if full {
        rooms := rooms.Delete(room.id);
        forall k | k in old(rooms.vals) && k != room.id ensures unchanged(old(rooms.vals[k])) {
          assert old(rooms.vals[k]).id == k;
        }
        RoomTaken(room);
        assert room.players.keys == was.keys + [p.user.id];
      } else {
        assert was.Get(p.user.id) == Some(p);
        Sent();
      }
    }


    /** A game whose objects are all new keeps the games' objects apart from the rest. */
    twostate lemma SeparateAdded(new g: Game)
      requires old(Separate()) && g.Valid() && forall o | o in g.Repr :: !old(allocated(o))
      requires g.first !in old(Shared) && g.second !in old(Shared)
      requires old(games.Valid()) && games == old(games).Set(g.id, g) && Shared == old(Shared) + g.Repr
      requires players == old(players) && rooms == old(rooms) && unchanged(old(Shared))
      ensures Separate()
    {
      forall k | k in games.vals && k != g.id ensures games.vals[k] == old(games.vals[k]) {
        assert games.Get(k) == old(games.Get(k));
      }
    }

    /** A valid game whose objects are all new, under a key not in use, keeps the games
        sound. */
    twostate lemma GamesAdded(new g: Game)
      requires old(GamesSound()) && g.Valid() && forall o | o in g.Repr :: !old(allocated(o))
      requires g.id !in old(games.vals) && games == old(games).Set(g.id, g) && Shared == old(Shared) + g.Repr
      requires unchanged(old(Shared)) && unchanged(old(Seconds())`game)
      ensures GamesSound()
    {
      forall k | k in games.vals && k != g.id ensures games.vals[k] == old(games.vals[k]) {
        assert games.Get(k) == old(games.Get(k));
      }
    }

    /** A game whose objects are all new, under an id just handed out, joins the registry
        without disturbing the invariant. */
    twostate lemma GameAdded(new g: Game)
      requires old(Valid()) && g.Valid() && forall o | o in g.Repr :: !old(allocated(o))
      requires old(ids.last) <= g.id < ids.last
      requires g.first !in old(Shared) && g.second !in old(Shared)
      requires games == old(games).Set(g.id, g) && Shared == old(Shared) + g.Repr
      requires players == old(players) && rooms == old(rooms)
      requires unchanged(db) && unchanged(old(Shared)) && unchanged(old(UserTableObj())) && unchanged(old(RoomObjs()))
      requires unchanged(old(Seconds())`game)
      ensures Valid()
    {
      assert g.id !in old(games.vals);
      SeparateAdded(g);
      GamesAdded(g);
      assert UserTableObj() == old(UserTableObj()) && UserTableObj() !! g.Repr;
      RoomsKept();
      forall k | k in games.vals ensures k < ids.last {
        assert games.Get(k) == old(games.Get(k)) || k == g.id;
      }
    }

    /** The game built from a full room: each member is told its id, and it is registered
        (buildGame, then `_games.set`). */
    method Pair(room: Room) returns (g: Game)
      requires Valid() && room.Valid() && room.IsFull()
      requires forall j | j in room.players.vals :: players.Get(j) == Some(room.players.vals[j])
      modifies this`games, this`Shared, ids, net
      ensures Valid() && players == old(players) && rooms == old(rooms)
      ensures fresh(g) && g.id == old(ids.last) && ids.last == old(ids.last) + 1 && games == old(games).Set(g.id, g)
      ensures g.first == room.GetPlayers()[0] && g.second == room.GetPlayers()[1]
      ensures net.log == old(net.log) + [Envelope(g.first.channel, CreateGame(g.id, g.first.user.id)),
                                         Envelope(g.second.channel, CreateGame(g.id, g.second.user.id))]
    {
      forall k | k in room.players.vals ensures !room.players.vals[k].IsBot() {
        assert players.vals[k] == room.players.vals[k];
      }
      var r := room.BuildGame(ids, net);
      g := r.value;
      games := games.Set(g.id, g);
      Shared := Shared + g.Repr;
      GameAdded(g);
    }


    /** Once the rooms in `gone` are dropped and the others keep their members, every
        player waits in the rooms it waited in before, less those dropped. */
    twostate lemma HeldKept(gone: set<int>)
      requires old(rooms.Valid()) && rooms == old(rooms).DeleteAll(gone)
      requires forall k | k in rooms.vals :: rooms.vals[k].players == old(rooms.vals[k].players)
      ensures forall id :: HeldBy(id) == old(HeldBy(id)) - gone
    {
      forall k | k in rooms.vals ensures k in old(rooms.vals) && k !in gone && rooms.vals[k] == old(rooms.vals[k]) {
        assert rooms.Get(k) == old(rooms.Get(k));
      }
      forall k | k in old(rooms.vals) && k !in gone ensures k in rooms.vals {
        assert rooms.Get(k) == old(rooms.Get(k));
      }
      forall id, k ensures k in HeldBy(id) <==> k in old(HeldBy(id)) && k !in gone {
        if k in rooms.vals {
          assert id in rooms.vals[k].players.vals <==> id in old(rooms.vals[k].players.vals);
        }
      }
    }

    /** Two players, one after the other, leave every room they wait in. */
    method Scatter(p: Player, q: Player)
      requires Valid()
      modifies this`rooms, RoomObjs()
      ensures Valid() && players == old(players) && games == old(games) && Shared == old(Shared)
      ensures rooms == old(rooms.DeleteAll(HeldBy(p.user.id) + HeldBy(q.user.id)))
    {
      ghost var a := HeldBy(p.user.id);
      ghost var b := HeldBy(q.user.id);
      ghost var r0 := rooms;
      RemovePlayerFromRooms(p);
      ghost var r1 := rooms;
      HeldKept(a);
      ghost var c := HeldBy(q.user.id);
      RemovePlayerFromRooms(q);
      RemovedInTurn(r0, r1, rooms, a, b, c);
    }

    /** The promotion of a full room already off the list: the game between its members is
        built and registered, and each member, in join order, leaves every room it waits
        in. */
    method Promote(room: Room) returns (g: Game)
      requires Valid() && room.Valid() && room.IsFull()
      requires forall j | j in room.players.vals :: players.Get(j) == Some(room.players.vals[j])
      modifies this`rooms, this`games, this`Shared, RoomObjs(), ids, net
      ensures Valid() && players == old(players)
      ensures fresh(g) && g.id == old(ids.last) && ids.last == old(ids.last) + 1 && games == old(games).Set(g.id, g)
      ensures g.first == old(room.GetPlayers()[0]) && g.second == old(room.GetPlayers()[1])
      ensures rooms == old(rooms.DeleteAll(HeldBy(room.GetPlayers()[0].user.id) + HeldBy(room.GetPlayers()[1].user.id)))
      ensures net.log == old(net.log) + [Envelope(g.first.channel, CreateGame(g.id, g.first.user.id)),
                                         Envelope(g.second.channel, CreateGame(g.id, g.second.user.id))]
    {
      ghost var a := HeldBy(room.GetPlayers()[0].user.id);
      ghost var b := HeldBy(room.GetPlayers()[1].user.id);
      g := Pair(room);
      assert HeldBy(g.first.user.id) == a && HeldBy(g.second.user.id) == b;
      Scatter(g.first, g.second);
    }

    /** The join of a registered player to an open room, once the room is found: the player
        takes the seat; a room this fills becomes a game, and both members leave every room
        they wait in. A player who already waits in the room changes nothing. */
    method Enter(room: Room, p: Player) returns (game: Option<Game>)
      requires Valid() && players.Get(p.user.id) == Some(p) && room.id in rooms.vals && rooms.vals[room.id] == room
      requires room.Valid()
      modifies this`rooms, this`games, this`Shared, RoomObjs(), ids, net
      ensures Valid() && players == old(players)
      ensures game.None? <==> p.user.id in old(room.players.vals)
      ensures game.None? ==>
        rooms == old(rooms) && games == old(games) && ids.last == old(ids.last) && net.log == old(net.log)
      ensures game.Some? ==>
        var g := game.value;
        && fresh(g) && g.id == old(ids.last) && ids.last == old(ids.last) + 1 && games == old(games).Set(g.id, g)
        && g.first == old(room.GetPlayers()[0]) && g.second == p
        && rooms == old(rooms).DeleteAll({room.id} + old(HeldBy(p.user.id)))
        && net.log == old(net.log) + [Envelope(g.first.channel, CreateGame(g.id, g.first.user.id)),
                                      Envelope(g.second.channel, CreateGame(g.id, g.second.user.id))]
    {
      ghost var q := room.GetPlayers()[0];
      assert q.user.id in room.players.vals;
      OnlyRoom(q.user.id, room.id);
      var full := Seat(room, p);
      game := None;
      if full {
        ghost var held := old(HeldBy(p.user.id));
        assert room.id !in held;
        DeleteOne(old(rooms), room.id);
        HeldKept({room.id});
        ghost var left := rooms;
        assert room.GetPlayers() == [q, p];
        assert HeldBy(q.user.id) == {} && HeldBy(p.user.id) == held;
        assert HeldBy(room.GetPlayers()[0].user.id) + HeldBy(room.GetPlayers()[1].user.id) == held;
        var g := Promote(room);
        FilledRooms(old(rooms), left, rooms, room.id, held);
        game := Some(g);
      }
    }


    /** ROOM_PLAYER: AppError "Room doesn't exist" when no open room has the requested
        index, and nothing changes; otherwise the player enters the room (a room it fills
        becomes a game) and every registered player gets the new list of rooms. */
    method Join(p: Player, index: Option<Value>) returns (out: Outcome<Error>, game: Option<Game>)
      requires Valid() && players.Get(p.user.id) == Some(p)
      modifies this`rooms, this`games, this`Shared, RoomObjs(), ids, net
      ensures Valid() && players == old(players)
      ensures out.Fail? <==> Key(index).None? || Key(index).value !in old(rooms.vals)
      ensures out.Fail? ==>
        && out.error == AppError(NoRoom) && game.None?
        && rooms == old(rooms) && games == old(games) && ids.last == old(ids.last) && net.log == old(net.log)
      ensures out.Pass? ==>
        var k := Key(index).value;
        && (game.None? <==> p.user.id in old(rooms.vals[k].players.vals))
        && (game.None? ==>
              && rooms == old(rooms) && games == old(games) && ids.last == old(ids.last)
              && net.log == old(net.log) + Fanout(Recipients(), UpdateRoom(RoomList())))
        && (game.Some? ==>
              var g := game.value;
              && fresh(g) && g.id == old(ids.last) && ids.last == old(ids.last) + 1 && games == old(games).Set(g.id, g)
              && old(ids.last) in games.vals && games.vals[old(ids.last)] == g
              && g.first == old(rooms.vals[k].GetPlayers()[0]) && g.second == p
              && rooms == old(rooms).DeleteAll({k} + old(HeldBy(p.user.id)))
              && net.log == old(net.log) + [Envelope(g.first.channel, CreateGame(g.id, g.first.user.id)),
                                            Envelope(g.second.channel, CreateGame(g.id, g.second.user.id))]
                                         + Fanout(Recipients(), UpdateRoom(RoomList())))
    {
      var k := Key(index);
      if k.None? || k.value !in rooms.vals {
        return Fail(AppError(NoRoom)), None;
      }
      var room := rooms.vals[k.value];
      game := Enter(room, p);
      SendRooms();
      out := Pass;
    }


    /** GAME_SINGLE up to the registry: the game against a new bot, registered once the
        bot's board is placed. */
    method Solo(p: Player) returns (out: Outcome<Error>, g: Game)
      requires Valid() && players.Get(p.user.id) == Some(p)
      modifies this`games, this`Shared, ids, net, p`wins
      ensures Valid() && players == old(players) && rooms == old(rooms) && p.wins == old(p.wins)
      ensures fresh(g) && g.first == p && g.second.IsBot() && g.id == old(ids.last) + 1 && ids.last == old(ids.last) + 2
      ensures net.log == old(net.log) + [Envelope(p.channel, CreateGame(g.id, p.user.id)),
                                         Envelope(g.second.channel, CreateGame(g.id, g.second.user.id))]
      ensures out.Fail? ==> out == Fail(GameError(NoPoints)) && games == old(games)
      ensures out.Pass? ==> games == old(games).Set(g.id, g) && g.second.game == g && g.boards.Keys == {g.second.user.id}
    {
      assert p.user.id in players.vals;
      out, g := BotGame(p, ids, net);
      SeparateKept();
      IssuedKept();
      TableKept();
      GamesKept();
      RoomsKept();
      if out.Pass? {
        games := games.Set(g.id, g);
        Shared := Shared + g.Repr;
        GameAdded(g);
      }
    }

    /** GAME_SINGLE: a game against a new bot; once the bot's board is placed the game is
        registered, the player leaves every room it waits in and every registered player
        gets the new list of rooms. A failed board generation leaves the registries as
        they were. */
    method Single(p: Player) returns (out: Outcome<Error>, g: Game)
      requires Valid() && players.Get(p.user.id) == Some(p)
      modifies this`rooms, this`games, this`Shared, RoomObjs(), ids, net, p`wins
      ensures Valid() && players == old(players) && p.wins == old(p.wins)
      ensures fresh(g) && g.first == p && g.second.IsBot() && g.id == old(ids.last) + 1 && ids.last == old(ids.last) + 2
      ensures out.Fail? ==>
        && out == Fail(GameError(NoPoints)) && games == old(games) && rooms == old(rooms)
        && net.log == old(net.log) + [Envelope(p.channel, CreateGame(g.id, p.user.id)),
                                      Envelope(g.second.channel, CreateGame(g.id, g.second.user.id))]
      ensures out.Pass? ==>
        && games == old(games).Set(g.id, g) && g.second.game == g
        && g.id in games.vals && games.vals[g.id] == g
        && rooms == old(rooms).DeleteAll(old(HeldBy(p.user.id)))
        && net.log == old(net.log) + [Envelope(p.channel, CreateGame(g.id, p.user.id)),
                                      Envelope(g.second.channel, CreateGame(g.id, g.second.user.id))]
                                   + Fanout(Recipients(), UpdateRoom(RoomList()))
    {
      ghost var held := HeldBy(p.user.id);
      out, g := Solo(p);
      assert HeldBy(p.user.id) == held;
      if out.Pass? {
        RemovePlayerFromRooms(p);
        assert rooms == old(rooms).DeleteAll(held);
        SendRooms();
      }
    }


    /** A game that changed only its own objects, and took on new ones, keeps the
        invariant once its objects are counted among the games' objects again. */
    twostate lemma GamePlayed(g: Game)
      requires old(Valid()) && g.id in games.vals && games.vals[g.id] == g && g.Valid()
      requires old(g.Repr) <= g.Repr && forall o | o in g.Repr - old(g.Repr) :: !old(allocated(o))
      requires games == old(games) && players == old(players) && rooms == old(rooms) && Shared == old(Shared) + g.Repr
      requires unchanged(db, ids) && unchanged(old(Shared) - old(g.Repr)) && unchanged(old(RoomObjs()))
      requires unchanged(old(UserTableObj())) && unchanged(old(Seconds())`game)
      ensures Valid()
    {
      assert old(allocated(this)) && old(allocated(db)) && old(allocated(net)) && old(allocated(ids));
      assert old(g.Repr) <= old(Shared);
      assert this !in g.Repr - old(g.Repr) && db !in g.Repr - old(g.Repr);
      assert net !in g.Repr - old(g.Repr) && ids !in g.Repr - old(g.Repr);
      forall k | k in rooms.vals ensures rooms.vals[k] !in Shared {
        assert rooms.vals[k] == old(rooms.vals[k]) && old(rooms.vals[k]) in old(RoomObjs());
        assert old(allocated(rooms.vals[k])) && rooms.vals[k] !in g.Repr - old(g.Repr);
      }
      forall k | k in players.vals ensures players.vals[k] !in Shared {
        assert old(allocated(players.vals[k])) && players.vals[k] !in g.Repr - old(g.Repr);
      }
      forall k | k in games.vals ensures games.vals[k].first !in Shared && games.vals[k].second !in Shared {
        assert games.vals[k] == old(games.vals[k]);
        assert old(games.vals[k].first !in Shared && games.vals[k].second !in Shared);
        assert old(allocated(games.vals[k].first)) && old(allocated(games.vals[k].second));
        assert games.vals[k].first !in g.Repr - old(g.Repr) && games.vals[k].second !in g.Repr - old(g.Repr);
      }
      forall t | t in UserTableObj() ensures t !in Shared {
        assert t in old(UserTableObj()) && old(allocated(t)) && t !in g.Repr - old(g.Repr);
      }
      forall k | k in games.vals && k != g.id ensures games.vals[k].Valid() && games.vals[k].Repr == old(games.vals[k].Repr) {
        assert old(games.vals[k].Repr) !! old(g.Repr);
      }
      forall k | k in games.vals && k != g.id ensures games.vals[k].Repr !! g.Repr {
        assert old(games.vals[k].Repr) !! old(g.Repr) && old(allocated(games.vals[k].Repr));
        forall o | o in games.vals[k].Repr ensures o !in g.Repr - old(g.Repr) {
          assert old(allocated(o));
        }
      }
      RoomsKept();
    }

    /** A move on a registered game, made by the game itself; the game keeps its place in
        the registry, which then counts its new objects as the games' objects. */
    method Apply(g: Game, p: Player, move: Move) returns (out: Outcome<Error>, fin: bool)
      requires Valid() && g.id in games.vals && games.vals[g.id] == g
      modifies this`Shared, Shared, Peers()`wins, net
      ensures Valid() && games == old(games) && players == old(players) && rooms == old(rooms)
      ensures old(net.log) <= net.log
      ensures fin ==> out.Pass? && EndsWithFinish(net.log)
      ensures move.Fleet? && p.user.id in old(g.boards) ==>
        out == Fail(GameError(BoardExists)) && !fin && net.log == old(net.log)
      ensures !move.Fleet? && g.Opponent(p).user.id !in old(g.boards) ==>
        out == Fail(GameError(BoardNotFound)) && !fin && net.log == old(net.log)
    {
      out, fin := g.Play(p, move, net);
      Shared := Shared + g.Repr;
      GamePlayed(g);
    }

    /** GAME_SHIPS, GAME_ATACK and GAME_RANDOM_ATACK: an AppError with an empty message
        when no registered game has the requested id, and nothing changes; otherwise the
        game makes the move, and a move that finishes the game drops it from the registry
        and sends every registered player the standings (its FINISHED handler). */
    method PlayMove(p: Player, gameId: Option<Value>, move: Move) returns (out: Outcome<Error>, fin: bool, ghost played: seq<Envelope>)
      requires Valid()
      modifies this`games, this`Shared, Shared, Peers()`wins, net
      ensures Valid() && players == old(players) && rooms == old(rooms)
      ensures Key(gameId).None? || Key(gameId).value !in old(games.vals) ==>
        out == Fail(AppError("")) && !fin && games == old(games) && net.log == old(net.log)
      ensures old(net.log) <= played
      ensures !fin ==> games == old(games) && net.log == played
      ensures fin ==>
        && out.Pass? && EndsWithFinish(played)
        && games == old(games).Delete(Key(gameId).value)
        && net.log == played + Fanout(Recipients(), UpdateWinners(SortByWins(Standings())))
    {
      var k := Key(gameId);
      if k.None? || k.value !in games.vals {
        return Fail(AppError("")), false, net.log;
      }
      var g := games.vals[k.value];
      out, fin := Apply(g, p, move);
      played := net.log;
      if fin {
        Finished(g);
      }
    }


    /** A player who waits in no room leaves the registry without disturbing the
        invariant. */
    twostate lemma PlayerLeft(id: int)
      requires old(Valid()) && old(HeldBy(id)) == {} && players == old(players).Delete(id)
      requires rooms == old(rooms) && games == old(games) && Shared == old(Shared)
      requires unchanged(db, ids) && unchanged(old(Shared)) && unchanged(old(Seconds()))
      requires unchanged(old(RoomObjs())) && unchanged(old(UserTableObj()))
      ensures Valid()
    {
      forall k | k in players.vals ensures k in old(players.vals) && players.vals[k] == old(players.vals[k]) {
        assert players.Get(k) == old(players.Get(k));
      }
      forall k, j | k in rooms.vals && j in rooms.vals[k].players.vals ensures players.Get(j) == Some(rooms.vals[k].players.vals[j]) {
        assert k !in old(HeldBy(id));
      }
      GamesKept();
      TableKept();
    }

    /** `_players.delete` for a player who waits in no room. */
    method Leave(p: Player)
      requires Valid() && HeldBy(p.user.id) == {}
      modifies this`players
      ensures Valid() && players == old(players).Delete(p.user.id)
    {
      players := players.Delete(p.user.id);
      PlayerLeft(p.user.id);
    }

    /** The state changes of the close handler: the player leaves every room it waits in,
        every game it plays is abandoned, and the player is unregistered. */
    method Depart(p: Player)
      requires Valid() && players.Get(p.user.id) == Some(p)
      modifies this`rooms, RoomObjs(), this`games, this`players, net
      ensures Valid()
      ensures players == old(players).Delete(p.user.id)
      ensures rooms == old(rooms).DeleteAll(old(HeldBy(p.user.id)))
      ensures games == old(games).DeleteAll(old(PlayingIn(p)))
      ensures forall k | k in games.vals :: !Plays(games.vals[k], p)
      ensures net.log == old(net.log) + AbandonNotices(old(games.Values()), p, old(Recipients()), old(Standings()))
    {
      ghost var playing := PlayingIn(p);
      ghost var gs := games.Values();
      ghost var to := Recipients();
      ghost var table := Standings();
      RemovePlayerFromRooms(p);
      assert PlayingIn(p) == playing && games.Values() == gs;
      assert Recipients() == to && Standings() == table;
      AbandonPlayerGames(p);
      assert HeldBy(p.user.id) == {};
      Leave(p);
    }

    /** The close handler each registration attaches to the player's connection: the
        player leaves every room it waits in, every game it plays is abandoned, the player
        is unregistered, and the players left get the list of rooms and the standings. */
    method Close(p: Player)
      requires Valid() && players.Get(p.user.id) == Some(p)
      modifies this`rooms, RoomObjs(), this`games, this`players, net
      ensures Valid()
      ensures players == old(players).Delete(p.user.id)
      ensures rooms == old(rooms).DeleteAll(old(HeldBy(p.user.id)))
      ensures games == old(games).DeleteAll(old(PlayingIn(p)))
      ensures forall k | k in games.vals :: !Plays(games.vals[k], p)
      ensures net.log == old(net.log) + AbandonNotices(old(games.Values()), p, old(Recipients()), old(Standings()))
                                      + Fanout(Recipients(), UpdateRoom(RoomList()))
                                      + Fanout(Recipients(), UpdateWinners(SortByWins(Standings())))
    {
      Depart(p);
      SendRooms();
      SendWinners();
    }


    /** ROOM_CREATE: createRoom, then every registered player gets the list of rooms. */
    method Host(p: Player) returns (room: Room)
      requires Valid() && players.Get(p.user.id) == Some(p)
      modifies this`rooms, ids, net
      ensures Valid() && players == old(players) && games == old(games)
      ensures old(HeldBy(p.user.id)) != {} ==> rooms == old(rooms) && old(HeldBy(p.user.id)) == {room.id}
      ensures old(HeldBy(p.user.id)) == {} ==>
        fresh(room) && room.id == old(ids.last) && rooms == old(rooms).Set(room.id, room) && room.GetPlayers() == [p]
      ensures room.id in rooms.vals && rooms.vals[room.id] == room && HeldBy(p.user.id) == {room.id}
      ensures |HeldBy(p.user.id)| == 1
      ensures old(HeldBy(p.user.id)) == {} ==>
        && HeldBy(p.user.id) == {old(ids.last)} && old(ids.last) in rooms.vals
        && rooms == old(rooms).Set(old(ids.last), rooms.vals[old(ids.last)])
      ensures net.log == old(net.log) + Fanout(Recipients(), UpdateRoom(RoomList()))
    {
      room := CreateRoom(p);
      SendRooms();
    }

    /** The registered players. */
    ghost function Members(): set<Player>
      reads this`players
    {
      set k | k in players.vals :: players.vals[k]
    }

    /** The handler of a request from a registered player: createRoom with the rooms
        broadcast, joining a room, a single game, or a move on a game; an unknown type is
        ignored. */
    method Route(p: Player, r: Request) returns (out: Outcome<Error>)
      requires Valid() && players.Get(p.user.id) == Some(p) && !r.Reg?
      modifies this`rooms, this`games, this`Shared, RoomObjs(), Shared, Peers()`wins, p`wins, ids, net
      ensures Valid() && players == old(players)
      ensures r.Unknown? ==> out == Pass && rooms == old(rooms) && games == old(games) && net.log == old(net.log)
      ensures r.CreateRoom? ==>
        var id := p.user.id;
        && out == Pass && games == old(games) && |HeldBy(id)| == 1
        && (old(HeldBy(id)) != {} ==> rooms == old(rooms) && HeldBy(id) == old(HeldBy(id)))
        && (old(HeldBy(id)) == {} ==>
              && HeldBy(id) == {old(ids.last)} && old(ids.last) in rooms.vals
              && rooms == old(rooms).Set(old(ids.last), rooms.vals[old(ids.last)]))
        && net.log == old(net.log) + Fanout(Recipients(), UpdateRoom(RoomList()))
      ensures r.AddUserToRoom? ==>
        var i := r.indexRoom;
        && (out.Fail? <==> Key(i).None? || Key(i).value !in old(rooms.vals))
        && (out.Fail? ==>
              && out == Fail(AppError(NoRoom)) && rooms == old(rooms) && games == old(games)
              && net.log == old(net.log))
      ensures r.AddUserToRoom? && out.Pass? ==>
        var k := Key(r.indexRoom).value;
        var id := p.user.id;
        && (id in old(rooms.vals[k].players.vals) ==> rooms == old(rooms) && games == old(games))
        && (id !in old(rooms.vals[k].players.vals) ==>
              && rooms == old(rooms).DeleteAll({k} + old(HeldBy(id)))
              && old(ids.last) in games.vals && games == old(games).Set(old(ids.last), games.vals[old(ids.last)]))
      ensures r.SinglePlay? ==>
        var id := p.user.id;
        && (out.Fail? ==> out == Fail(GameError(NoPoints)) && rooms == old(rooms) && games == old(games))
        && (out.Pass? ==>
              && rooms == old(rooms).DeleteAll(old(HeldBy(id)))
              && old(ids.last) + 1 in games.vals && games == old(games).Set(old(ids.last) + 1, games.vals[old(ids.last) + 1])
              && games.vals[old(ids.last) + 1].first == p
              && games.vals[old(ids.last) + 1].second.IsBot())
      ensures r.AddShips? || r.Attack? || r.RandomAttack? ==>
        && rooms == old(rooms)
        && (Key(r.gameId).None? || Key(r.gameId).value !in old(games.vals) ==>
              out == Fail(AppError("")) && games == old(games) && net.log == old(net.log))
        && (Key(r.gameId).Some? && Key(r.gameId).value in old(games.vals) ==>
              games == old(games) || games == old(games).Delete(Key(r.gameId).value))
    {
      match r {
        case CreateRoom =>
          var room := Host(p);
          return Pass;
        case AddUserToRoom(index) =>
          var game;
          out, game := Join(p, index);
        case SinglePlay =>
          var g;
          out, g := Single(p);
        case AddShips(id, ships) =>
          var fin;
          ghost var played;
          out, fin, played := PlayMove(p, id, Fleet(ships));
        case Attack(id, x, y) =>
          var fin;
          ghost var played;
          out, fin, played := PlayMove(p, id, Shot(Coord(x, y)));
        case RandomAttack(id) =>
          var fin;
          ghost var played;
          out, fin, played := PlayMove(p, id, RandomShot);
        case Unknown =>
          return Pass;
      }
    }

    /** handleMessage: a text that does not parse is a MessageBodyError; a reg request is
        served only on a connection with no player, and its failure is answered rather than
        thrown; any other request on a connection with no player is answered "Need to be
        authorized"; otherwise the request goes to its handler, and an unknown type is
        ignored. A failed outcome is an error the handler throws. */
    method HandleMessage(conn: nat, req: Option<Request>) returns (out: Outcome<Error>)
      requires Valid()
      modifies this`players, this`rooms, this`games, this`Shared, db, UserTableObj(), RoomObjs(), Shared
      modifies Peers()`wins, Members()`wins, ids, net
      ensures Valid()
      ensures req.None? ==>
        out == Fail(MessageBodyError) && players == old(players) && rooms == old(rooms) && games == old(games)
        && net.log == old(net.log)
      ensures req.Some? && req.value.Reg? ==> out == Pass
      ensures req.Some? && req.value.Reg? && old(FindPlayer(Conn(conn))).Some? ==>
        players == old(players) && rooms == old(rooms) && games == old(games) && net.log == old(net.log)
      ensures req.Some? && !req.value.Reg? && old(FindPlayer(Conn(conn))).None? ==>
        && out == Pass && players == old(players) && rooms == old(rooms) && games == old(games)
        && net.log == old(net.log) + [Envelope(Conn(conn), RegError(NeedAuth))]
      ensures req.Some? && !req.value.Reg? ==> players == old(players)
      ensures req == Some(Unknown) && old(FindPlayer(Conn(conn))).Some? ==>
        out == Pass && rooms == old(rooms) && games == old(games) && net.log == old(net.log)
      ensures req.Some? && req.value.CreateRoom? && old(FindPlayer(Conn(conn))).Some? ==>
        var id := old(FindPlayer(Conn(conn))).value.user.id;
        && out == Pass && games == old(games) && |HeldBy(id)| == 1
        && (old(HeldBy(id)) != {} ==> rooms == old(rooms) && HeldBy(id) == old(HeldBy(id)))
        && (old(HeldBy(id)) == {} ==>
              && HeldBy(id) == {old(ids.last)} && old(ids.last) in rooms.vals
              && rooms == old(rooms).Set(old(ids.last), rooms.vals[old(ids.last)]))
        && net.log == old(net.log) + Fanout(Recipients(), UpdateRoom(RoomList()))
      ensures req.Some? && req.value.AddUserToRoom? && old(FindPlayer(Conn(conn))).Some? ==>
        var i := req.value.indexRoom;
        && (out.Fail? <==> Key(i).None? || Key(i).value !in old(rooms.vals))
        && (out.Fail? ==>
              && out == Fail(AppError(NoRoom)) && rooms == old(rooms) && games == old(games)
              && net.log == old(net.log))
      ensures req.Some? && req.value.AddUserToRoom? && old(FindPlayer(Conn(conn))).Some? && out.Pass? ==>
        var k := Key(req.value.indexRoom).value;
        var id := old(FindPlayer(Conn(conn))).value.user.id;
        && (id in old(rooms.vals[k].players.vals) ==> rooms == old(rooms) && games == old(games))
        && (id !in old(rooms.vals[k].players.vals) ==>
              && rooms == old(rooms).DeleteAll({k} + old(HeldBy(id)))
              && old(ids.last) in games.vals && games == old(games).Set(old(ids.last), games.vals[old(ids.last)]))
      ensures req.Some? && req.value.SinglePlay? && old(FindPlayer(Conn(conn))).Some? ==>
        var id := old(FindPlayer(Conn(conn))).value.user.id;
        && (out.Fail? ==> out == Fail(GameError(NoPoints)) && rooms == old(rooms) && games == old(games))
        && (out.Pass? ==>
              && rooms == old(rooms).DeleteAll(old(HeldBy(id)))
              && old(ids.last) + 1 in games.vals && games == old(games).Set(old(ids.last) + 1, games.vals[old(ids.last) + 1])
              && games.vals[old(ids.last) + 1].first == old(FindPlayer(Conn(conn))).value
              && games.vals[old(ids.last) + 1].second.IsBot())
      ensures req.Some? && (req.value.AddShips? || req.value.Attack? || req.value.RandomAttack?)
              && old(FindPlayer(Conn(conn))).Some? ==>
        && rooms == old(rooms)
        && (Key(req.value.gameId).None? || Key(req.value.gameId).value !in old(games.vals) ==>
              out == Fail(AppError("")) && games == old(games) && net.log == old(net.log))
        && (Key(req.value.gameId).Some? && Key(req.value.gameId).value in old(games.vals) ==>
              games == old(games) || games == old(games).Delete(Key(req.value.gameId).value))
    {
      if req.None? {
        return Fail(MessageBodyError);
      }
      var found := FindPlayer(Conn(conn));
      if req.value.Reg? {
        if found.None? {
          var r := Register(conn, req.value.name, req.value.password);
        }
        return Pass;
      }
      if found.None? {
        Reply(Conn(conn), RegError(NeedAuth));
        return Pass;
      }
      out := Route(found.value, req.value);
    }
  }
}
