# Battleship game server — a Dafny model

This project models the core of a WebSocket battleship server. Players register with a
name and a password. They open rooms or join them, and a full room becomes a two-player
game. A player may instead start a single game against a bot. Each player places a fleet
of ten ships on a 10 x 10 board, or lets the server generate one. The players then fire
at each other's board in turn. A hit or a kill keeps the turn, a miss passes it, and
sinking the last ship wins. Every registered player is sent the list of open rooms after a
registration, a closed connection, create_room, add_user_to_room and single_play. They are
sent the winners table after a registration, a closed connection and a finished game.
Placing ships never broadcasts the rooms, and a shot does not either. add_ships broadcasts
the winners table only when it starts a game against the bot and the bot's first turn wins
it. A shot broadcasts it only when the game ends, by that shot or by the bot's reply.

The model covers these parts:

- **Storage.** The in-memory database and its id counter (`Db`), and the insertion-ordered
  dictionaries that JavaScript `Map`s are (`OrderedMaps`). A table is an object keyed by
  id. Such an object lists its array-index keys (0 up to 2^32 - 2) first, in ascending order,
  and its other keys in insertion order. The counter starts at the clock, so its ids lie
  beyond that range and a table lists its rows in insertion order too.
- **Request validation.** The recursive request-shape validator (`Fields`, over the parsed
  JSON values of `Json`) and the user model (`Users`).
- **Board geometry.** Ship cells and the ring around a ship (`Geometry`), and the cell grid
  with its queries (`Grids`).
- **Board rules.** Fleet placement (`Placement`), firing (`Firing`) and the fleet
  configuration with the random generator's bookkeeping (`Fleets`).
- **Objects updated in place.** The board with its in-place array (`Boards`), players, bots
  and the game with its turn logic (`Games`), and rooms (`Rooms`).
- **Standings.** The stable winners sort (`Winners`).
- **The application.** Registration, rooms, games, the close handler and the request
  dispatcher (`Apps`).
- **Messages.** Everything a player is sent goes into one outbox, the `log` of a
  `Transport` (`Messages`). Most contracts state exactly which envelopes are appended, in
  which order, to which connection. The exceptions are the bot's chains of shots, listed
  under "Left out".

A few modelling choices:

- **Ids.** `Date.now()` only seeds the id counter, so it is a parameter of the
  `IdSource` constructor.
- **Randomness.** `Math.random` becomes a nondeterministic choice (`:|`), so every
  property holds for every random outcome.
- **Errors.** A thrown exception becomes a `Fail`/`Err` result that the caller passes on
  at once, which skips the rest of the handler as a `throw` does.
- **Events.** A game's FINISHED event becomes a `fin` flag returned by the game's
  methods. The application's ROOMS and WINNERS events become direct calls.
- **The bot.** It reacts to a turn message that names it by firing at once. Its chain
  of shots terminates because every shot that is not a repeat resolves a board cell.

## Model

| member | source | states |
|---|---|---|
| Db.IdSource.Next | src/services/db.ts:3-7 | Hands out the current counter value and moves past it, so an id is never handed out twice |
| Db.Table.constructor | src/services/db.ts:13-14 | A new table holds no rows |
| Db.Table.Add | src/services/db.ts:16-20 | The stored row is a copy of the data whose "id" is the fresh id, which overrides any "id" in the data; it is stored under that id, listed last, and the counter advances by one |
| Db.Table.Delete | src/services/db.ts:22-24 | Always answers true; the row under the id is gone and the other rows keep their order |
| Db.Table.Update | src/services/db.ts:26-30 | The new row has exactly the keys of the data and of the old row; the data's values win and the old row's other values stay; it is stored under the id |
| Db.Table.Get | src/services/db.ts:32-34 | Some row exactly when one is stored under the id, and then that row |
| Db.Table.All | src/services/db.ts:36-38 | Every stored row, once each, in the order the rows were first stored, which is the object's order for the counter's ids |
| Db.Database.constructor | src/services/db.ts:41-42 | A new database has no tables |
| Db.Database.GetTable | src/services/db.ts:43-48 | An existing table under the name is returned unchanged; otherwise a new empty table is created and stored under the name |
| OrderedMaps.OMap.Set | src/app.ts:23-26 | `Map.set`: afterwards the key maps to the value and no other key changes; a new key goes last and grows the size by one; an existing key keeps its place; setting an entry that is already there changes nothing |
| OrderedMaps.OMap.Delete | src/app.ts:23-26 | `Map.delete`: the key is gone, no other key changes and the size drops by one exactly when the key was there |
| OrderedMaps.OMap.DeleteAll | src/app.ts:110-116 | Deleting a set of keys removes exactly those keys and leaves every other entry |
| OrderedMaps.OMap.Values | src/app.ts:40-52 | `Array.from(map.values())`: one value per key, in key order |
| OrderedMaps.Empty | src/app.ts:23-26 | A new `Map` holds no keys |
| OrderedMaps.Without | src/services/db.ts:22-24 | Deleting a key keeps exactly the other keys, in order |
| OrderedMaps.Drop | src/app.ts:110-116 | Deleting a set of keys keeps exactly the other keys, in order |
| OrderedMaps.DeleteAllStep | src/app.ts:110-116 | Deleting a batch and then one more key is deleting the larger batch |
| OrderedMaps.DeleteOne | src/app.ts:106-108 | Deleting one key is deleting the batch of that key alone |
| OrderedMaps.DeleteAllAbsent | src/app.ts:110-116 | Deleting keys the map does not hold leaves the map as it is |
| OrderedMaps.DeleteAllTwice | src/app.ts:110-116 | Two batches of deletions are one batch of their union |
| OrderedMaps.SetNewKeyAppends | src/app.ts:96-97 | A key set for the first time lists its value last |
| OrderedMaps.ValuesListEachEntryOnce | src/app.ts:40-52 | Each stored entry is listed by `values()` exactly once, at its key's position |
| Json.DecimalInjective | src/utils/fields.ts:48-59 | Different array indices give different property keys |
| Json.LengthIsNoIndex | src/utils/fields.ts:9-11 | No array index is spelt "length" |
| Json.ArrayProps | src/utils/fields.ts:51-53 | An array seen as an object has its indices as keys, each holding its element, and no other key |
| Json.Props | src/utils/fields.ts:9-11 | Every nested array or object found under a key is smaller than its holder, so the validator's recursion ends |
| Fields.StarFields | src/utils/fields.ts:55-59 | The `'*'` child map has one key per array index, exactly the array's own keys, each holding the `'*'` parameters |
| Fields.ValueInvalidIff | src/utils/fields.ts:13-81 | hasRequiredFields reports an object invalid exactly when it does not conform to the fields map; null and non-objects never conform |
| Fields.PropsInvalidIff | src/utils/fields.ts:17-22 | The key loop reports invalid exactly when some listed key's entry does not conform |
| Fields.KeyInvalidIff | src/utils/fields.ts:23-78 | One listed key fails exactly when its value does not meet its type: a string, non-empty when required; an object whose child, if any, conforms; an array, non-empty when required, whose child, if any, conforms; a number; a key with no type accepts any value; a missing value fails only when required |
| Fields.ArrayChildInvalidIff | src/utils/fields.ts:63-66 | An array checked against a child map fails exactly when some listed index does not conform |
| Fields.StarInvalidIff | src/utils/fields.ts:55-62 | An array checked with a `'*'` child fails exactly when some element does not conform to the `'*'` parameters |
| Fields.UnlistedKeysIgnored | src/utils/fields.ts:17-22 | Only the listed keys are read: two objects that agree on them get the same verdict |
| Fields.FewerFieldsStayValid | src/utils/fields.ts:17-22 | Dropping entries from the fields map never turns a valid object invalid |
| Users.CheckUserData | src/models/user.ts:29-48 | Answers true exactly for data with an id and a non-empty string name and password; otherwise ModelErrorFields |
| Users.NewUser | src/models/user.ts:17-22 | A user exactly when the data is well formed, carrying the data's id, name and password; otherwise ModelErrorFields |
| Users.CheckPassword | src/models/user.ts:24-26 | True exactly when the given password is strictly equal to the stored one, so an absent password never matches |
| Geometry.ShipCells | src/models/game.ts:188-197 | A ship covers exactly `length` distinct cells, starting at its position, each one step further along its direction |
| Geometry.OnShip | src/models/game.ts:188-197 | A cell is on the ship exactly when it lies on the ship's row or column between its two ends |
| Geometry.Edges | src/models/game.ts:208-211 | The first ring loop yields exactly the cells of the two bounding rows that exist on the board, across the box |
| Geometry.Sides | src/models/game.ts:213-219 | The second ring loop yields exactly the cells of the two bounding columns that exist on the board, down the box |
| Geometry.TouchesIsBox | src/models/game.ts:199-222 | A cell touches a ship, diagonals included, exactly when it lies in the ship's bounding box grown by one cell |
| Geometry.PointsAroundIsRing | src/models/game.ts:199-222 | getPointsAround yields exactly the board cells that touch the ship without being on it |
| Grids.Index | src/models/game.ts:45-66 | A board cell's place in the row-major grid is within the grid |
| Grids.CoordOf | src/models/game.ts:45-66 | Every grid place is the place of a board cell |
| Grids.IndexInjective | src/models/game.ts:45-66 | Two board cells never share a grid place |
| Grids.EmptyGrid | src/models/game.ts:77-79 | A fresh board has every cell empty |
| Grids.AvailableCoordinates | src/models/game.ts:148-160 | getAvailableCoordinates lists exactly the unresolved cells, each once, in board order |
| Grids.AvailableFrom | src/models/game.ts:148-160 | The scan from a given cell lists exactly the unresolved cells from there on, in board order |
| Grids.HasAvailableShips | src/models/game.ts:224-233 | True exactly when some cell still holds part of a ship |
| Grids.AnyShipFrom | src/models/game.ts:224-233 | True exactly when some cell from a given place on holds part of a ship |
| Grids.UnresolvedMonotone | src/models/game.ts:235-268 | A shot, which only resolves cells, never raises the count of unresolved cells |
| Grids.UnresolvedDecreases | src/models/game.ts:235-268 | A shot that resolves a cell lowers the count of unresolved cells |
| Placement.PlaceCellsSpec | src/models/game.ts:83-101 | Placing one ship succeeds exactly when every one of its cells is on the board and free; it marks those cells with the ship's index and nothing else; a failure names the first bad cell: off the board, or taken |
| Placement.PlaceFleetSpec | src/models/game.ts:83-101 | Placing ships in order onto a board holding the earlier ones succeeds exactly when the fleet fits and never overlaps, and then the board holds exactly the fleet |
| Placement.LayoutSpec | src/models/game.ts:76-103 | The constructor's placement succeeds exactly for a fleet whose ships all fit on the board and never share a cell; each ship's cells then hold its index and every other cell is empty; a fleet that does not overlap can only fail with NotFit, and one that fits only with Occupied |
| Placement.PlaceFleetErrors | src/models/game.ts:83-101 | Placement fails only with one of the constructor's two errors |
| Placement.HoldsWellFormed | src/models/game.ts:45-66 | A board holding a fleet names only ships of that fleet |
| Placement.PlaceStep | src/models/game.ts:83-101 | A ship whose cells are all free extends a board holding the earlier ships |
| Placement.PlaceStepBad | src/models/game.ts:83-101 | A ship with a bad cell shows the fleet does not fit or overlaps, and which error it gets |
| Firing.ClearRing | src/models/game.ts:262-265 | Exactly the on-board cells of the ring become resolved; every other cell keeps its state |
| Firing.Fire | src/models/game.ts:235-268 | A shot off the board fails with OutOfBoard, and only then; otherwise the board still names only fleet ships and every cell keeps its state or becomes resolved |
| Firing.FireOutcome | src/models/game.ts:235-268 | A shot at a resolved cell repeats and changes nothing; otherwise the cell becomes resolved and the unresolved count drops; the result is a miss exactly for an empty cell, a hit exactly while another cell of that ship is afloat, and a kill otherwise |
| Firing.FireTwiceRepeats | src/models/game.ts:235-268 | A second shot at the same cell repeats and changes nothing |
| Firing.KillClearsRing | src/models/game.ts:254-267 | After a kill every on-board ring cell is resolved, and a later shot there repeats |
| Firing.NeighbourLayout | src/models/game.ts:76-103 | The constructor accepts two supplied one-cell ships side by side and lays out only their two cells |
| Firing.KillOverwritesNeighbour | src/models/game.ts:254-267 | Supplied fleets are not checked for adjacency: sinking one of two touching ships also resolves the other's only cell, the board then has no ship left, and a shot at the other ship repeats |
| Fleets.FleetPlan | src/models/game.ts:45-66 | The fleet to generate is ten ships, longest first: one of length 4 ("huge"), two of 3 ("large"), three of 2 ("medium"), four of 1 ("small") |
| Fleets.PlanNext | src/models/game.ts:109-111 | Each configuration entry adds its count of ships to the end of the plan |
| Fleets.Candidates | src/models/game.ts:162-186 | The candidate origins are exactly the eligible cells from which the whole ship runs over eligible cells |
| Fleets.Runs | src/models/game.ts:162-186 | The filter keeps exactly the cells from which the ship runs over eligible cells |
| Fleets.Remove | src/models/game.ts:132-139 | After a ship is placed, the eligible cells are those not on the ship and not in its ring |
| Fleets.SpreadIsDisjoint | src/models/game.ts:105-146 | A fleet whose ships never touch never shares a cell, so the constructor accepts it |
| Boards.Indexed | src/models/game.ts:76-103 | The stored fleet has each ship's index set to its place and covers the same cells |
| Boards.Board.constructor | src/models/game.ts:76-103 | A board over a well-formed grid stores the fleet and the grid, with no ship sunk yet |
| Boards.Board.HasAvailableShips | src/models/game.ts:224-233 | True exactly when some grid cell still holds part of a ship |
| Boards.Board.AvailableCoordinates | src/models/game.ts:148-160 | Exactly the grid's unresolved cells |
| Boards.Board.Attack | src/models/game.ts:235-268 | The grid changes exactly as the firing rules say: a failure leaves it as it was; a kill records the ship that sank, and any other result leaves that record alone |
| Boards.Board.ShipAfloat | src/models/game.ts:254-260 | The search answers whether some on-board cell of the ship still holds its index |
| Boards.Board.ClearCells | src/models/game.ts:262-265 | The grid becomes the board with the ring's on-board cells resolved |
| Boards.PlaceOn | src/models/game.ts:83-101 | Writing the fleet onto the grid in place gives the placement's board, or fails with the placement's error |
| Boards.RandomCoordinate | src/models/game.ts:162-186 | Some origin from which the ship runs over eligible cells, and none exactly when there is no such origin |
| Boards.RandomShip | src/models/game.ts:112-131 | A ship of the configured kind and length whose whole run is eligible, trying the other orientation when the drawn one has no origin; none only when neither orientation has one |
| Boards.PlaceKeepsSpread | src/models/game.ts:123-141 | A ship placed over eligible cells keeps the fleet well spread, and removing its cells and ring keeps every eligible cell clear of every ship |
| Boards.GeneratingLonger | src/models/game.ts:105-146 | The generator's invariant survives a longer plan with the same beginning |
| Boards.PlaceNext | src/models/game.ts:123-142 | Placing the next ship of the plan over eligible cells keeps the generator's invariant |
| Boards.GenerateShips | src/models/game.ts:105-146 | Either NoPoints, or a fleet of the planned kinds and lengths in plan order, every ship on the board, no two ships touching |
| Boards.NewBoard | src/models/game.ts:76-103 | A supplied fleet gives a board exactly when it fits without overlap, with the constructor's error otherwise; no fleet gives a generated, well-spread fleet of the planned kinds and lengths, or NoPoints; the board then holds exactly its fleet |
| Messages.Fanout | src/services/messenger.ts:56-76 | One message to several recipients is one envelope per recipient, in order |
| Messages.Transport.constructor | src/services/messenger.ts:56-76 | Nothing has been sent yet |
| Messages.Transport.Send | src/models/player.ts:16-18 | Sending appends exactly one envelope to the outbox |
| Messages.Transport.Broadcast | src/services/messenger.ts:56-76 | Sending to a list appends one envelope per recipient, in order |
| Games.Player.constructor | src/models/player.ts:5-14 | A new player has the user and the connection, no wins and no game |
| Games.Player.SetGame | src/models/bot.ts:40-43 | The bot's board is added before the game is bound: a failure leaves the bot unbound; a generated board is ten planned, well-spread ships |
| Games.Game.constructor | src/models/game.ts:283-291 | A new game has no boards and the first player holds the turn |
| Games.Game.Opponent | src/models/game.ts:319-325 | The first of the two players that is not the given one; a stranger gets the first player |
| Games.Game.SendTurn | src/models/game.ts:327-346 | Switches the turn when asked, then tells both players who holds it; a human turn holder ends the call and the boards and wins stay as they were |
| Games.Game.Deliver | src/models/bot.ts:21-33 | A turn message reaches the bot: a bot that does not hold the turn does nothing; one that holds it but has no game fails with BotWithoutGame and changes nothing |
| Games.Game.AutoAtack | src/models/game.ts:445-458 | No opponent board gives BoardNotFound; a fully resolved board gives NoAttackPoints; otherwise the target is an unresolved cell, so the shot never repeats, and it goes as an ordinary attack |
| Games.Game.NoCandidate | src/models/game.ts:445-458 | When no cell can be drawn, every cell of the opponent's board is resolved |
| Games.Game.Atack | src/models/game.ts:357-443 | No opponent board gives BoardNotFound; a player out of turn only hears the turn again; the turn holder's shot resolves the cell, is announced to both players, wins on the last ship, sends a sunk ship's cells and ring, and passes the turn exactly on a miss |
| Games.Game.Strike | src/models/game.ts:366-443 | The turn holder's shot: off the board fails with OutOfBoard; a resolved cell resends the turn; otherwise the cell is resolved and the shot is announced |
| Games.Game.Shoot | src/models/game.ts:366 | The opponent's board answers as the firing rules say, and the game's record of its cells follows |
| Games.Game.Announce | src/models/game.ts:378-443 | The result goes to both players; a kill that leaves no ship adds a win and tells both players who won, with no turn message; otherwise play proceeds |
| Games.Game.Proceed | src/models/game.ts:402-442 | After a shot that did not win: a sunk ship's cells as killed and its ring as missed, then the turn, which passes to the opponent exactly on a miss |
| Games.Game.Win | src/models/game.ts:389-401 | The winner's count goes up by one and both players hear who won |
| Games.Game.Sink | src/models/game.ts:402-439 | The sunk ship's cells as killed, then its ring as missed, to both players |
| Games.Game.SendCells | src/models/game.ts:402-439 | One notice per cell and player, cell by cell |
| Games.Game.Abandon | src/models/game.ts:348-355 | Both players hear that the game ended with no winner |
| Games.Game.Start | src/models/game.ts:292-304 | Each player is sent its own fleet and its own id, then the turn is switched and sent; a missing board gives BoardNotFound |
| Games.Game.AddBoard | src/models/game.ts:468-481 | One board per player (BoardExists otherwise); the supplied fleet is placed, or a fleet generated; a placement failure changes nothing; the second board starts the game |
| Games.Game.Place | src/models/game.ts:468-481 | The board check and placement: BoardExists, the constructor's error or NoPoints change nothing; otherwise the new board holds exactly its fleet |
| Games.Game.Insert | src/models/game.ts:468-481 | The board map gains exactly the new board, and nothing else changes |
| Games.Game.Play | src/app.ts:236-271 | A game request's move goes to addBoard, atack or autoAtack, with their error cases: BoardExists for a second fleet, BoardNotFound for a shot before the opponent's board |
| Games.NewGame | src/models/game.ts:283-317 | Exactly two players, or GamePlayersError before anything happens; then a fresh id, the first player's turn, no boards, and each player told the game's id and its own id |
| Games.NewBot | src/models/bot.ts:11-16 | The bot is a user named "Bot" with password "any" and a fresh id, with no game |
| Games.BotGame | src/app.ts:221-229 | A new bot, a new game between the player and the bot with both told its id, and the bot's generated board; a failure leaves the bot unbound and no board |
| Rooms.Room.constructor | src/models/room.ts:9-14 | A fresh id, and the given player, if any, as the only member |
| Rooms.Room.GetPlayers | src/models/room.ts:31-33 | At most two members, each once, in join order, each stored under its own user id |
| Rooms.Room.IsFull | src/models/room.ts:16-18 | True exactly when the room holds two players |
| Rooms.Room.AddPlayer | src/models/room.ts:20-25 | A full room refuses with GamePlayersError and stays as it was; otherwise the player is stored under its user id, so a member that joins again keeps its place and the size |
| Rooms.Room.RemovePlayer | src/models/room.ts:27-29 | Answers whether a member had the user id; afterwards exactly the other members remain, in order |
| Rooms.Room.BuildGame | src/models/room.ts:35-40 | GamePlayersError unless full; otherwise a new game between the members in join order, the first holding the turn, each told the game's id |
| Winners.SortByWins | src/app.ts:30-39 | The winners table is sorted by wins, most first, is a permutation of the standings, and keeps entries with equal wins in their order |
| Winners.StableRankingUnique | src/app.ts:30-39 | A sorted order that keeps equal entries in their order is unique, so the table is determined by the standings |
| Winners.InsertWithWins | src/app.ts:30-39 | Inserting an entry into a sorted table keeps the order of the entries with each win count |
| Apps.Key | src/app.ts:193 | A `Map` lookup by a parsed value finds a numeric id only for a number, and then that number |
| Apps.FirstOn | src/app.ts:141 | The first player on the connection, and none exactly when no player uses it |
| Apps.FirstNamed | src/app.ts:58-64 | The first row whose name is strictly equal to the given one, and none exactly when no row has it |
| Apps.Credentials | src/app.ts:56 | The registration row carries exactly the given name and password, and no id |
| Apps.ChannelsOf | src/app.ts:30-52 | The broadcast recipients are each player's connection, in order |
| Apps.StandingOf | src/app.ts:34-37 | Each player's name and current wins, in order |
| Apps.Info | src/app.ts:44-50 | A listed room shows its id and each member's name and id, in join order |
| Apps.FirstHolding | src/app.ts:87-93 | The first room whose members include the player, and none exactly when no room does |
| Apps.Judge | src/app.ts:66-74 | The settled row must make a valid user, the password must be that user's and the user must not be online |
| Apps.Admit | src/app.ts:55-80 | An admitted user has exactly the given name and password and is not online; a refusal is ModelErrorFields, "Incorrect password" or "You already have an open session" |
| Apps.NewNameAdmission | src/app.ts:55-80 | A new name is admitted, under the next id, exactly when the name and the password are non-empty strings |
| Apps.KnownNameAdmission | src/app.ts:55-80 | A known name is decided by its stored row: admitted exactly when the row is valid, the password equals the stored one and the user is not online |
| Apps.RefusedNameStaysRefused | src/app.ts:58-66 | The row is stored before it is validated, so a name refused for a malformed row is refused the same way forever after, whatever the password |
| Apps.FirstNamedAfter | src/app.ts:58-64 | When no stored row has the name, the search after storing a row decides on that row |
| Apps.Vacate | src/app.ts:110-116 | One room drops whoever waits under the player's user id, and says whether that left it empty |
| Apps.VacateEach | src/app.ts:110-116 | Visiting the rooms in order, each drops the player, and exactly the rooms the player waited in are deleted |
| Apps.ClearRoomsIn | src/app.ts:110-116 | Exactly the rooms the player waited in are emptied and deleted; every other room stays as it was |
| Apps.SweptWhole | src/app.ts:110-128 | Deleting the flagged keys one by one during the visit is deleting them all at once |
| Apps.SweptAll | src/app.ts:110-128 | After any number of visited keys, the deletions so far are the batch of the flagged keys visited |
| Apps.SweptPlaying | src/app.ts:122-128 | Flagging the games the player plays in deletes exactly those and leaves none the player plays in |
| Apps.AbandonNoticesEmpty | src/app.ts:122-128 | Abandoning says nothing exactly when the player plays in no game |
| Apps.AbandonNoticesFinish | src/app.ts:122-128 | Both players of each game the player plays in hear that it ended with no winner |
| Apps.AbandonNoticesOnly | src/app.ts:122-128 | Abandoning sends nothing but finish messages with no winner and the winners table |
| Apps.AbandonOne | src/app.ts:122-128 | One abandoned game tells both its players, and its FINISHED handler sends the winners table |
| Apps.AbandonIn | src/app.ts:122-128 | Exactly the games the player plays in are abandoned and deleted, in order, each followed by the winners table; the other games stay |
| Apps.FilledRooms | src/app.ts:201-208 | Deleting the full room, then the rooms the joiner waited in, deletes both |
| Apps.RemovedInTurn | src/app.ts:206-208 | Removing both members from their rooms in turn deletes the rooms of either |
| Apps.App.constructor | src/app.ts:22-53 | A new server has an empty database and no players, rooms or games |
| Apps.App.FindPlayer | src/app.ts:141 | The registered player on the connection, and none exactly when no registered player uses it |
| Apps.App.Recipients | src/app.ts:33 | Every registered player's connection, in registration order |
| Apps.App.Standings | src/app.ts:34-37 | Every registered player's name and wins, in registration order |
| Apps.App.RoomsAt | src/app.ts:43-50 | The listed rooms under the given keys, in that order |
| Apps.App.RoomList | src/app.ts:40-52 | Each open room, in opening order, with its members' names and ids |
| Apps.App.SendRooms | src/app.ts:40-52 | Every registered player gets the list of open rooms, and nothing else changes |
| Apps.App.SendWinners | src/app.ts:30-39 | Every registered player gets the standings, most wins first, and nothing else changes |
| Apps.App.Reply | src/services/messenger.ts:56-76 | One message to one connection, and nothing else changes |
| Apps.App.UserRows | src/app.ts:58-61 | Every stored user row carries its numeric id |
| Apps.App.UsersTable | src/app.ts:58-64 | The user table, created empty on first use; the stored rows stay as they are |
| Apps.App.FindOrAddRow | src/app.ts:58-64 | The first stored row with the name; otherwise the credentials are stored under the next id and the counter advances |
| Apps.App.StoreRow | src/app.ts:58-64 | The same lookup, touching nothing but the database and the counter |
| Apps.App.Enroll | src/app.ts:76-79 | A new player for the user on the connection, with no wins, stored under its user id |
| Apps.App.Admission | src/app.ts:66-79 | The settled row's verdict decides: a refusal leaves the players as they were; an admission registers a new player on the connection |
| Apps.App.AuthUser | src/app.ts:55-80 | The verdict is exactly the reference verdict on the stored rows; an admitted user becomes a player on the connection, under its user id; a new name's row is stored whatever the verdict |
| Apps.App.Welcome | src/app.ts:158-165 | The reg answer to the new player, then the rooms and the winners to every registered player |
| Apps.App.Register | src/app.ts:143-175 | A refusal answers with a reg error carrying the message and changes no player; an admission registers the player and sends the reg answer, the rooms and the winners |
| Apps.App.RoomsListed | src/app.ts:40-52 | The open rooms, in opening order, are valid rooms under their own ids |
| Apps.App.RoomOf | src/app.ts:87-93 | The room the player waits in, found as createRoom finds it, and none exactly when the player waits nowhere |
| Apps.App.OpenRoom | src/app.ts:95-99 | A new room with the player as its only member, stored last under its fresh id |
| Apps.App.OnlyRoom | src/app.ts:86-99 | A player waits in at most one room |
| Apps.App.CreateRoom | src/app.ts:86-100 | The room the player already waits in, with nothing changed; otherwise a new room with the player alone; either way the player then waits in exactly that room |
| Apps.App.ClearRooms | src/app.ts:110-116 | Exactly the rooms the player waited in are emptied and deleted; the other rooms keep their members |
| Apps.App.RemovePlayerFromRooms | src/app.ts:110-116 | Exactly the rooms the player waited in are emptied and deleted, the other rooms stay as they were, and the player waits nowhere |
| Apps.App.KeepGames | src/app.ts:211 | The registry keeps exactly the given games |
| Apps.App.Finished | src/app.ts:210-213 | The FINISHED handler drops the game and sends every registered player the standings |
| Apps.App.AbandonAll | src/app.ts:122-128 | The games the player plays in are abandoned and their handlers run; the rest is what stays |
| Apps.App.AbandonPlayerGames | src/app.ts:122-128 | Exactly the games the player plays in are abandoned, which tells both players, and dropped, each followed by the standings; no game the player plays in remains |
| Apps.App.Seat | src/app.ts:199-202 | The player takes a seat; a room this fills is taken off the list, with its first member then the joiner; a member already there changes nothing |
| Apps.App.Pair | src/app.ts:203-204 | The game between the full room's members, in join order, registered under its fresh id, each member told the game's id |
| Apps.App.Scatter | src/app.ts:206-208 | Both members, one after the other, leave every room they wait in |
| Apps.App.Promote | src/app.ts:202-208 | A full room becomes a registered game, and both members leave every room they wait in |
| Apps.App.Enter | src/app.ts:199-214 | A member already in the room changes nothing; otherwise the room fills and becomes a game, and the room and every room the joiner waited in are gone |
| Apps.App.Join | src/app.ts:192-219 | "Room doesn't exist" exactly when no open room has the index, changing nothing; otherwise the player enters the room, and every registered player gets the new list of rooms |
| Apps.App.Solo | src/app.ts:220-232 | The game against a new bot, registered exactly when the bot's board is placed |
| Apps.App.Single | src/app.ts:220-235 | The game against a new bot, each told its id; a failed board generation leaves the registries as they were; otherwise the game is registered, the player leaves its rooms and everyone gets the list of rooms |
| Apps.App.Apply | src/app.ts:236-271 | A move on a registered game, with the game's error cases; the registries stay |
| Apps.App.PlayMove | src/app.ts:236-271 | An unknown game id answers an AppError and changes nothing; a move that finishes the game drops it and sends everyone the standings |
| Apps.App.Leave | src/app.ts:154 | The player is unregistered |
| Apps.App.Depart | src/app.ts:151-154 | The player leaves every room it waits in, every game it plays is abandoned and dropped, and the player is unregistered |
| Apps.App.Close | src/app.ts:151-157 | As Depart, then the players left get the list of rooms and the standings |
| Apps.App.Host | src/app.ts:187-191 | createRoom, then every registered player gets the list of rooms; the player then waits in exactly one room, the old one or a new one stored last |
| Apps.App.Route | src/app.ts:186-272 | Each request of a registered player goes to its handler: create_room leaves the player waiting in exactly one room, the old one or a new one stored last, and broadcasts the rooms; add_user_to_room fails with "Room doesn't exist" exactly when no open room has the index, and otherwise leaves the rooms unchanged for a member or deletes the room and the joiner's rooms and registers a game; single_play fails only with NoPoints, changing nothing, and otherwise registers a game of the player against a bot and deletes the player's rooms; a move on an unknown game fails with an empty AppError and changes nothing, and otherwise keeps the game or drops it; an unknown request changes nothing |
| Apps.App.HandleMessage | src/app.ts:134-273 | An unparsable message is a MessageBodyError; reg is served only on a connection with no player; any other request there is answered "Need to be authorized"; a registered player's request has the outcome and effects Route states |

## Left out

- JSON parsing and serialisation, and the WebSocket server (src/services/messenger.ts, src/server.ts), are not part of this model. A request arrives already parsed, or as `None` when it does not parse. A reply is the message value placed in the outbox, not its JSON text.
- Console logging is left out.
- `Math.random` is modelled as a nondeterministic choice. The model says nothing about the distribution.
- The wall clock that seeds the id counter is a parameter of the `IdSource` constructor.
- `authUserByCookie` does nothing and is left out.
- JSON numbers are modelled as integers (`Json.Num(int)`), for every numeric field: attack coordinates, `gameId`, `indexRoom`, and a name or password sent as a number. JavaScript numbers are doubles. Fractional values, and integers above 2^53 that share one double, are not modelled. Numeric strings, which JavaScript would compare loosely with a coordinate, are not modelled either. A missing or non-numeric coordinate makes the source index the board with `undefined` and throw "Out of the board"; the model stands for it with an off-board integer, which gets the same error.
- Fields.StarInvalidIff: a `null` element of an array checked with a `'*'` child is not modelled as the source treats it. The source builds the `'*'` map with an empty object pattern, `({}, key) => …`. Compiled for ES2015 or later, that pattern throws a TypeError on a `null` element, so `hasRequiredFields` throws. The model gives its verdict as for any other element, which is what an ES5 build does. The compile target is not part of this model, and the only field map checked, the user's, has no `'*'` child.
- Db.Table.Update: an absent id in the array-index range (0 up to 2^32 - 2) would be listed first by the source's object and is listed last by the model. The counter's ids, seeded by the clock, never fall in that range; the `IdSource` constructor requires this.
- A supplied fleet is modelled as well-formed ship records. Malformed ship JSON is not modelled.
- Property lookups see own properties only. Keys inherited from the object prototype (`key in obj`) are not modelled.
- The `EventEmitter` mechanics are replaced by direct calls and the `fin` flag. Listener order beyond what the handlers do is not modelled.
- A closed connection still receives messages in the outbox. Socket state is not modelled.
- Games.Game.constructor: requires two players with distinct user ids, which every caller passes. The source does not check this. With the same player twice, `getOpponent` finds no other player and throws a GameError, and a second `addBoard` throws "Board already exists", so such a game never starts. The model does not represent such a game.
- Games.Game.Play: states only the error cases of the dispatch. What each move does is stated by AddBoard, Atack and AutoAtack.
- Apps.App.Apply: states only the error cases and that the registries stay. The game's own contracts state what the move sends.
- Apps.App.PlayMove: when the move does not finish the game, only the registry is stated, not the messages the game sent.
- Apps.App.Route: states the outcome and the changes to the rooms and games for every request, and the messages only for create_room and the error cases. Join, Single and PlayMove state the messages of the other requests.
- Apps.App.HandleMessage: for a routed request it states the outcome and the changes to the rooms and games, as Route does. The messages are stated only for create_room and for the error cases. The messages of the other requests are stated by Join, Single and PlayMove.
- Games.Player.SetGame: when the bot's board is the second one, the start messages and the first shots are not stated. AddBoard states them.
- Games.Game.Deliver: when a bound bot holds the turn, only that the bot chain terminates and ends with a human turn is stated, not each shot. Atack and AutoAtack state each shot.
- Games.Game.AddBoard: when the second board starts the game and the bot holds the first turn, the outcome of the bot's shots is not stated.
- Games.Game.Start: when the bot holds the first turn, the outcome of the bot's shots is not stated.
- Boards.Board.AvailableCoordinates: states which cells are listed, not their order. Grids.AvailableCoordinates states the order.
- Apps.App.Single: the source removes the player from rooms before it registers the game. The model registers the game first. Neither step reads what the other writes, so the final state is the same.
