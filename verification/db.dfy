/** The in-memory database: a process-wide id counter and tables of JSON rows keyed by id. */
module Db {
  import opened Wrappers
  import opened Json
  import opened OrderedMaps

  /** An object lists its array-index keys (0 up to 2^32 - 2) first, in ascending order,
      and its other keys in insertion order; this is the least key that is no array index. */
  const FirstNonIndex: int := 0x1_0000_0000 - 1

  /** The process-wide counter behind every entity id; it starts at the clock reading
      taken when the program loads, which is a parameter here. A millisecond clock read
      after January 1970 is far past the array-index range. */
  class IdSource {
    var last: int

    constructor(clock: int)
      requires clock >= FirstNonIndex
      ensures last == clock
    {
      last := clock;
    }

    /** Post-increment: hands out the current value and moves past it, so no id is
        handed out twice. */
    method Next() returns (id: int)
      modifies this
      ensures id == old(last) && last == old(last) + 1
      ensures id < last
    {
      id := last;
      last := last + 1;
    }
  }

  /** A row is a JSON object; its "id" property is the key it is stored under. */
  type Row = map<string, Value>

  /** A table: rows keyed by numeric id, listed in the order the rows were first stored.
      The object behind it agrees for the ids the counter hands out, which are no array
      indices; an id in the array-index range that `Update` stores would come first there. */
  class Table {
    var items: OMap<int, Row>

    ghost predicate Valid()
      reads this
    {
      items.Valid()
    }

    constructor()
      ensures Valid() && items == Empty()
    {
      items := Empty();
    }

    /** Stores a copy of `data` under a fresh id; the fresh id replaces any "id" in `data`. */
    method Add(data: Row, ids: IdSource) returns (row: Row)
      requires Valid()
      modifies this, ids
      ensures Valid()
      ensures row == data["id" := Num(old(ids.last))]
      ensures ids.last == old(ids.last) + 1
      ensures items == old(items).Set(old(ids.last), row)
    {
      var id := ids.Next();
      row := data["id" := Num(id)];
      items := items.Set(id, row);
    }

    /** Removes the row with the given id, if any; always answers true. */
    method Delete(id: int) returns (removed: bool)
      requires Valid()
      modifies this
      ensures Valid() && removed
      ensures items == old(items).Delete(id)
    {
      items := items.Delete(id);
      removed := true;
    }

    /** Merges `data` over the stored row (or over an empty row when there is none)
        and stores the result under `id`. */
    method Update(id: int, data: Row) returns (row: Row)
      requires Valid()
      modifies this
      ensures Valid()
      ensures forall k :: k in row <==> k in data || (id in old(items.vals) && k in old(items.vals[id]))
      ensures forall k :: k in data ==> row[k] == data[k]
      ensures forall k :: id in old(items.vals) && k in old(items.vals[id]) && k !in data ==> row[k] == old(items.vals[id])[k]
      ensures items == old(items).Set(id, row)
    {
      var item := Get(id);
      var base: Row := if item.Some? then item.value else map[];
      row := base + data;
      items := items.Set(id, row);
    }

    /** The row stored under `id`, or nothing. */
    method Get(id: int) returns (r: Option<Row>)
      requires Valid()
      ensures r.Some? <==> id in items.vals
      ensures r.Some? ==> r.value == items.vals[id]
    {
      r := items.Get(id);
    }

    /** Every stored row, in the order the rows were first stored. */
    method All() returns (rows: seq<Row>)
      requires Valid()
      ensures |rows| == |items.keys|
      ensures forall i :: 0 <= i < |rows| ==> rows[i] == items.vals[items.keys[i]]
    {
      rows := items.Values();
    }
  }

  /** Named tables, created on first use. */
  class Database {
    var tables: map<string, Table>

    constructor()
      ensures tables == map[]
    {
      tables := map[];
    }

    method GetTable(name: string) returns (t: Table)
      modifies this
      ensures name in old(tables) ==> t == old(tables)[name] && tables == old(tables)
      ensures name !in old(tables) ==> fresh(t) && t.Valid() && t.items == Empty() && tables == old(tables)[name := t]
    {
      if name in tables {
        t := tables[name];
      } else {
        t := new Table();
        tables := tables[name := t];
      }
    }
  }
}
