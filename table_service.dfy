/**
 * The table service over the remote `billiard_tables` table: a table is
 * written under snake_case columns, a falsy order link is stored as null,
 * an update sends only the fields it is given, and every row read back is
 * mapped to a record again.
 */
module TableService {
  import opened Common
  import opened Entities
  import opened Rows

  datatype Column = Id | Name | Status | PricePerHour | CurrentOrderId

  /** The column names of the `billiard_tables` table. */
  function ColumnName(c: Column): string {
    match c
    case Id => "id"
    case Name => "name"
    case Status => "status"
    case PricePerHour => "price_per_hour"
    case CurrentOrderId => "current_order_id"
  }

  type Row = map<Column, Value>

  /** `table.currentOrderId || null`: a missing link and the falsy id 0 are both stored as null. */
  function LinkValue(link: Option<int>): (v: Value)
    ensures v == Null <==> !Truthy(link)
    ensures Truthy(link) ==> v == Int(link.value)
  {
    if Truthy(link) then Int(link.value) else Null
  }

  /** The row `create` inserts: name, status and link always, the rate only when defined, never the id. */
  function CreateRow(t: BilliardTable): (r: Row)
    ensures Id !in r
    ensures Name in r && r[Name] == Text(t.name)
    ensures Status in r && r[Status] == Text(TableStatusName(t.status))
    ensures PricePerHour in r <==> t.pricePerHour.Some?
    ensures t.pricePerHour.Some? ==> r[PricePerHour] == Int(t.pricePerHour.value)
    ensures CurrentOrderId in r && r[CurrentOrderId] == LinkValue(t.currentOrderId)
  {
    Put(map[Name := Text(t.name), Status := Text(TableStatusName(t.status))],
        PricePerHour, IntValue(t.pricePerHour))[CurrentOrderId := LinkValue(t.currentOrderId)]
  }

  /** A row `mapResponse` can read: a text name and a known status. */
  ghost predicate TableRow(row: Row) {
    Name in row && row[Name].Text?
    && Status in row && row[Status].Text? && ParseTableStatus(row[Status].s).Some?
  }

  /** `mapResponse`: the record a row reads back as; a null link or rate reads back as absent. */
  function MapResponse(row: Row): (t: BilliardTable)
    requires TableRow(row)
    ensures t.name == row[Name].s
    ensures TableStatusName(t.status) == row[Status].s
    ensures t.id == ReadInt(row, Id)
    ensures t.currentOrderId.Some? <==> CurrentOrderId in row && row[CurrentOrderId].Int?
    ensures t.pricePerHour.Some? <==> PricePerHour in row && row[PricePerHour].Int?
  {
    BilliardTable(ReadInt(row, Id), row[Name].s, ParseTableStatus(row[Status].s).value,
                  ReadInt(row, CurrentOrderId), ReadInt(row, PricePerHour))
  }

  /** A created table reads back with its new id; its link survives unless it was the falsy id 0. */
  lemma CreateReadsBack(t: BilliardTable, id: int)
    ensures TableRow(CreateRow(t)[Id := Int(id)])
    ensures MapResponse(CreateRow(t)[Id := Int(id)])
            == t.(id := Some(id), currentOrderId := if Truthy(t.currentOrderId) then t.currentOrderId else None)
  {
    TableStatusNameRoundTrip(t.status);
  }

  /** A table whose link is absent or a real (non-zero) id comes back from `create` exactly as sent. */
  lemma CreateRoundTrip(t: BilliardTable, id: int)
    requires t.currentOrderId != Some(0)
    ensures MapResponse(CreateRow(t)[Id := Int(id)]) == t.(id := Some(id))
  {
    CreateReadsBack(t, id);
  }

  /** `Partial<BilliardTable>`: `None` is a field left undefined. */
  datatype TablePatch = TablePatch(
    name: Option<string>,
    status: Option<TableStatus>,
    pricePerHour: Option<int>,
    currentOrderId: Option<int>)

  /** The row `update` sends: one column per defined field, the link as `currentOrderId || null`. */
  function UpdateRow(p: TablePatch): (r: Row)
    ensures Id !in r
    ensures Name in r <==> p.name.Some?
    ensures Status in r <==> p.status.Some?
    ensures PricePerHour in r <==> p.pricePerHour.Some?
    ensures CurrentOrderId in r <==> p.currentOrderId.Some?
    ensures p.name.Some? ==> r[Name] == Text(p.name.value)
    ensures p.status.Some? ==> r[Status] == Text(TableStatusName(p.status.value))
    ensures p.pricePerHour.Some? ==> r[PricePerHour] == Int(p.pricePerHour.value)
    ensures p.currentOrderId.Some? ==> r[CurrentOrderId] == LinkValue(p.currentOrderId)
  {
    var withName := Put(map[], Name, if p.name.Some? then Some(Text(p.name.value)) else None);
    var withStatus := Put(withName, Status, if p.status.Some? then Some(Text(TableStatusName(p.status.value))) else None);
    var withRate := Put(withStatus, PricePerHour, IntValue(p.pricePerHour));
    Put(withRate, CurrentOrderId, if p.currentOrderId.Some? then Some(LinkValue(p.currentOrderId)) else None)
  }

  /** What an update does to the record: defined fields replace, a link of 0 clears, the id never changes. */
  function Patched(t: BilliardTable, p: TablePatch): (r: BilliardTable)
    ensures r.id == t.id
    ensures p.currentOrderId.None? ==> r.currentOrderId == t.currentOrderId
  {
    t.(name := OrElse(p.name, t.name),
       status := OrElse(p.status, t.status),
       pricePerHour := if p.pricePerHour.Some? then p.pricePerHour else t.pricePerHour,
       currentOrderId := if p.currentOrderId.None? then t.currentOrderId
                         else if Truthy(p.currentOrderId) then p.currentOrderId else None)
  }

  /** The row after an update reads back as the old record with the patch applied. */
  lemma UpdateReadsBack(row: Row, p: TablePatch)
    requires TableRow(row)
    ensures TableRow(row + UpdateRow(p))
    ensures MapResponse(row + UpdateRow(p)) == Patched(MapResponse(row), p)
  {
    if p.status.Some? {
      TableStatusNameRoundTrip(p.status.value);
    }
  }

  /**
   * Leaving the link undefined does not clear it: only an explicit 0 (or
   * another falsy id) stores null, so a caller that frees a table by passing
   * an undefined link leaves the old order attached.
   */
  lemma UndefinedLinkKept(row: Row, p: TablePatch)
    requires TableRow(row)
    requires p.currentOrderId.None?
    ensures TableRow(row + UpdateRow(p))
    ensures MapResponse(row + UpdateRow(p)).currentOrderId == MapResponse(row).currentOrderId
  {
    UpdateReadsBack(row, p);
  }

  /** Sending a link of 0 clears it. */
  lemma ZeroLinkClears(row: Row, p: TablePatch)
    requires TableRow(row)
    requires p.currentOrderId == Some(0)
    ensures TableRow(row + UpdateRow(p))
    ensures MapResponse(row + UpdateRow(p)).currentOrderId.None?
  {
    UpdateReadsBack(row, p);
  }

  /** Strictly ascending ids, every one of them defined. */
  predicate IdsAscending(ts: seq<BilliardTable>) {
    forall i, j :: 0 <= i < j < |ts| ==> ts[i].id.Some? && ts[j].id.Some? && ts[i].id.value < ts[j].id.value
  }

  /** The remote `billiard_tables` table. */
  class TableStore {
    var rows: map<int, Row>
    var nextId: int

    ghost predicate Valid()
      reads this
    {
      nextId > 0
      && forall k :: k in rows ==> 0 < k < nextId && TableRow(rows[k]) && Id in rows[k] && rows[k][Id] == Int(k)
    }

    constructor ()
      ensures Valid() && rows == map[] && nextId == 1
    {
      rows := map[];
      nextId := 1;
    }

    /** `data.map(mapResponse)` over the ids the server answered with, in its order. */
    function MapRows(listing: seq<int>): (r: seq<BilliardTable>)
      reads this
      requires Valid()
      requires forall i :: 0 <= i < |listing| ==> listing[i] in rows
      ensures |r| == |listing|
      ensures forall i :: 0 <= i < |listing| ==>
                TableRow(rows[listing[i]]) && r[i] == MapResponse(rows[listing[i]]) && r[i].id == Some(listing[i])
    {
      var rs := rows;
      assert forall i :: 0 <= i < |listing| ==> listing[i] in rs;
      assert forall k :: k in rs ==> TableRow(rs[k]) && ReadInt(rs[k], Id) == Some(k);
      assert forall i :: 0 <= i < |listing| ==> TableRow(rs[listing[i]]) && ReadInt(rs[listing[i]], Id) == Some(listing[i]);
      seq(|listing|, i requires 0 <= i < |listing| && listing[i] in rs && TableRow(rs[listing[i]]) =>
                       MapResponse(rs[listing[i]]))
    }

    /**
     * `getAll`: every table in id order. `listing` is the ids in the order
     * the server answers with: each row once, ascending.
     */
    method GetAll(listing: seq<int>, failure: Option<string>) returns (r: Result<seq<BilliardTable>>)
      requires Valid()
      requires forall i :: 0 <= i < |listing| ==> listing[i] in rows
      requires forall k :: k in rows ==> k in listing
      requires forall i, j :: 0 <= i < j < |listing| ==> listing[i] < listing[j]
      ensures failure.Some? ==> r == Err(failure.value)
      ensures failure.None? ==> r.Ok? && |r.value| == |rows|
      ensures failure.None? ==> forall i :: 0 <= i < |r.value| ==>
                r.value[i].id.Some? && r.value[i].id.value in rows && TableRow(rows[r.value[i].id.value])
                && r.value[i] == MapResponse(rows[r.value[i].id.value])
      ensures failure.None? ==> forall k :: k in rows ==> exists i :: 0 <= i < |r.value| && r.value[i].id == Some(k)
      ensures failure.None? ==> IdsAscending(r.value)
    {
      if failure.Some? {
        return Err(failure.value);
      }
      var tables := MapRows(listing);
      MapRowsCovers(listing);
      DistinctCoversKeys(listing);
      return Ok(tables);
    }

    /** Every row is among the mapped rows of a listing that names every key, and an ascending listing gives ascending ids. */
    lemma MapRowsCovers(listing: seq<int>)
      requires Valid()
      requires forall i :: 0 <= i < |listing| ==> listing[i] in rows
      requires forall k :: k in rows ==> k in listing
      requires forall i, j :: 0 <= i < j < |listing| ==> listing[i] < listing[j]
      ensures forall k :: k in rows ==> exists i :: 0 <= i < |MapRows(listing)| && MapRows(listing)[i].id == Some(k)
      ensures IdsAscending(MapRows(listing))
    {
      var tables := MapRows(listing);
      forall k | k in rows
        ensures exists i :: 0 <= i < |tables| && tables[i].id == Some(k)
      {
        var i :| 0 <= i < |listing| && listing[i] == k;
        assert tables[i].id == Some(k);
      }
    }

    /** An ascending listing of exactly the keys has one entry per row. */
    lemma DistinctCoversKeys(listing: seq<int>)
      requires forall i :: 0 <= i < |listing| ==> listing[i] in rows
      requires forall k :: k in rows ==> k in listing
      requires forall i, j :: 0 <= i < j < |listing| ==> listing[i] < listing[j]
      ensures |listing| == |rows|
    {
      var ks := set i | 0 <= i < |listing| :: listing[i];
      forall k | k in rows
        ensures k in ks
      {
        var i :| 0 <= i < |listing| && listing[i] == k;
      }
      assert ks == rows.Keys;
      DistinctCard(listing);
    }

    /** `getById`: the mapped row, or the error (`single()` reports a missing row as one). */
    method GetById(id: int, failure: Option<string>) returns (r: Result<BilliardTable>)
      requires Valid()
      ensures failure.Some? ==> r == Err(failure.value)
      ensures failure.None? && id in rows ==> r == Ok(MapResponse(rows[id])) && r.value.id == Some(id)
      ensures failure.None? && id !in rows ==> r.Err?
    {
      if failure.Some? {
        return Err(failure.value);
      }
      if id !in rows {
        return Err("no rows returned");
      }
      return Ok(MapResponse(rows[id]));
    }

    /** `update`: send the defined fields and return the updated row mapped back. */
    method Update(id: int, p: TablePatch, failure: Option<string>) returns (r: Result<BilliardTable>)
      requires Valid()
      modifies this
      ensures Valid() && nextId == old(nextId)
      ensures failure.Some? || id !in old(rows) ==> r.Err? && rows == old(rows)
      ensures failure.Some? ==> r == Err(failure.value)
      ensures failure.None? && id in old(rows) ==>
                rows == old(rows)[id := old(rows)[id] + UpdateRow(p)]
                && r == Ok(Patched(MapResponse(old(rows)[id]), p))
    {
      var dbTable := UpdateRow(p);
      if failure.Some? {
        return Err(failure.value);
      }
      if id !in rows {
        return Err("no rows returned");
      }
      UpdateReadsBack(rows[id], p);
      rows := rows[id := rows[id] + dbTable];
      return Ok(MapResponse(rows[id]));
    }

    /** `create`: insert the row under a fresh id and return it mapped back. */
    method Create(t: BilliardTable, failure: Option<string>) returns (r: Result<BilliardTable>)
      requires Valid()
      modifies this
      ensures Valid()
      ensures failure.Some? ==> r == Err(failure.value) && rows == old(rows) && nextId == old(nextId)
      ensures failure.None? ==>
                var id := old(nextId);
                id !in old(rows)
                && rows == old(rows)[id := CreateRow(t)[Id := Int(id)]]
                && r == Ok(t.(id := Some(id), currentOrderId := if Truthy(t.currentOrderId) then t.currentOrderId else None))
    {
      if failure.Some? {
        return Err(failure.value);
      }
      var id := nextId;
      var dbTable := CreateRow(t);
      CreateReadsBack(t, id);
      rows := rows[id := dbTable[Id := Int(id)]];
      nextId := nextId + 1;
      return Ok(MapResponse(rows[id]));
    }

    /** `delete`: remove the row and answer true; deleting a missing id is not an error. */
    method Delete(id: int, failure: Option<string>) returns (r: Result<bool>)
      requires Valid()
      modifies this
      ensures Valid() && nextId == old(nextId)
      ensures failure.Some? ==> r == Err(failure.value) && rows == old(rows)
      ensures failure.None? ==> r == Ok(true) && rows == old(rows) - {id}
    {
      if failure.Some? {
        return Err(failure.value);
      }
      rows := rows - {id};
      return Ok(true);
    }
  }

  /** A sequence without repeats has as many elements as the set of them. */
  lemma {:induction false} DistinctCard(s: seq<int>)
    requires forall i, j :: 0 <= i < j < |s| ==> s[i] < s[j]
    ensures |set i | 0 <= i < |s| :: s[i]| == |s|
    decreases |s|
  {
    if s != [] {
      var rest := s[..|s| - 1];
      DistinctCard(rest);
      var last := s[|s| - 1];
      var all := set i | 0 <= i < |s| :: s[i];
      var front := set i | 0 <= i < |rest| :: rest[i];
      assert all == front + {last};
      assert last !in front;
    }
  }
}
