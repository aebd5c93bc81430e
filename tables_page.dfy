/**
 * The table management page: the tables searched by name, and the save
 * and delete buttons, which go through the table service.
 */
module TablesPage {
  import opened Common
  import opened Text
  import opened Entities
  import opened Rows
  import opened TableService

  /** The search test: the lower-cased name contains the lower-cased query (the query itself is not trimmed). */
  predicate NameMatches(t: BilliardTable, query: string) {
    Contains(Lower(t.name), Lower(query))
  }

  /**
   * The list shown: nothing before the tables load, every table when the
   * query is blank, and otherwise the tables whose name matches, in order.
   */
  function VisibleTables(allTables: Option<seq<BilliardTable>>, query: string): (r: seq<BilliardTable>)
    ensures allTables.None? ==> r == []
    ensures allTables.Some? && Blank(query) ==> r == allTables.value
    ensures allTables.Some? && !Blank(query) ==>
              Subsequence(r, allTables.value)
              && forall t :: t in allTables.value ==> (t in r <==> NameMatches(t, query))
  {
    if allTables.None? then []
    else if Trim(query) == "" then allTables.value
    else Filter(allTables.value, (t: BilliardTable) => NameMatches(t, query))
  }

  /** A query of spaces only shows every table, the same as an empty one. */
  lemma SpacesShowAll(tables: seq<BilliardTable>)
    ensures VisibleTables(Some(tables), "   ") == VisibleTables(Some(tables), "") == tables
  {
    assert Blank("   ") by {
      assert IsSpace(' ');
    }
    assert Blank("");
  }

  /** The fields a save sends: the name and status always, the rate and the link as they are. */
  function SavePatch(data: BilliardTable): (p: TablePatch)
    ensures p.name == Some(data.name) && p.status == Some(data.status)
    ensures p.pricePerHour == data.pricePerHour && p.currentOrderId == data.currentOrderId
  {
    TablePatch(Some(data.name), Some(data.status), data.pricePerHour, data.currentOrderId)
  }

  /**
   * `handleSave`: a table with an id is updated through the service, one
   * without is created. `failure` is the error the service may report.
   */
  method HandleSave(store: TableStore, data: BilliardTable, failure: Option<string>) returns (r: Result<BilliardTable>)
    requires store.Valid()
    modifies store
    ensures store.Valid()
    ensures failure.Some? ==> r == Err(failure.value) && store.rows == old(store.rows)
    ensures failure.None? && Truthy(data.id) && data.id.value in old(store.rows) ==>
              store.rows == old(store.rows)[data.id.value := old(store.rows)[data.id.value] + UpdateRow(SavePatch(data))]
              && r == Ok(Patched(MapResponse(old(store.rows)[data.id.value]), SavePatch(data)))
              && r.value.id == Some(data.id.value)
              && r.value.name == data.name && r.value.status == data.status
    ensures failure.None? && Truthy(data.id) && data.id.value !in old(store.rows) ==>
              r.Err? && store.rows == old(store.rows)
    ensures failure.None? && !Truthy(data.id) ==>
              var id := old(store.nextId);
              store.rows == old(store.rows)[id := CreateRow(data)[Column.Id := Int(id)]]
              && r.Ok? && r.value.id == Some(id)
  {
    if Truthy(data.id) {
      r := store.Update(data.id.value, SavePatch(data), failure);
    } else {
      r := store.Create(data, failure);
    }
  }

  /** The page's pending deletion. */
  class TablesPage {
    var deleting: Option<BilliardTable>

    constructor ()
      ensures deleting == None
    {
      deleting := None;
    }

    /**
     * `handleDelete`: only a pending table with an id is deleted through the
     * service; on success nothing is pending any more, on an error the table
     * stays pending.
     */
    method HandleDelete(store: TableStore, failure: Option<string>)
      requires store.Valid()
      modifies this, store
      ensures store.Valid()
      ensures old(deleting).Some? && Truthy(old(deleting).value.id) && failure.None? ==>
                store.rows == old(store.rows) - {old(deleting).value.id.value} && deleting == None
      ensures !(old(deleting).Some? && Truthy(old(deleting).value.id)) || failure.Some? ==>
                store.rows == old(store.rows) && deleting == old(deleting)
    {
      if deleting.Some? && Truthy(deleting.value.id) {
        var r := store.Delete(deleting.value.id.value, failure);
        if r.Ok? {
          deleting := None;
        }
      }
    }
  }
}
