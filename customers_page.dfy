/**
 * The customer management page: the customer table searched by name or
 * phone and shown newest first, and the save and delete buttons over the
 * local customer table.
 */
module CustomersPage {
  import opened Common
  import opened Text
  import opened Entities

  /** The search test: the lower-cased name contains the lower-cased term, or the phone contains the term as typed. */
  predicate MatchesSearch(c: Customer, term: string) {
    Contains(Lower(c.name), Lower(term)) || Contains(c.phone, term)
  }

  /** The customers a search keeps, in key order. */
  function Matching(customers: seq<Customer>, term: string): (r: seq<Customer>)
    ensures Subsequence(r, customers)
    ensures forall c :: c in customers ==> (c in r <==> term == "" || MatchesSearch(c, term))
  {
    if term != "" then Filter(customers, (c: Customer) => MatchesSearch(c, term))
    else SubsequenceSelf(customers); customers
  }

  /**
   * The list shown: `customers` is the customer table in key order; a
   * non-empty term keeps the matches, and the result is reversed so the
   * newest customer comes first.
   */
  function VisibleCustomers(customers: seq<Customer>, term: string): (r: seq<Customer>)
    ensures |r| == |Matching(customers, term)|
    ensures forall i :: 0 <= i < |r| ==> r[i] == Matching(customers, term)[|r| - 1 - i]
    ensures forall c :: c in customers ==> (c in r <==> term == "" || MatchesSearch(c, term))
  {
    var m := Matching(customers, term);
    var r := Reverse(m);
    assert forall c :: c in m ==> c in r by {
      forall c | c in m
        ensures c in r
      {
        var i :| 0 <= i < |m| && m[i] == c;
        assert r[|m| - 1 - i] == c;
      }
    }
    r
  }

  /** An empty search shows every customer, newest first. */
  lemma EmptySearchShowsAllReversed(customers: seq<Customer>)
    ensures VisibleCustomers(customers, "") == Reverse(customers)
  {
  }

  /** The page state over the local customer table. */
  class CustomersPage {
    var customers: map<int, Customer>
    var nextId: int
    /** The customer whose deletion waits for confirmation. */
    var deleting: Option<Customer>

    /** Keys are handed out from 1 upwards and each row carries its key as id. */
    ghost predicate Valid()
      reads this
    {
      nextId > 0 && forall k :: k in customers ==> 0 < k < nextId && customers[k].id == Some(k)
    }

    constructor (rows: map<int, Customer>, next: int)
      requires next > 0 && forall k :: k in rows ==> 0 < k < next && rows[k].id == Some(k)
      ensures Valid() && customers == rows && nextId == next && deleting == None
    {
      customers := rows;
      nextId := next;
      deleting := None;
    }

    /** The trash button: remember the customer until the deletion is confirmed. */
    method AskDelete(c: Customer)
      modifies this
      ensures deleting == Some(c) && customers == old(customers) && nextId == old(nextId)
    {
      deleting := Some(c);
    }

    /** `handleSave`: a customer with an id overwrites its row (a missing row is left alone); one without is added under a new key. */
    method HandleSave(data: Customer)
      requires Valid()
      modifies this
      ensures Valid() && deleting == old(deleting)
      ensures Truthy(data.id) ==> nextId == old(nextId)
                                  && customers == if data.id.value in old(customers) then old(customers)[data.id.value := data]
                                                  else old(customers)
      ensures !Truthy(data.id) ==> nextId == old(nextId) + 1 && old(nextId) !in old(customers)
                                   && customers == old(customers)[old(nextId) := data.(id := Some(old(nextId)))]
    {
      if Truthy(data.id) {
        if data.id.value in customers {
          customers := customers[data.id.value := data];
        }
      } else {
        var key := nextId;
        customers := customers[key := data.(id := Some(key))];
        nextId := nextId + 1;
      }
    }

    /**
     * `handleDelete`: only a pending customer with an id is deleted; when
     * the store reports an error (`failed`) nothing changes and the
     * customer stays pending, otherwise nothing is pending any more.
     */
    method HandleDelete(failed: bool)
      requires Valid()
      modifies this
      ensures Valid() && nextId == old(nextId)
      ensures old(deleting).Some? && Truthy(old(deleting).value.id) && !failed ==>
                customers == old(customers) - {old(deleting).value.id.value} && deleting == None
      ensures !(old(deleting).Some? && Truthy(old(deleting).value.id)) || failed ==>
                customers == old(customers) && deleting == old(deleting)
    {
      if deleting.Some? && Truthy(deleting.value.id) {
        if failed {
          return;
        }
        customers := customers - {deleting.value.id.value};
        deleting := None;
      }
    }
  }
}
