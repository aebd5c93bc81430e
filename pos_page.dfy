/**
 * The point-of-sale page: editing the list of order notes, the two badges
 * (items in the cart, non-blank notes), and the session clock.
 */
module PosPage {
  import opened Common
  import opened Text
  import opened Entities
  import opened CartStore

  /** The notes the editor shows: one empty note when there are none. */
  function NotesList(notes: seq<string>): (r: seq<string>)
    ensures |r| >= 1
    ensures notes != [] ==> r == notes
    ensures notes == [] ==> r == [""]
  {
    if |notes| > 0 then notes else [""]
  }

  /** The notes after the one at `index` is removed: all of them when only one is shown. */
  function RemovedNote(notes: seq<string>, index: int): (r: seq<string>)
    requires 0 <= index < |NotesList(notes)|
    ensures |NotesList(notes)| <= 1 ==> r == []
    ensures |NotesList(notes)| > 1 ==>
              |r| == |notes| - 1
              && (forall j :: 0 <= j < index ==> r[j] == notes[j])
              && (forall j :: index <= j < |r| ==> r[j] == notes[j + 1])
  {
    if |NotesList(notes)| <= 1 then [] else notes[..index] + notes[index + 1..]
  }

  /** Removing a note keeps the others in their order. */
  lemma {:induction false} RemovedNoteKeepsOrder(notes: seq<string>, index: int)
    requires 0 <= index < |NotesList(notes)|
    ensures Subsequence(RemovedNote(notes, index), notes)
  {
    if |NotesList(notes)| > 1 {
      PrefixSkip(notes, index);
    }
  }

  /** Dropping the element at `index` leaves a subsequence. */
  lemma {:induction false} PrefixSkip<T>(s: seq<T>, index: int)
    requires 0 <= index < |s|
    ensures Subsequence(s[..index] + s[index + 1..], s)
    decreases index
  {
    if index == 0 {
      assert s[..0] + s[1..] == s[1..];
      SubsequenceSelf(s[1..]);
    } else {
      PrefixSkip(s[1..], index - 1);
      assert (s[..index] + s[index + 1..])[1..] == s[1..][..index - 1] + s[1..][index..];
    }
  }

  /** Editing note `index` in the note dialog: the list shown, with that note replaced. */
  method HandleUpdateNote(s: Store, index: int, value: string)
    requires 0 <= index < |NotesList(s.notes)|
    modifies s
    ensures s.notes == NotesList(old(s.notes))[index := value]
    ensures |s.notes| == |NotesList(old(s.notes))| && s.notes[index] == value
    ensures s.items == old(s.items) && s.activeTableId == old(s.activeTableId) && s.isTableOccupied == old(s.isTableOccupied)
    ensures s.customerId == old(s.customerId) && s.tables == old(s.tables) && s.orders == old(s.orders)
    ensures s.customers == old(s.customers) && s.nextOrderId == old(s.nextOrderId)
    ensures old(s.Valid()) ==> s.Valid()
  {
    var base := if |s.notes| > 0 then s.notes else [""];
    var newNotes := new string[|base|](j requires 0 <= j < |base| => base[j]);
    newNotes[index] := value;
    s.SetNotes(newNotes[..]);
  }

  /** Adding a note field: one more, empty, at the end. */
  method HandleAddNoteField(s: Store)
    modifies s
    ensures s.notes == NotesList(old(s.notes)) + [""]
    ensures |s.notes| == Max(|old(s.notes)|, 1) + 1
    ensures s.items == old(s.items) && s.activeTableId == old(s.activeTableId) && s.isTableOccupied == old(s.isTableOccupied)
    ensures s.customerId == old(s.customerId) && s.tables == old(s.tables) && s.orders == old(s.orders)
    ensures s.customers == old(s.customers) && s.nextOrderId == old(s.nextOrderId)
    ensures old(s.Valid()) ==> s.Valid()
  {
    var newNotes := if |s.notes| > 0 then s.notes else [""];
    s.SetNotes(newNotes + [""]);
  }

  /** Removing note `index`. */
  method HandleRemoveNote(s: Store, index: int)
    requires 0 <= index < |NotesList(s.notes)|
    modifies s
    ensures s.notes == RemovedNote(old(s.notes), index)
    ensures s.items == old(s.items) && s.activeTableId == old(s.activeTableId) && s.isTableOccupied == old(s.isTableOccupied)
    ensures s.customerId == old(s.customerId) && s.tables == old(s.tables) && s.orders == old(s.orders)
    ensures s.customers == old(s.customers) && s.nextOrderId == old(s.nextOrderId)
    ensures old(s.Valid()) ==> s.Valid()
  {
    if |NotesList(s.notes)| <= 1 {
      s.SetNotes([]);
      return;
    }
    var newNotes := s.notes;
    newNotes := newNotes[..index] + newNotes[index + 1..];
    s.SetNotes(newNotes);
  }

  /** The cart badge: the quantities summed over the lines, at least one per line when every quantity is positive. */
  function ItemCount(items: seq<CartItem>): (n: int)
    ensures (forall i :: 0 <= i < |items| ==> items[i].quantity > 0) ==> n >= |items|
    decreases |items|
  {
    if items == [] then 0 else items[0].quantity + ItemCount(items[1..])
  }

  /** Changing line k alone moves the count by the difference in that line's quantity. */
  lemma {:induction false} ItemCountUpdateAt(items: seq<CartItem>, r: seq<CartItem>, k: int)
    requires 0 <= k < |items| == |r|
    requires forall i :: 0 <= i < |items| && i != k ==> r[i] == items[i]
    ensures ItemCount(r) == ItemCount(items) - items[k].quantity + r[k].quantity
    decreases |items|
  {
    if k > 0 {
      ItemCountUpdateAt(items[1..], r[1..], k - 1);
    } else {
      assert r[1..] == items[1..];
    }
  }

  lemma {:induction false} ItemCountAppend(a: seq<CartItem>, b: seq<CartItem>)
    ensures ItemCount(a + b) == ItemCount(a) + ItemCount(b)
    decreases |a|
  {
    if a == [] {
      assert a + b == b;
    } else {
      assert (a + b)[1..] == a[1..] + b;
      ItemCountAppend(a[1..], b);
    }
  }

  /** Adding a product to a cart with distinct ids raises the badge by exactly one. */
  lemma AddRaisesItemCount(items: seq<CartItem>, p: Product)
    requires DistinctIds(items)
    ensures ItemCount(AddedToCart(items, p)) == ItemCount(items) + 1
  {
    var r := AddedToCart(items, p);
    if HasProduct(items, p.id) {
      var k :| 0 <= k < |items| && items[k].product.id == p.id;
      forall i | 0 <= i < |items| && i != k
        ensures r[i] == items[i]
      {
        if i < k {
          assert items[i].product.id != items[k].product.id;
        } else {
          assert items[k].product.id != items[i].product.id;
        }
      }
      ItemCountUpdateAt(items, r, k);
    } else {
      ItemCountAppend(items, [CartItem(p, 1)]);
    }
  }

  /** A note counts for the badge when it is not blank after trimming. */
  predicate Filled(n: string) {
    Trim(n) != ""
  }

  /**
   * The note badge: hidden (`None`) unless some note is filled, and then the
   * number of filled notes.
   */
  function NoteBadge(notes: seq<string>): (b: Option<nat>)
    ensures b.Some? <==> exists i :: 0 <= i < |notes| && !Blank(notes[i])
    ensures b.Some? ==> 1 <= b.value <= |notes|
    ensures b.Some? <==> FilledCount(notes) > 0
    ensures b.Some? ==> b.value == FilledCount(notes)
  {
    var filled := Filter(notes, Filled);
    FilterFilledCount(notes);
    if |notes| > 0 && |filled| > 0 then
      assert filled[0] in notes && Filled(filled[0]);
      Some(|filled|)
    else
      assert forall i :: 0 <= i < |notes| && !Blank(notes[i]) ==> notes[i] in filled;
      None
  }

  /** The number of notes that are not blank, counted one note at a time. */
  function FilledCount(notes: seq<string>): nat
    decreases |notes|
  {
    if notes == [] then 0 else (if Filled(notes[0]) then 1 else 0) + FilledCount(notes[1..])
  }

  /** Filtering the filled notes keeps exactly as many notes as the count. */
  lemma {:induction false} FilterFilledCount(notes: seq<string>)
    ensures |Filter(notes, Filled)| == FilledCount(notes)
    decreases |notes|
  {
    if notes != [] {
      FilterFilledCount(notes[1..]);
    }
  }

  /** Adding a filled note raises the badge by one; adding a blank one leaves it as it was. */
  lemma NoteBadgeAppend(notes: seq<string>, n: string)
    ensures Filled(n) ==> NoteBadge(notes + [n]) == Some(FilledCount(notes) + 1)
    ensures !Filled(n) ==> NoteBadge(notes + [n]) == NoteBadge(notes)
    decreases |notes|
  {
    FilledCountAppend(notes, n);
  }

  lemma {:induction false} FilledCountAppend(notes: seq<string>, n: string)
    ensures FilledCount(notes + [n]) == FilledCount(notes) + (if Filled(n) then 1 else 0)
    decreases |notes|
  {
    if notes == [] {
      assert notes + [n] == [n];
    } else {
      assert (notes + [n])[1..] == notes[1..] + [n];
      FilledCountAppend(notes[1..], n);
    }
  }
}
