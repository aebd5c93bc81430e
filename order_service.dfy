/**
 * The order service over the remote `orders` table: the camelCase record
 * is written under snake_case columns, a note list is stored as one text
 * joined with newlines, an update sends only the fields it is given, and
 * every row read back is mapped to a record again.
 */
module OrderService {
  import opened Common
  import opened Entities
  import opened Text
  import opened Rows

  datatype Column =
    | Id | Date | Total | Items | PaymentMethodColumn | Status | TableId | CustomerId
    | Discount | NoteColumn | CustomTableFee | CustomItemsTotal | CustomDuration | PricePerHour

  /** The column names of the `orders` table. */
  function ColumnName(c: Column): string {
    match c
    case Id => "id"
    case Date => "date"
    case Total => "total"
    case Items => "items"
    case PaymentMethodColumn => "payment_method"
    case Status => "status"
    case TableId => "table_id"
    case CustomerId => "customer_id"
    case Discount => "discount"
    case NoteColumn => "note"
    case CustomTableFee => "custom_table_fee"
    case CustomItemsTotal => "custom_items_total"
    case CustomDuration => "custom_duration"
    case PricePerHour => "price_per_hour"
  }

  type Row = map<Column, Value>

  /** How a note is stored: a list is joined with newlines, a text is kept. */
  function StoredNote(n: Note): (t: string)
    ensures n.NoteText? ==> t == n.text
    ensures n.NoteList? ==> t == JoinLines(n.lines)
  {
    match n
    case NoteText(t) => t
    case NoteList(xs) => JoinLines(xs)
  }

  function NoteValue(n: Option<Note>): (v: Option<Value>)
    ensures v.Some? <==> n.Some?
  {
    if n.Some? then Some(Text(StoredNote(n.value))) else None
  }

  function MethodValue(m: Option<PaymentMethod>): (v: Option<Value>)
    ensures v.Some? <==> m.Some?
  {
    if m.Some? then Some(Text(MethodName(m.value))) else None
  }

  const AllColumns: set<Column> :=
    {Id, Date, Total, Items, PaymentMethodColumn, Status, TableId, CustomerId,
     Discount, NoteColumn, CustomTableFee, CustomItemsTotal, CustomDuration, PricePerHour}

  lemma AllColumnsComplete(c: Column)
    ensures c in AllColumns
  {
    match c
    case Id =>
    case Date =>
    case Total =>
    case Items =>
    case PaymentMethodColumn =>
    case Status =>
    case TableId =>
    case CustomerId =>
    case Discount =>
    case NoteColumn =>
    case CustomTableFee =>
    case CustomItemsTotal =>
    case CustomDuration =>
    case PricePerHour =>
  }

  /** What `create` sends in column `c`; `None` when the field is undefined. */
  function CreateValue(o: Order, c: Column): Option<Value> {
    match c
    case Id => None
    case Date => Some(Int(o.date))
    case Total => Some(Num(o.total))
    case Items => Some(Lines(o.items))
    case PaymentMethodColumn => MethodValue(o.paymentMethod)
    case Status => Some(Text(StatusName(o.status)))
    case TableId => IntValue(o.tableId)
    case CustomerId => IntValue(o.customerId)
    case Discount => NumValue(o.discount)
    case NoteColumn => NoteValue(o.note)
    case CustomTableFee => NumValue(o.customTableFee)
    case CustomItemsTotal => NumValue(o.customItemsTotal)
    case CustomDuration => IntValue(o.customDuration)
    case PricePerHour => IntValue(o.pricePerHour)
  }

  /** The row `create` inserts: every defined field under its column, and no id. */
  function CreateRow(o: Order): (r: Row)
    ensures Id !in r
  {
    map c | c in AllColumns && CreateValue(o, c).Some? :: CreateValue(o, c).value
  }

  /** The inserted row has the date, total, items and status columns, and each optional column exactly when its field is defined. */
  lemma CreateRowColumns(o: Order)
    ensures var r := CreateRow(o);
            Date in r && Total in r && Items in r && Status in r
            && (PaymentMethodColumn in r <==> o.paymentMethod.Some?)
            && (TableId in r <==> o.tableId.Some?)
            && (CustomerId in r <==> o.customerId.Some?)
            && (Discount in r <==> o.discount.Some?)
            && (NoteColumn in r <==> o.note.Some?)
            && (CustomTableFee in r <==> o.customTableFee.Some?)
            && (CustomItemsTotal in r <==> o.customItemsTotal.Some?)
            && (CustomDuration in r <==> o.customDuration.Some?)
            && (PricePerHour in r <==> o.pricePerHour.Some?)
  {
    CreateRowAt(o, Date); CreateRowAt(o, Total); CreateRowAt(o, Items); CreateRowAt(o, Status);
    CreateRowAt(o, PaymentMethodColumn); CreateRowAt(o, TableId); CreateRowAt(o, CustomerId);
    CreateRowAt(o, Discount); CreateRowAt(o, NoteColumn); CreateRowAt(o, CustomTableFee);
    CreateRowAt(o, CustomItemsTotal); CreateRowAt(o, CustomDuration); CreateRowAt(o, PricePerHour);
  }

  /** Column by column, the inserted row holds exactly what `create` sends. */
  lemma CreateRowAt(o: Order, c: Column)
    ensures c in CreateRow(o) <==> CreateValue(o, c).Some?
    ensures c in CreateRow(o) ==> CreateRow(o)[c] == CreateValue(o, c).value
  {
    AllColumnsComplete(c);
  }

  /** A row `mapResponse` can read: the required columns hold values of their kind. */
  ghost predicate OrderRow(row: Row) {
    Date in row && row[Date].Int?
    && Total in row && row[Total].Num?
    && Items in row && row[Items].Lines?
    && Status in row && row[Status].Text? && ParseStatus(row[Status].s).Some?
  }

  function ReadMethod(row: Row): Option<PaymentMethod> {
    if PaymentMethodColumn in row && row[PaymentMethodColumn].Text? then ParseMethod(row[PaymentMethodColumn].s) else None
  }

  function ReadNote(row: Row): Option<Note> {
    if NoteColumn in row && row[NoteColumn].Text? then Some(Note.NoteText(row[NoteColumn].s)) else None
  }

  /** `mapResponse`: the record a row reads back as; a note always reads back as one text. */
  function MapResponse(row: Row): (o: Order)
    requires OrderRow(row)
    ensures o.note.Some? ==> o.note.value.NoteText?
    ensures o.date == row[Date].i && o.total == row[Total].r && o.items == row[Items].lines
  {
    Order(ReadInt(row, Id), row[Date].i, row[Total].r, row[Items].lines, ReadMethod(row),
          ParseStatus(row[Status].s).value, ReadInt(row, TableId), ReadInt(row, CustomerId), ReadNote(row),
          ReadNum(row, Discount), ReadNum(row, CustomTableFee), ReadNum(row, CustomItemsTotal),
          ReadInt(row, CustomDuration), ReadInt(row, PricePerHour))
  }

  /** Every column of the inserted row, as `create` sends it. */
  lemma CreateRowAll(o: Order)
    ensures forall c :: c in CreateRow(o) <==> CreateValue(o, c).Some?
    ensures forall c :: c in CreateRow(o) ==> CreateRow(o)[c] == CreateValue(o, c).value
  {
    forall c
      ensures c in CreateRow(o) <==> CreateValue(o, c).Some?
      ensures c in CreateRow(o) ==> CreateRow(o)[c] == CreateValue(o, c).value
    {
      CreateRowAt(o, c);
    }
  }

  /** The record read back from an inserted row: every field but the note is the one sent. */
  lemma CreateReadsBack(o: Order, id: int)
    ensures OrderRow(CreateRow(o)[Id := Int(id)])
    ensures var back := MapResponse(CreateRow(o)[Id := Int(id)]);
            back == o.(id := Some(id), note := back.note)
            && (o.note.None? <==> back.note.None?)
            && (o.note.Some? ==> back.note == Some(Note.NoteText(StoredNote(o.note.value))))
  {
    CreateReadsFixed(o, id);
    CreateReadsOptional(o, id);
  }

  /** The inserted row is well formed, and its id, date, total, items, status, method and note read back. */
  lemma CreateReadsFixed(o: Order, id: int)
    ensures OrderRow(CreateRow(o)[Id := Int(id)])
    ensures var back := MapResponse(CreateRow(o)[Id := Int(id)]);
            back.id == Some(id) && back.date == o.date && back.total == o.total && back.items == o.items
            && back.status == o.status && back.paymentMethod == o.paymentMethod
            && (o.note.None? <==> back.note.None?)
            && (o.note.Some? ==> back.note == Some(Note.NoteText(StoredNote(o.note.value))))
  {
    assert CreateValue(o, Date) == Some(Int(o.date));
    assert CreateValue(o, Total) == Some(Num(o.total));
    assert CreateValue(o, Items) == Some(Lines(o.items));
    assert CreateValue(o, Status) == Some(Text(StatusName(o.status)));
    assert CreateValue(o, PaymentMethodColumn) == MethodValue(o.paymentMethod);
    assert CreateValue(o, NoteColumn) == NoteValue(o.note);
    CreateFixedColumns(o, id);
    CreateAt(o, id, PaymentMethodColumn);
    CreateAt(o, id, NoteColumn);
    StatusNameRoundTrip(o.status);
    if o.paymentMethod.Some? {
      MethodNameRoundTrip(o.paymentMethod.value);
    }
    var row := CreateRow(o)[Id := Int(id)];
    assert ReadMethod(row) == o.paymentMethod;
    assert OrderRow(row);
  }

  /** The optional links and amounts of the inserted row read back as sent. */
  lemma CreateReadsOptional(o: Order, id: int)
    ensures var row := CreateRow(o)[Id := Int(id)];
            ReadInt(row, TableId) == o.tableId && ReadInt(row, CustomerId) == o.customerId
            && ReadNum(row, Discount) == o.discount && ReadNum(row, CustomTableFee) == o.customTableFee
            && ReadNum(row, CustomItemsTotal) == o.customItemsTotal && ReadInt(row, CustomDuration) == o.customDuration
            && ReadInt(row, PricePerHour) == o.pricePerHour
  {
    assert CreateValue(o, TableId) == IntValue(o.tableId);
    assert CreateValue(o, CustomerId) == IntValue(o.customerId);
    assert CreateValue(o, CustomDuration) == IntValue(o.customDuration);
    assert CreateValue(o, PricePerHour) == IntValue(o.pricePerHour);
    assert CreateValue(o, Discount) == NumValue(o.discount);
    assert CreateValue(o, CustomTableFee) == NumValue(o.customTableFee);
    assert CreateValue(o, CustomItemsTotal) == NumValue(o.customItemsTotal);
    CreateIntAt(o, id, TableId, o.tableId);
    CreateIntAt(o, id, CustomerId, o.customerId);
    CreateIntAt(o, id, CustomDuration, o.customDuration);
    CreateIntAt(o, id, PricePerHour, o.pricePerHour);
    CreateNumAt(o, id, Discount, o.discount);
    CreateNumAt(o, id, CustomTableFee, o.customTableFee);
    CreateNumAt(o, id, CustomItemsTotal, o.customItemsTotal);
  }

  /** A column of the inserted row other than the id holds what `create` sends for it. */
  lemma CreateAt(o: Order, id: int, c: Column)
    requires c != Id
    ensures var row := CreateRow(o)[Id := Int(id)];
            (c in row <==> CreateValue(o, c).Some?) && (c in row ==> row[c] == CreateValue(o, c).value)
  {
    CreateRowAt(o, c);
  }

  /** The date, total, items and status columns are always sent. */
  lemma CreateFixedColumns(o: Order, id: int)
    ensures var row := CreateRow(o)[Id := Int(id)];
            Id in row && row[Id] == Int(id)
            && Date in row && row[Date] == Int(o.date) && Total in row && row[Total] == Num(o.total)
            && Items in row && row[Items] == Lines(o.items) && Status in row && row[Status] == Text(StatusName(o.status))
  {
    CreateAt(o, id, Date); CreateAt(o, id, Total); CreateAt(o, id, Items); CreateAt(o, id, Status);
  }

  lemma CreateIntAt(o: Order, id: int, c: Column, v: Option<int>)
    requires c != Id && CreateValue(o, c) == IntValue(v)
    ensures ReadInt(CreateRow(o)[Id := Int(id)], c) == v
  {
    CreateAt(o, id, c);
  }

  lemma CreateNumAt(o: Order, id: int, c: Column, v: Option<real>)
    requires c != Id && CreateValue(o, c) == NumValue(v)
    ensures ReadNum(CreateRow(o)[Id := Int(id)], c) == v
  {
    CreateAt(o, id, c);
  }

  /** An order whose note is absent or a text comes back from `create` exactly as sent, with its new id. */
  lemma CreateRoundTrip(o: Order, id: int)
    requires o.note.None? || o.note.value.NoteText?
    ensures OrderRow(CreateRow(o)[Id := Int(id)])
    ensures MapResponse(CreateRow(o)[Id := Int(id)]) == o.(id := Some(id))
  {
    CreateReadsBack(o, id);
  }

  /** A note list comes back as its joined text, which splits back into the same notes. */
  lemma CreateNoteList(o: Order, id: int)
    requires o.note.Some? && o.note.value.NoteList?
    requires |o.note.value.lines| >= 1
    requires forall i :: 0 <= i < |o.note.value.lines| ==> '\n' !in o.note.value.lines[i]
    ensures OrderRow(CreateRow(o)[Id := Int(id)])
    ensures var back := MapResponse(CreateRow(o)[Id := Int(id)]);
            back == o.(id := Some(id), note := Some(Note.NoteText(JoinLines(o.note.value.lines))))
            && SplitLines(back.note.value.text) == o.note.value.lines
  {
    CreateReadsBack(o, id);
    SplitJoinLines(o.note.value.lines);
  }

  /** `Partial<Order>`: `None` is a field left undefined. */
  datatype OrderPatch = OrderPatch(
    id: Option<int>,
    date: Option<int>,
    total: Option<real>,
    items: Option<seq<OrderLine>>,
    paymentMethod: Option<PaymentMethod>,
    status: Option<OrderStatus>,
    tableId: Option<int>,
    customerId: Option<int>,
    note: Option<Note>,
    discount: Option<real>,
    customTableFee: Option<real>,
    customItemsTotal: Option<real>,
    customDuration: Option<int>,
    pricePerHour: Option<int>)

  /** What `update` sends in column `c`; `None` when the field is undefined or never sent. */
  function UpdateValue(p: OrderPatch, c: Column): Option<Value> {
    match c
    case Id => None
    case Date => None
    case PricePerHour => None
    case Total => NumValue(p.total)
    case Items => if p.items.Some? then Some(Lines(p.items.value)) else None
    case PaymentMethodColumn => MethodValue(p.paymentMethod)
    case Status => if p.status.Some? then Some(Text(StatusName(p.status.value))) else None
    case TableId => IntValue(p.tableId)
    case CustomerId => IntValue(p.customerId)
    case Discount => NumValue(p.discount)
    case NoteColumn => NoteValue(p.note)
    case CustomTableFee => NumValue(p.customTableFee)
    case CustomItemsTotal => NumValue(p.customItemsTotal)
    case CustomDuration => IntValue(p.customDuration)
  }

  /** The row `update` sends: one column per defined field, and never the id, date or rate. */
  function UpdateRow(p: OrderPatch): (r: Row)
    ensures Id !in r
  {
    map c | c in AllColumns && UpdateValue(p, c).Some? :: UpdateValue(p, c).value
  }

  /** The update row never holds the id, date or rate, and holds each other column exactly when the patch defines it. */
  lemma UpdateRowColumns(p: OrderPatch)
    ensures var r := UpdateRow(p);
            Id !in r && Date !in r && PricePerHour !in r
            && (Total in r <==> p.total.Some?)
            && (Items in r <==> p.items.Some?)
            && (PaymentMethodColumn in r <==> p.paymentMethod.Some?)
            && (Status in r <==> p.status.Some?)
            && (TableId in r <==> p.tableId.Some?)
            && (CustomerId in r <==> p.customerId.Some?)
            && (Discount in r <==> p.discount.Some?)
            && (NoteColumn in r <==> p.note.Some?)
            && (CustomTableFee in r <==> p.customTableFee.Some?)
            && (CustomItemsTotal in r <==> p.customItemsTotal.Some?)
            && (CustomDuration in r <==> p.customDuration.Some?)
  {
    UpdateRowAt(p, Id); UpdateRowAt(p, Date); UpdateRowAt(p, PricePerHour);
    UpdateRowAt(p, Total); UpdateRowAt(p, Items); UpdateRowAt(p, PaymentMethodColumn);
    UpdateRowAt(p, Status); UpdateRowAt(p, TableId); UpdateRowAt(p, CustomerId);
    UpdateRowAt(p, Discount); UpdateRowAt(p, NoteColumn); UpdateRowAt(p, CustomTableFee);
    UpdateRowAt(p, CustomItemsTotal); UpdateRowAt(p, CustomDuration);
  }

  /** Column by column, the update row holds exactly what `update` sends. */
  lemma UpdateRowAt(p: OrderPatch, c: Column)
    ensures c in UpdateRow(p) <==> UpdateValue(p, c).Some?
    ensures c in UpdateRow(p) ==> UpdateRow(p)[c] == UpdateValue(p, c).value
  {
    AllColumnsComplete(c);
  }

  /** What an update does to the record: defined fields replace, the others stay; id, date and rate never change. */
  function Patched(o: Order, p: OrderPatch): (r: Order)
    ensures r.id == o.id && r.date == o.date && r.pricePerHour == o.pricePerHour
  {
    o.(total := OrElse(p.total, o.total),
       items := OrElse(p.items, o.items),
       paymentMethod := if p.paymentMethod.Some? then p.paymentMethod else o.paymentMethod,
       status := OrElse(p.status, o.status),
       tableId := if p.tableId.Some? then p.tableId else o.tableId,
       customerId := if p.customerId.Some? then p.customerId else o.customerId,
       note := if p.note.Some? then Some(Note.NoteText(StoredNote(p.note.value))) else o.note,
       discount := if p.discount.Some? then p.discount else o.discount,
       customTableFee := if p.customTableFee.Some? then p.customTableFee else o.customTableFee,
       customItemsTotal := if p.customItemsTotal.Some? then p.customItemsTotal else o.customItemsTotal,
       customDuration := if p.customDuration.Some? then p.customDuration else o.customDuration)
  }

  lemma UpdateKeepsOrderRow(row: Row, p: OrderPatch)
    requires OrderRow(row)
    ensures OrderRow(row + UpdateRow(p))
    ensures var back, before := MapResponse(row + UpdateRow(p)), MapResponse(row);
            back.id == before.id && back.date == before.date && back.pricePerHour == before.pricePerHour
            && back.total == OrElse(p.total, before.total)
            && back.items == OrElse(p.items, before.items)
            && back.status == OrElse(p.status, before.status)
  {
    assert UpdateValue(p, Id) == None && UpdateValue(p, Date) == None && UpdateValue(p, PricePerHour) == None;
    assert UpdateValue(p, Total) == NumValue(p.total);
    assert UpdateValue(p, Items) == if p.items.Some? then Some(Lines(p.items.value)) else None;
    assert UpdateValue(p, Status) == if p.status.Some? then Some(Text(StatusName(p.status.value))) else None;
    UpdateAt(row, p, Id); UpdateAt(row, p, Date); UpdateAt(row, p, PricePerHour);
    UpdateAt(row, p, Total); UpdateAt(row, p, Items); UpdateAt(row, p, Status);
    if p.status.Some? {
      StatusNameRoundTrip(p.status.value);
    }
    var m := row + UpdateRow(p);
    assert OrderRow(m);
    assert MapResponse(m).status == ParseStatus(m[Status].s).value;
  }

  /** A column of the merged row: the update's value where it sends one, the old row's otherwise. */
  lemma UpdateAt(row: Row, p: OrderPatch, c: Column)
    ensures var m := row + UpdateRow(p);
            if UpdateValue(p, c).Some? then c in m && m[c] == UpdateValue(p, c).value
            else (c in m <==> c in row) && (c in row ==> m[c] == row[c])
  {
    UpdateRowAt(p, c);
  }

  lemma UpdateReadsIds(row: Row, p: OrderPatch)
    requires OrderRow(row)
    ensures OrderRow(row + UpdateRow(p))
    ensures var back, before := MapResponse(row + UpdateRow(p)), MapResponse(row);
            back.paymentMethod == (if p.paymentMethod.Some? then p.paymentMethod else before.paymentMethod)
            && back.tableId == (if p.tableId.Some? then p.tableId else before.tableId)
            && back.customerId == (if p.customerId.Some? then p.customerId else before.customerId)
            && back.note == (if p.note.Some? then Some(Note.NoteText(StoredNote(p.note.value))) else before.note)
  {
    assert UpdateValue(p, PaymentMethodColumn) == MethodValue(p.paymentMethod);
    assert UpdateValue(p, NoteColumn) == NoteValue(p.note);
    assert UpdateValue(p, TableId) == IntValue(p.tableId);
    assert UpdateValue(p, CustomerId) == IntValue(p.customerId);
    UpdateAt(row, p, PaymentMethodColumn);
    UpdateAt(row, p, NoteColumn);
    UpdateIntAt(row, p, TableId, p.tableId);
    UpdateIntAt(row, p, CustomerId, p.customerId);
    if p.paymentMethod.Some? {
      MethodNameRoundTrip(p.paymentMethod.value);
    }
    var m := row + UpdateRow(p);
    assert ReadMethod(m) == (if p.paymentMethod.Some? then p.paymentMethod else ReadMethod(row));
    assert ReadNote(m) == (if p.note.Some? then Some(Note.NoteText(StoredNote(p.note.value))) else ReadNote(row));
    UpdateKeepsOrderRow(row, p);
    assert MapResponse(m).paymentMethod == ReadMethod(m);
    assert MapResponse(m).note == ReadNote(m);
    assert MapResponse(m).tableId == ReadInt(m, TableId);
    assert MapResponse(m).customerId == ReadInt(m, CustomerId);
  }

  /** A numeric column of the update row reads back as the patch field it was sent from. */
  lemma UpdateNumAt(row: Row, p: OrderPatch, c: Column, o: Option<real>)
    requires UpdateValue(p, c) == NumValue(o)
    ensures ReadNum(row + UpdateRow(p), c) == if o.Some? then o else ReadNum(row, c)
  {
    UpdateRowAt(p, c);
    ReadNumMerge(row, UpdateRow(p), c);
  }

  /** An integer column of the update row reads back as the patch field it was sent from. */
  lemma UpdateIntAt(row: Row, p: OrderPatch, c: Column, o: Option<int>)
    requires UpdateValue(p, c) == IntValue(o)
    ensures ReadInt(row + UpdateRow(p), c) == if o.Some? then o else ReadInt(row, c)
  {
    UpdateRowAt(p, c);
    ReadIntMerge(row, UpdateRow(p), c);
  }

  lemma UpdateReadsAmounts(row: Row, p: OrderPatch)
    requires OrderRow(row)
    ensures OrderRow(row + UpdateRow(p))
    ensures var back, before := MapResponse(row + UpdateRow(p)), MapResponse(row);
            back.discount == (if p.discount.Some? then p.discount else before.discount)
            && back.customTableFee == (if p.customTableFee.Some? then p.customTableFee else before.customTableFee)
            && back.customItemsTotal == (if p.customItemsTotal.Some? then p.customItemsTotal else before.customItemsTotal)
            && back.customDuration == (if p.customDuration.Some? then p.customDuration else before.customDuration)
  {
    assert UpdateValue(p, Discount) == NumValue(p.discount);
    assert UpdateValue(p, CustomTableFee) == NumValue(p.customTableFee);
    assert UpdateValue(p, CustomItemsTotal) == NumValue(p.customItemsTotal);
    assert UpdateValue(p, CustomDuration) == IntValue(p.customDuration);
    UpdateNumAt(row, p, Discount, p.discount);
    UpdateNumAt(row, p, CustomTableFee, p.customTableFee);
    UpdateNumAt(row, p, CustomItemsTotal, p.customItemsTotal);
    UpdateIntAt(row, p, CustomDuration, p.customDuration);
    UpdateKeepsOrderRow(row, p);
    var m := row + UpdateRow(p);
    assert MapResponse(m).discount == ReadNum(m, Discount);
    assert MapResponse(m).customTableFee == ReadNum(m, CustomTableFee);
    assert MapResponse(m).customItemsTotal == ReadNum(m, CustomItemsTotal);
    assert MapResponse(m).customDuration == ReadInt(m, CustomDuration);
  }

  /** The row after an update reads back as the old record with the patch applied. */
  lemma UpdateReadsBack(row: Row, p: OrderPatch)
    requires OrderRow(row)
    ensures OrderRow(row + UpdateRow(p))
    ensures MapResponse(row + UpdateRow(p)) == Patched(MapResponse(row), p)
  {
    UpdateKeepsOrderRow(row, p);
    UpdateReadsIds(row, p);
    UpdateReadsAmounts(row, p);
  }

  /** The remote `orders` table. */
  class OrderTable {
    var rows: map<int, Row>
    var nextId: int

    ghost predicate Valid()
      reads this
    {
      nextId > 0
      && forall k :: k in rows ==> 0 < k < nextId && OrderRow(rows[k]) && Id in rows[k] && rows[k][Id] == Int(k)
    }

    constructor ()
      ensures Valid() && rows == map[] && nextId == 1
    {
      rows := map[];
      nextId := 1;
    }

    /** `data.map(mapResponse)` over the ids the server answered with, in its order. */
    function MapRows(listing: seq<int>): (r: seq<Order>)
      reads this
      requires Valid()
      requires forall i :: 0 <= i < |listing| ==> listing[i] in rows
      ensures |r| == |listing|
      ensures forall i :: 0 <= i < |listing| ==>
                OrderRow(rows[listing[i]]) && r[i] == MapResponse(rows[listing[i]]) && r[i].id == Some(listing[i])
    {
      var rs := rows;
      assert forall i :: 0 <= i < |listing| ==> listing[i] in rs;
      assert forall k :: k in rs ==> OrderRow(rs[k]) && ReadInt(rs[k], Id) == Some(k);
      assert forall i :: 0 <= i < |listing| ==> OrderRow(rs[listing[i]]) && ReadInt(rs[listing[i]], Id) == Some(listing[i]);
      seq(|listing|, i requires 0 <= i < |listing| && listing[i] in rs && OrderRow(rs[listing[i]]) =>
                       MapResponse(rs[listing[i]]))
    }

    /**
     * `getAll`: every order, newest first. `listing` is the ids in the order
     * the server answers with: each row once, sorted by date descending.
     */
    method GetAll(listing: seq<int>, failure: Option<string>) returns (r: Result<seq<Order>>)
      requires Valid()
      requires forall i :: 0 <= i < |listing| ==> listing[i] in rows
      requires forall k :: k in rows ==> k in listing
      requires forall i, j :: 0 <= i < j < |listing| ==> listing[i] != listing[j]
      requires forall i, j :: 0 <= i < j < |listing| ==> rows[listing[j]][Date].i <= rows[listing[i]][Date].i
      ensures failure.Some? ==> r == Err(failure.value)
      ensures failure.None? ==> r.Ok? && |r.value| == |listing|
      ensures failure.None? ==> forall i :: 0 <= i < |r.value| ==>
                r.value[i].id.Some? && r.value[i].id.value in rows && OrderRow(rows[r.value[i].id.value])
                && r.value[i] == MapResponse(rows[r.value[i].id.value])
      ensures failure.None? ==> forall k :: k in rows ==> exists i :: 0 <= i < |r.value| && r.value[i].id == Some(k)
      ensures failure.None? ==> forall i, j :: 0 <= i < j < |r.value| ==> r.value[j].date <= r.value[i].date
    {
      if failure.Some? {
        return Err(failure.value);
      }
      var orders := MapRows(listing);
      forall k | k in rows
        ensures exists i :: 0 <= i < |orders| && orders[i].id == Some(k)
      {
        var i :| 0 <= i < |listing| && listing[i] == k;
        assert orders[i].id == Some(k);
      }
      return Ok(orders);
    }

    /**
     * `getActiveOrders`: the pending orders. `listing` is the ids the server
     * answers with, each pending row once, in no promised order.
     */
    method GetActiveOrders(listing: seq<int>, failure: Option<string>) returns (r: Result<seq<Order>>)
      requires Valid()
      requires forall i :: 0 <= i < |listing| ==> listing[i] in rows && Status in rows[listing[i]] && rows[listing[i]][Status] == Text("pending")
      requires forall k :: k in rows && Status in rows[k] && rows[k][Status] == Text("pending") ==> k in listing
      ensures failure.Some? ==> r == Err(failure.value)
      ensures failure.None? ==> r.Ok?
      ensures failure.None? ==> forall i :: 0 <= i < |r.value| ==>
                r.value[i].status == Pending && r.value[i].id.Some? && r.value[i].id.value in rows
                && OrderRow(rows[r.value[i].id.value]) && r.value[i] == MapResponse(rows[r.value[i].id.value])
      ensures failure.None? ==> forall k :: k in rows && OrderRow(rows[k]) && MapResponse(rows[k]).status == Pending ==>
                exists i :: 0 <= i < |r.value| && r.value[i].id == Some(k)
    {
      if failure.Some? {
        return Err(failure.value);
      }
      var orders := MapRows(listing);
      forall k | k in rows && MapResponse(rows[k]).status == Pending
        ensures exists i :: 0 <= i < |orders| && orders[i].id == Some(k)
      {
        assert rows[k][Status] == Text("pending");
        var i :| 0 <= i < |listing| && listing[i] == k;
        assert orders[i].id == Some(k);
      }
      return Ok(orders);
    }

    /** `getById`: the mapped row, or the error (`single()` reports a missing row as one). */
    method GetById(id: int, failure: Option<string>) returns (r: Result<Order>)
      requires Valid()
      ensures failure.Some? ==> r == Err(failure.value)
      ensures failure.None? && id in rows ==> r == Ok(MapResponse(rows[id]))
      ensures failure.None? && id !in rows ==> r.Err?
    {
      if failure.Some? {
        return Err(failure.value);
      }
      if id !in rows {
        return Err("no rows returned");
      }
      return Ok(MapResponse(rows[id]));
    }

    /** `create`: insert the row under a fresh id and return it mapped back. */
    method Create(o: Order, failure: Option<string>) returns (r: Result<Order>)
      requires Valid()
      modifies this
      ensures Valid()
      ensures failure.Some? ==> r == Err(failure.value) && rows == old(rows) && nextId == old(nextId)
      ensures failure.None? ==>
                var id := old(nextId);
                id !in old(rows)
                && rows == old(rows)[id := CreateRow(o)[Id := Int(id)]]
                && r == Ok(MapResponse(rows[id]))
                && (o.note.None? || o.note.value.NoteText? ==> r.value == o.(id := Some(id)))
    {
      if failure.Some? {
        return Err(failure.value);
      }
      var id := nextId;
      var dbOrder := CreateRow(o);
      StatusNameRoundTrip(o.status);
      if o.note.None? || o.note.value.NoteText? {
        CreateRoundTrip(o, id);
      }
      rows := rows[id := dbOrder[Id := Int(id)]];
      nextId := nextId + 1;
      return Ok(MapResponse(rows[id]));
    }

    /** `update`: send the defined fields (see `UpdateRow`) and return the updated row mapped back. */
    method Update(id: int, p: OrderPatch, failure: Option<string>) returns (r: Result<Order>)
      requires Valid()
      modifies this
      ensures Valid() && nextId == old(nextId)
      ensures failure.Some? || id !in old(rows) ==> r.Err? && rows == old(rows)
      ensures failure.Some? ==> r == Err(failure.value)
      ensures failure.None? && id in old(rows) ==>
                rows == old(rows)[id := old(rows)[id] + UpdateRow(p)]
                && r == Ok(Patched(MapResponse(old(rows)[id]), p))
    {
      var dbOrder := UpdateRow(p);
      if failure.Some? {
        return Err(failure.value);
      }
      if id !in rows {
        return Err("no rows returned");
      }
      UpdateReadsBack(rows[id], p);
      rows := rows[id := rows[id] + dbOrder];
      return Ok(MapResponse(rows[id]));
    }

    /** `delete`: remove the row and answer true; deleting a missing id is not an error. */
    method Delete(id: int, failure: Option<string>) returns (r: Result<bool>)
      requires Valid()
      modifies this
      ensures Valid() && nextId == old(nextId)
      ensures failure.Some? ==> r == Err(failure.value) && rows == old(rows)
      ensures failure.None? ==> r == Ok(true) && rows == old(rows) - {id}
    {
      if failure.Some? {
        return Err(failure.value);
      }
      rows := rows - {id};
      return Ok(true);
    }
  }
}
