/**
 * Rows of the remote database as the service layer sees them: a row maps
 * column names to JSON values, and a column that is not sent is absent
 * from the map. Every request either answers or reports an error, which
 * the services re-throw.
 */
module Rows {
  import opened Common
  import opened Entities

  /** A column value. */
  datatype Value = Null | Int(i: int) | Num(r: real) | Text(s: string) | Lines(lines: seq<OrderLine>)

  /** A service call either returns or throws the store's error. */
  datatype Result<T> = Ok(value: T) | Err(error: string)

  /** `column: x` in an object literal: an undefined value is not sent at all. */
  function Put<K>(row: map<K, Value>, column: K, v: Option<Value>): (r: map<K, Value>)
    ensures v.Some? ==> r == row[column := v.value]
    ensures v.None? ==> r == row
  {
    if v.Some? then row[column := v.value] else row
  }

  function IntValue(o: Option<int>): (v: Option<Value>)
    ensures v.Some? <==> o.Some?
    ensures v.Some? ==> v.value == Int(o.value)
  {
    if o.Some? then Some(Int(o.value)) else None
  }

  function NumValue(o: Option<real>): (v: Option<Value>)
    ensures v.Some? <==> o.Some?
    ensures v.Some? ==> v.value == Num(o.value)
  {
    if o.Some? then Some(Num(o.value)) else None
  }

  /** Reading an integer column; a missing, null or non-integer value reads as absent. */
  function ReadInt<K>(row: map<K, Value>, column: K): (o: Option<int>)
    ensures o.Some? <==> column in row && row[column].Int?
    ensures o.Some? ==> o.value == row[column].i
  {
    if column in row && row[column].Int? then Some(row[column].i) else None
  }

  function ReadNum<K>(row: map<K, Value>, column: K): (o: Option<real>)
    ensures o.Some? <==> column in row && row[column].Num?
    ensures o.Some? ==> o.value == row[column].r
  {
    if column in row && row[column].Num? then Some(row[column].r) else None
  }

  /** Reading a merged row: the newer row's column wins where it has one. */
  lemma ReadNumMerge<K>(row: map<K, Value>, update: map<K, Value>, column: K)
    ensures ReadNum(row + update, column) == if column in update then ReadNum(update, column) else ReadNum(row, column)
  {
  }

  lemma ReadIntMerge<K>(row: map<K, Value>, update: map<K, Value>, column: K)
    ensures ReadInt(row + update, column) == if column in update then ReadInt(update, column) else ReadInt(row, column)
  {
  }

  /** An optional integer field survives a write and a read. */
  lemma IntRoundTrip<K>(row: map<K, Value>, column: K, o: Option<int>)
    requires column !in row
    ensures ReadInt(Put(row, column, IntValue(o)), column) == o
  {
  }

  function StatusName(s: OrderStatus): string {
    match s
    case Pending => "pending"
    case Completed => "completed"
    case Cancelled => "cancelled"
  }

  function ParseStatus(t: string): (s: Option<OrderStatus>)
    ensures s.Some? ==> StatusName(s.value) == t
  {
    if t == "pending" then Some(Pending)
    else if t == "completed" then Some(Completed)
    else if t == "cancelled" then Some(Cancelled)
    else None
  }

  lemma StatusNameRoundTrip(s: OrderStatus)
    ensures ParseStatus(StatusName(s)) == Some(s)
  {
  }

  function MethodName(m: PaymentMethod): string {
    match m
    case Cash => "cash"
    case Transfer => "transfer"
    case Qr => "qr"
  }

  function ParseMethod(t: string): (m: Option<PaymentMethod>)
    ensures m.Some? ==> MethodName(m.value) == t
  {
    if t == "cash" then Some(Cash)
    else if t == "transfer" then Some(Transfer)
    else if t == "qr" then Some(Qr)
    else None
  }

  lemma MethodNameRoundTrip(m: PaymentMethod)
    ensures ParseMethod(MethodName(m)) == Some(m)
  {
  }

  function TableStatusName(s: TableStatus): string {
    match s
    case Available => "available"
    case Occupied => "occupied"
  }

  function ParseTableStatus(t: string): (s: Option<TableStatus>)
    ensures s.Some? ==> TableStatusName(s.value) == t
  {
    if t == "available" then Some(Available)
    else if t == "occupied" then Some(Occupied)
    else None
  }

  lemma TableStatusNameRoundTrip(s: TableStatus)
    ensures ParseTableStatus(TableStatusName(s)) == Some(s)
  {
  }
}
