/**
  The backend's two tables and the two handlers that write them (`add_tmc_item`,
  `add_writeoff` in main.py). Each handler runs as one atomic step on the tables;
  the HTTP layer, the session and the commit are not part of this model.

  Money columns (price, amount, total) are Floats in the database; here they are
  integers in minor units, so totals are exact.
 */
module Ledger {
  import opened Wrappers

  /** A row of `tmc_items` (the catalog). `created_at` comes from the clock and is left out. */
  datatype TmcItem = TmcItem(
    id: nat,
    category: string,
    name: string,
    receiptDate: string,
    amount: int,
    price: int,
    quantity: int)

  /** A row of `writeoffs`. `created_at` comes from the clock and is left out. */
  datatype WriteOff = WriteOff(
    id: nat,
    category: string,
    basis: string,
    itemName: string,
    receiptDate: string,
    price: int,
    quantity: int,
    totalAmount: int,
    writeoffDate: string,
    destination: string)

  datatype Tables = Tables(items: seq<TmcItem>, writeoffs: seq<WriteOff>)

  /** The JSON object a handler returns: `{"message": ...}` or `{"error": ...}`. */
  datatype Reply = Message(text: string) | Error(text: string)

  /** The query parameters of `POST /writeoff`. */
  datatype WriteoffArgs = WriteoffArgs(
    category: string,
    basis: string,
    itemName: string,
    quantity: int,
    writeoffDate: string,
    destination: string)

  /** The query parameters of `POST /tmc`. */
  datatype TmcArgs = TmcArgs(
    category: string,
    name: string,
    receiptDate: string,
    amount: int,
    price: int,
    quantity: int)

  const ItemAdded := "TMC item added successfully"
  const WriteoffRecorded := "Writeoff recorded successfully"
  const ItemNotFound := "Item not found"
  const NotEnoughQuantity := "Not enough quantity"

  // ---------------------------------------------------------------------------
  // Primary keys

  /** The largest id of a table's id column, 0 when the table is empty. */
  function MaxId(ids: seq<nat>): (m: nat)
    ensures forall k :: 0 <= k < |ids| ==> ids[k] <= m
    ensures ids == [] ==> m == 0
    ensures ids != [] ==> exists k :: 0 <= k < |ids| && ids[k] == m
  {
    if ids == [] then 0
    else
      var rest := MaxId(ids[..|ids| - 1]);
      var last := ids[|ids| - 1];
      assert forall k :: 0 <= k < |ids| - 1 ==> ids[k] == ids[..|ids| - 1][k];
      if last < rest then rest else last
  }

  function ItemIds(items: seq<TmcItem>): seq<nat>
  {
    seq(|items|, k requires 0 <= k < |items| => items[k].id)
  }

  function WriteoffIds(writeoffs: seq<WriteOff>): seq<nat>
  {
    seq(|writeoffs|, k requires 0 <= k < |writeoffs| => writeoffs[k].id)
  }

  /** The rowid SQLite gives a row inserted without one: one more than the largest in use, 1 in an empty table. */
  function NextItemId(items: seq<TmcItem>): (id: nat)
    ensures id > 0
    ensures forall k :: 0 <= k < |items| ==> items[k].id < id
    ensures items == [] ==> id == 1
    ensures items != [] ==> exists k :: 0 <= k < |items| && items[k].id == id - 1
  {
    var ids := ItemIds(items);
    assert forall k :: 0 <= k < |items| ==> ids[k] == items[k].id;
    MaxId(ids) + 1
  }

  function NextWriteoffId(writeoffs: seq<WriteOff>): (id: nat)
    ensures id > 0
    ensures forall k :: 0 <= k < |writeoffs| ==> writeoffs[k].id < id
    ensures writeoffs == [] ==> id == 1
    ensures writeoffs != [] ==> exists k :: 0 <= k < |writeoffs| && writeoffs[k].id == id - 1
  {
    var ids := WriteoffIds(writeoffs);
    assert forall k :: 0 <= k < |writeoffs| ==> ids[k] == writeoffs[k].id;
    MaxId(ids) + 1
  }

  ghost predicate ItemKeysUnique(items: seq<TmcItem>)
  {
    forall i, j :: 0 <= i < j < |items| ==> items[i].id != items[j].id
  }

  ghost predicate WriteoffKeysUnique(writeoffs: seq<WriteOff>)
  {
    forall i, j :: 0 <= i < j < |writeoffs| ==> writeoffs[i].id != writeoffs[j].id
  }

  /** Ids rise along the table, so table order is rowid order. */
  ghost predicate ItemIdsAscending(items: seq<TmcItem>)
  {
    forall i, j :: 0 <= i < j < |items| ==> items[i].id < items[j].id
  }

  ghost predicate WriteoffIdsAscending(writeoffs: seq<WriteOff>)
  {
    forall i, j :: 0 <= i < j < |writeoffs| ==> writeoffs[i].id < writeoffs[j].id
  }

  // ---------------------------------------------------------------------------
  // add_writeoff

  predicate Matches(item: TmcItem, category: string, name: string)
  {
    item.category == category && item.name == name
  }

  /** `k` is the first catalog row with this category and name. */
  ghost predicate IsFirstMatch(items: seq<TmcItem>, k: int, category: string, name: string)
  {
    && 0 <= k < |items|
    && Matches(items[k], category, name)
    && forall j :: 0 <= j < k ==> !Matches(items[j], category, name)
  }

  /**
    The row `query(TMCItem).filter(category == ..., name == ...).first()` yields.
    With no ORDER BY it is taken to be the first match in table order, which is
    rowid order in every state `Inventory.Valid` admits.
   */
  function FindFirst(items: seq<TmcItem>, category: string, name: string): (r: Option<nat>)
    ensures r.None? <==> forall k :: 0 <= k < |items| ==> !Matches(items[k], category, name)
    ensures r.Some? ==> IsFirstMatch(items, r.value, category, name)
  {
    FindFrom(items, category, name, 0)
  }

  function FindFrom(items: seq<TmcItem>, category: string, name: string, from: nat): (r: Option<nat>)
    requires from <= |items|
    requires forall j :: 0 <= j < from ==> !Matches(items[j], category, name)
    ensures r.None? <==> forall k :: from <= k < |items| ==> !Matches(items[k], category, name)
    ensures r.Some? ==> IsFirstMatch(items, r.value, category, name)
    decreases |items| - from
  {
    if from == |items| then None
    else if Matches(items[from], category, name) then Some(from)
    else FindFrom(items, category, name, from + 1)
  }

  /** The write-off row that `add_writeoff` inserts for catalog row `item`. */
  function NewWriteOff(writeoffs: seq<WriteOff>, item: TmcItem, a: WriteoffArgs): WriteOff
  {
    WriteOff(
      id := NextWriteoffId(writeoffs),
      category := a.category,
      basis := a.basis,
      itemName := a.itemName,
      receiptDate := item.receiptDate,
      price := item.price,
      quantity := a.quantity,
      totalAmount := item.price * a.quantity,
      writeoffDate := a.writeoffDate,
      destination := a.destination)
  }

  datatype Outcome = Outcome(tables: Tables, reply: Reply)

  /**
    The effect of one `POST /writeoff` on the tables. A refused write-off changes
    neither table; an accepted one lowers the stock of the first matching row by
    exactly the requested quantity and appends one write-off row.
   */
  function Writeoff(t: Tables, a: WriteoffArgs): (r: Outcome)
    ensures r.reply == Error(ItemNotFound) <==>
              forall k :: 0 <= k < |t.items| ==> !Matches(t.items[k], a.category, a.itemName)
    ensures r.reply == Error(NotEnoughQuantity) <==>
              exists k :: IsFirstMatch(t.items, k, a.category, a.itemName) && t.items[k].quantity < a.quantity
    ensures r.reply.Error? ==> r.tables == t
    ensures r.reply.Error? ==> r.reply.text == ItemNotFound || r.reply.text == NotEnoughQuantity
    ensures r.reply.Message? ==> r.reply.text == WriteoffRecorded
  {
    match FindFirst(t.items, a.category, a.itemName)
    case None => Outcome(t, Error(ItemNotFound))
    case Some(k) =>
      var item := t.items[k];
      if item.quantity < a.quantity then Outcome(t, Error(NotEnoughQuantity))
      else
        var items' := t.items[k := item.(quantity := item.quantity - a.quantity)];
        var writeoffs' := t.writeoffs + [NewWriteOff(t.writeoffs, item, a)];
        assert writeoffs'[..|t.writeoffs|] == t.writeoffs;
        Outcome(Tables(items', writeoffs'), Message(WriteoffRecorded))
  }

  /**
    An accepted write-off: the first matching row loses exactly the requested quantity
    and nothing else about it or any other row changes; one write-off row is appended,
    priced from the catalog row and otherwise carrying the request's fields.
   */
  lemma WriteoffAccepted(t: Tables, a: WriteoffArgs, k: int)
    requires IsFirstMatch(t.items, k, a.category, a.itemName)
    requires a.quantity <= t.items[k].quantity
    ensures var r := Writeoff(t, a);
      && r.reply == Message(WriteoffRecorded)
      && |r.tables.items| == |t.items|
      && r.tables.items[k].quantity == t.items[k].quantity - a.quantity
      && r.tables.items[k] == t.items[k].(quantity := r.tables.items[k].quantity)
      && (forall j :: 0 <= j < |t.items| && j != k ==> r.tables.items[j] == t.items[j])
      && |r.tables.writeoffs| == |t.writeoffs| + 1
      && r.tables.writeoffs[..|t.writeoffs|] == t.writeoffs
      && var w := r.tables.writeoffs[|t.writeoffs|];
         && w.totalAmount == t.items[k].price * a.quantity
         && w.price == t.items[k].price
         && w.receiptDate == t.items[k].receiptDate
         && w.category == a.category && w.basis == a.basis && w.itemName == a.itemName
         && w.quantity == a.quantity && w.writeoffDate == a.writeoffDate
         && w.destination == a.destination
         && w.id == NextWriteoffId(t.writeoffs)
         && forall j :: 0 <= j < |t.writeoffs| ==> t.writeoffs[j].id < w.id
  {
    var found := FindFirst(t.items, a.category, a.itemName);
    assert found == Some(k) by {
      FirstMatchUnique(t.items, found.value, k, a.category, a.itemName);
    }
  }

  /** At most one row is the first match. */
  lemma FirstMatchUnique(items: seq<TmcItem>, k1: int, k2: int, category: string, name: string)
    requires IsFirstMatch(items, k1, category, name) && IsFirstMatch(items, k2, category, name)
    ensures k1 == k2
  {
  }

  /** A write-off keeps both primary keys unique and rising along each table. */
  lemma WriteoffKeepsKeysUnique(t: Tables, a: WriteoffArgs)
    requires ItemKeysUnique(t.items) && WriteoffKeysUnique(t.writeoffs)
    requires ItemIdsAscending(t.items) && WriteoffIdsAscending(t.writeoffs)
    ensures ItemKeysUnique(Writeoff(t, a).tables.items)
    ensures WriteoffKeysUnique(Writeoff(t, a).tables.writeoffs)
    ensures ItemIdsAscending(Writeoff(t, a).tables.items)
    ensures WriteoffIdsAscending(Writeoff(t, a).tables.writeoffs)
  {
    var r := Writeoff(t, a);
    if r.reply.Message? {
      var k := FindFirst(t.items, a.category, a.itemName).value;
      WriteoffKeepsItemIds(t, a, k);
      WriteoffAppendsFreshId(t.writeoffs, r.tables.writeoffs);
    }
  }

  /** The catalog's ids are untouched by an accepted write-off. */
  lemma WriteoffKeepsItemIds(t: Tables, a: WriteoffArgs, k: nat)
    requires FindFirst(t.items, a.category, a.itemName) == Some(k)
    requires t.items[k].quantity >= a.quantity
    ensures |Writeoff(t, a).tables.items| == |t.items|
    ensures forall j :: 0 <= j < |t.items| ==> Writeoff(t, a).tables.items[j].id == t.items[j].id
  {
  }

  /** Appending a row whose id exceeds all others keeps ids unique and rising. */
  lemma WriteoffAppendsFreshId(before: seq<WriteOff>, after: seq<WriteOff>)
    requires WriteoffKeysUnique(before) && WriteoffIdsAscending(before)
    requires |after| == |before| + 1 && after[..|before|] == before
    requires forall j :: 0 <= j < |before| ==> before[j].id < after[|before|].id
    ensures WriteoffKeysUnique(after) && WriteoffIdsAscending(after)
  {
    assert forall j :: 0 <= j < |before| ==> after[j] == before[j];
  }

  // ---------------------------------------------------------------------------
  // The tables as the backend holds them

  /** The SQLite database: the catalog table and the write-off table. */
  class Inventory {
    var items: seq<TmcItem>
    var writeoffs: seq<WriteOff>

    /** Primary keys are unique in both tables and rise in table order. */
    ghost predicate Valid()
      reads this
    {
      && ItemKeysUnique(items) && WriteoffKeysUnique(writeoffs)
      && ItemIdsAscending(items) && WriteoffIdsAscending(writeoffs)
    }

    constructor ()
      ensures Valid()
      ensures items == [] && writeoffs == []
    {
      items := [];
      writeoffs := [];
    }

    /** `POST /tmc`: insert one catalog row carrying the given fields. */
    method AddTmcItem(a: TmcArgs) returns (reply: Reply)
      requires Valid()
      modifies this
      ensures Valid()
      ensures reply == Message(ItemAdded)
      ensures items == old(items) + [TmcItem(NextItemId(old(items)), a.category, a.name,
                                             a.receiptDate, a.amount, a.price, a.quantity)]
      ensures writeoffs == old(writeoffs)
    {
      var row := TmcItem(NextItemId(items), a.category, a.name, a.receiptDate, a.amount, a.price, a.quantity);
      items := items + [row];
      reply := Message(ItemAdded);
    }

    /** `POST /writeoff`: look the item up, check the stock, decrement it and record the write-off. */
    method AddWriteoff(a: WriteoffArgs) returns (reply: Reply)
      requires Valid()
      modifies this
      ensures Valid()
      ensures Outcome(Tables(items, writeoffs), reply) == Writeoff(old(Tables(items, writeoffs)), a)
    {
      ghost var t := Tables(items, writeoffs);
      var found := FindFirst(items, a.category, a.itemName);
      if found.None? {
        return Error(ItemNotFound);
      }
      var k := found.value;
      var item := items[k];
      if item.quantity < a.quantity {
        return Error(NotEnoughQuantity);
      }
      items := items[k := item.(quantity := item.quantity - a.quantity)];
      var total := item.price * a.quantity;
      var row := WriteOff(NextWriteoffId(writeoffs), a.category, a.basis, a.itemName,
                          item.receiptDate, item.price, a.quantity, total,
                          a.writeoffDate, a.destination);
      assert row == NewWriteOff(t.writeoffs, item, a);
      writeoffs := writeoffs + [row];
      reply := Message(WriteoffRecorded);
      assert Writeoff(t, a) == Outcome(Tables(items, writeoffs), reply);
      WriteoffKeepsKeysUnique(t, a);
    }
  }
}
