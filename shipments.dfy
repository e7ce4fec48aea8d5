/**
  The shipment workflow screen (`ShipmentView`): preparing a shipment reserves
  stock line by line with a conditional decrement, completing it assigns a
  courier. The tables it touches are held by `Store`; each UPDATE or INSERT is
  one atomic step on it, and reads see the current state.
 */
module Shipments {
  import opened Wrappers

  datatype Status = Pending | Prepared | Completed

  /** A row of `items`: only the columns the workflow reads; `quantity` never goes negative. */
  datatype Item = Item(name: string, warehouse: int, quantity: nat)

  /** A row of `shipments`; `courier` and `completedAt` stay empty until completion. */
  datatype Shipment = Shipment(warehouse: int, status: Status, courier: Option<int>, completedAt: Option<int>)

  /** A row of `shipment_items`. The quantity is whatever the form's spinbox held. */
  datatype Line = Line(shipment: int, item: int, quantity: int)

  /** A row of `employees`: only the columns the courier list reads. */
  datatype Employee = Employee(id: int, position: string, warehouse: Option<int>)

  /** The workflow's tables as one value. */
  datatype Tables = Tables(items: map<int, Item>, shipments: map<int, Shipment>, lines: seq<Line>, nextShipmentId: int)

  /** The shipment id sequence is ahead of every shipment and every line. */
  predicate Consistent(t: Tables)
  {
    && (forall id :: id in t.shipments ==> id < t.nextShipmentId)
    && (forall k :: 0 <= k < |t.lines| ==> t.lines[k].shipment < t.nextShipmentId)
  }

  /** Which actions `on_select` enables for a shipment's status: (prepare, complete). */
  function Actions(status: Status): (enabled: (bool, bool))
    ensures enabled.0 <==> status == Pending
    ensures enabled.1 <==> status == Status.Prepared
    ensures !(enabled.0 && enabled.1)
  {
    (status == Pending, status == Status.Prepared)
  }

  /**
    `UPDATE items SET quantity = quantity - q WHERE id = item AND quantity >= q`:
    the row count and the table afterwards. Only the named row can change.
   */
  function Decrement(items: map<int, Item>, item: int, q: int): (r: (nat, map<int, Item>))
    ensures r.0 == 1 <==> item in items && items[item].quantity >= q
    ensures r.0 == 0 || r.0 == 1
    ensures r.1.Keys == items.Keys
    ensures forall i :: i in items && i != item ==> r.1[i] == items[i]
    ensures r.0 == 1 ==> r.1[item] == items[item].(quantity := items[item].quantity - q)
    ensures r.0 == 0 ==> r.1 == items
  {
    if item in items && items[item].quantity >= q then
      (1, items[item := items[item].(quantity := items[item].quantity - q)])
    else (0, items)
  }

  /** The outcome of reserving a shipment's lines: all reserved, or short at line `at` (stock as left by the lines before it). */
  datatype Reservation = Reserved(items: map<int, Item>) | Short(at: nat, items: map<int, Item>)

  /** The reservation loop: decrement line after line; the first row count other than 1 stops it. */
  function Reserve(items: map<int, Item>, ls: seq<Line>): (o: Reservation)
    ensures o.items.Keys == items.Keys
    ensures o.Short? ==> o.at < |ls|
    decreases |ls|
  {
    if ls == [] then Reserved(items)
    else
      match Reserve(items, ls[..|ls| - 1])
      case Short(k, s) => Short(k, s)
      case Reserved(s) =>
        var last := ls[|ls| - 1];
        var (n, s') := Decrement(s, last.item, last.quantity);
        if n != 1 then Short(|ls| - 1, s) else Reserved(s')
  }

  /** The total quantity the lines ask of one item. */
  function Total(ls: seq<Line>, item: int): int
    decreases |ls|
  {
    if ls == [] then 0
    else Total(ls[..|ls| - 1], item) + (if ls[|ls| - 1].item == item then ls[|ls| - 1].quantity else 0)
  }

  lemma ReserveNext(items: map<int, Item>, ls: seq<Line>, i: nat, s: map<int, Item>)
    requires i < |ls|
    requires Reserve(items, ls[..i]) == Reserved(s)
    ensures var (n, s') := Decrement(s, ls[i].item, ls[i].quantity);
      Reserve(items, ls[..i + 1]) == if n != 1 then Short(i, s) else Reserved(s')
  {
    var prefix := ls[..i + 1];
    assert prefix[..|prefix| - 1] == ls[..i];
  }

  /** Once a line fell short, the later lines change nothing. */
  lemma {:induction false} ReserveShortPrefix(items: map<int, Item>, ls: seq<Line>, j: nat)
    requires j <= |ls|
    requires Reserve(items, ls[..j]).Short?
    ensures Reserve(items, ls) == Reserve(items, ls[..j])
    decreases |ls| - j
  {
    if j < |ls| {
      var longer := ls[..j + 1];
      assert longer[..|longer| - 1] == ls[..j];
      ReserveShortPrefix(items, ls, j + 1);
    } else {
      assert ls[..j] == ls;
    }
  }

  /**
    A reservation that falls short stops at its first failing line: the lines
    before it were all decremented, that line's item was missing or had too
    little stock, and nothing after it ran.
   */
  lemma {:induction false} ReserveStopsAtFirstShortLine(items: map<int, Item>, ls: seq<Line>)
    requires Reserve(items, ls).Short?
    ensures var o := Reserve(items, ls);
      && o.at < |ls|
      && Reserve(items, ls[..o.at]) == Reserved(o.items)
      && (ls[o.at].item !in o.items || o.items[ls[o.at].item].quantity < ls[o.at].quantity)
    decreases |ls|
  {
    var init := ls[..|ls| - 1];
    match Reserve(items, init)
    case Short(k, s) =>
      ReserveStopsAtFirstShortLine(items, init);
      assert init[..k] == ls[..k];
    case Reserved(s) =>
      assert ls[..|ls| - 1] == init;
  }

  /**
    A full reservation lowers each item by exactly what the lines ask of it,
    leaves its other columns alone, and needed every line's item to exist.
   */
  lemma {:induction false} ReservedTotals(items: map<int, Item>, ls: seq<Line>)
    requires Reserve(items, ls).Reserved?
    ensures var s := Reserve(items, ls).items;
      && s.Keys == items.Keys
      && (forall k :: 0 <= k < |ls| ==> ls[k].item in items)
      && forall i :: i in items ==>
           s[i].quantity == items[i].quantity - Total(ls, i)
           && s[i].name == items[i].name && s[i].warehouse == items[i].warehouse
    decreases |ls|
  {
    if ls != [] {
      var init := ls[..|ls| - 1];
      ReservedTotals(items, init);
      assert forall k :: 0 <= k < |init| ==> init[k] == ls[k];
    }
  }

  /** A shipment's lines, in table order (`SELECT item_id, quantity FROM shipment_items WHERE shipment_id = %s`). */
  function LinesOf(lines: seq<Line>, id: int): (r: seq<Line>)
    ensures |r| <= |lines|
    ensures forall k :: 0 <= k < |r| ==> r[k].shipment == id && r[k] in lines
    ensures forall k :: 0 <= k < |lines| && lines[k].shipment == id ==> lines[k] in r
  {
    if lines == [] then []
    else if lines[0].shipment == id then [lines[0]] + LinesOf(lines[1..], id)
    else LinesOf(lines[1..], id)
  }

  lemma {:induction false} LinesOfAppend(a: seq<Line>, b: seq<Line>, id: int)
    ensures LinesOf(a + b, id) == LinesOf(a, id) + LinesOf(b, id)
    decreases |a|
  {
    if a != [] {
      assert (a + b)[1..] == a[1..] + b;
      LinesOfAppend(a[1..], b, id);
    } else {
      assert a + b == b;
    }
  }

  /** `UPDATE shipments SET status = ... WHERE id = %s`: no row, no change. */
  function SetStatus(shipments: map<int, Shipment>, id: int, status: Status): (r: map<int, Shipment>)
    ensures r.Keys == shipments.Keys
    ensures forall j :: j in shipments && j != id ==> r[j] == shipments[j]
    ensures id in shipments ==> r[id] == shipments[id].(status := status)
  {
    if id in shipments then shipments[id := shipments[id].(status := status)] else shipments
  }

  /** The outcome of `prepare_shipment` for a shipment id: the tables afterwards, and the line that fell short, if any. */
  datatype Preparation = AllReserved(tables: Tables) | InsufficientStock(line: Line, tables: Tables)

  /**
    `prepare_shipment`: reserve every line; only when all succeed, mark the
    shipment PREPARED. A shortfall keeps the earlier decrements (no rollback).
    The shipment's current status is not consulted.
   */
  function Prepare(t: Tables, id: int): (o: Preparation)
    ensures o.tables.lines == t.lines && o.tables.nextShipmentId == t.nextShipmentId
    ensures o.AllReserved? <==> Reserve(t.items, LinesOf(t.lines, id)).Reserved?
    ensures o.tables.items == Reserve(t.items, LinesOf(t.lines, id)).items
    ensures o.InsufficientStock? ==> o.tables.shipments == t.shipments
    ensures o.AllReserved? ==> o.tables.shipments == SetStatus(t.shipments, id, Status.Prepared)
  {
    var ls := LinesOf(t.lines, id);
    match Reserve(t.items, ls)
    case Short(k, s) =>
      ReserveStopsAtFirstShortLine(t.items, ls);
      InsufficientStock(ls[k], t.(items := s))
    case Reserved(s) => AllReserved(t.(items := s, shipments := SetStatus(t.shipments, id, Status.Prepared)))
  }

  /**
    A shipment ends up PREPARED only when every one of its lines was reserved,
    and then each item is lower by exactly what the shipment's lines ask.
   */
  lemma PreparedOnlyIfAllReserved(t: Tables, id: int)
    requires id in t.shipments && t.shipments[id].status != Status.Prepared
    requires var o := Prepare(t, id); id in o.tables.shipments && o.tables.shipments[id].status == Status.Prepared
    ensures var o := Prepare(t, id);
      forall i :: i in t.items ==> o.tables.items[i].quantity == t.items[i].quantity - Total(LinesOf(t.lines, id), i)
  {
    ReservedTotals(t.items, LinesOf(t.lines, id));
  }

  /**
    Preparation does not look at the shipment's status: two tables that differ
    only in that status reserve the same stock. Only the enabled buttons keep
    a PREPARED or COMPLETED shipment from being prepared again.
   */
  lemma PrepareIgnoresStatus(t: Tables, id: int, status: Status)
    requires id in t.shipments
    ensures var t' := t.(shipments := t.shipments[id := t.shipments[id].(status := status)]);
      && Prepare(t', id).tables.items == Prepare(t, id).tables.items
      && Prepare(t', id).AllReserved? == Prepare(t, id).AllReserved?
  {
  }

  /** Preparing the same shipment twice reserves its lines twice. */
  lemma PrepareTwiceReservesTwice(t: Tables, id: int)
    requires Prepare(t, id).AllReserved?
    requires Prepare(Prepare(t, id).tables, id).AllReserved?
    ensures var t2 := Prepare(Prepare(t, id).tables, id).tables;
      forall i :: i in t.items ==> t2.items[i].quantity == t.items[i].quantity - 2 * Total(LinesOf(t.lines, id), i)
  {
    var ls := LinesOf(t.lines, id);
    var t1 := Prepare(t, id).tables;
    ReservedTotals(t.items, ls);
    ReservedTotals(t1.items, ls);
  }

  /**
    Preparing a COMPLETED shipment whose lines can all be reserved again sets
    it back to PREPARED; it keeps its courier and completion time.
   */
  lemma PrepareReopensCompleted(t: Tables, id: int)
    requires id in t.shipments && t.shipments[id].status == Completed
    requires Prepare(t, id).AllReserved?
    ensures id in Prepare(t, id).tables.shipments
    ensures Prepare(t, id).tables.shipments[id] == t.shipments[id].(status := Status.Prepared)
  {
  }

  /** A PENDING shipment that is prepared now offers completion and no longer offers preparation. */
  lemma PreparedEnablesCompletion(t: Tables, id: int)
    requires id in t.shipments && Prepare(t, id).AllReserved?
    ensures id in Prepare(t, id).tables.shipments
    ensures Actions(Prepare(t, id).tables.shipments[id].status) == (false, true)
  {
  }

  /** `UPDATE shipments SET courier_id = %s, status = 'COMPLETED', completed_at = NOW() WHERE id = %s`. */
  function Complete(shipments: map<int, Shipment>, id: int, courier: int, now: int): (r: map<int, Shipment>)
    ensures r.Keys == shipments.Keys
    ensures forall j :: j in shipments && j != id ==> r[j] == shipments[j]
    ensures id in shipments ==>
      (r[id].warehouse == shipments[id].warehouse && r[id].status == Completed
       && r[id].courier == Some(courier) && r[id].completedAt == Some(now))
  {
    if id in shipments then
      shipments[id := shipments[id].(status := Completed, courier := Some(courier), completedAt := Some(now))]
    else shipments
  }

  /** Employee `k` is a courier with id `x` attached to one of the warehouses. */
  predicate IsCourierAt(employees: seq<Employee>, warehouses: set<int>, k: int, x: int)
  {
    && 0 <= k < |employees| && employees[k].id == x
    && employees[k].position == "courier" && employees[k].warehouse.Some? && employees[k].warehouse.value in warehouses
  }

  /** The courier list: every employee in position "courier" who has a warehouse; the shipment's warehouse plays no part. */
  function Couriers(employees: seq<Employee>, warehouses: set<int>): (ids: seq<int>)
    ensures forall k :: 0 <= k < |employees| ==>
      (employees[k].position == "courier" && employees[k].warehouse.Some? && employees[k].warehouse.value in warehouses
       ==> employees[k].id in ids)
    ensures forall x :: x in ids ==> exists k :: IsCourierAt(employees, warehouses, k, x)
  {
    if employees == [] then []
    else
      var e := employees[0];
      var rest := Couriers(employees[1..], warehouses);
      assert forall x :: x in rest ==> exists k :: IsCourierAt(employees, warehouses, k, x) by {
        forall x | x in rest ensures exists k :: IsCourierAt(employees, warehouses, k, x) {
          var k :| IsCourierAt(employees[1..], warehouses, k, x);
          assert IsCourierAt(employees, warehouses, k + 1, x);
        }
      }
      if e.position == "courier" && e.warehouse.Some? && e.warehouse.value in warehouses then
        assert IsCourierAt(employees, warehouses, 0, e.id);
        [e.id] + rest
      else rest
  }

  /** The database tables the workflow reads and writes. */
  class Store {
    var items: map<int, Item>
    var shipments: map<int, Shipment>
    var lines: seq<Line>
    var nextShipmentId: int
    const warehouses: seq<(int, string)>
    const employees: seq<Employee>

    function Contents(): Tables
      reads this
    {
      Tables(items, shipments, lines, nextShipmentId)
    }

    /** The class invariant: the shipment id sequence is ahead of every shipment and every line. */
    predicate Valid()
      reads this
    {
      Consistent(Contents())
    }

    constructor (t: Tables, warehouses: seq<(int, string)>, employees: seq<Employee>)
      requires Consistent(t)
      ensures Valid()
      ensures Contents() == t && this.warehouses == warehouses && this.employees == employees
    {
      items, shipments, lines, nextShipmentId := t.items, t.shipments, t.lines, t.nextShipmentId;
      this.warehouses := warehouses;
      this.employees := employees;
    }

    method DecrementStock(item: int, q: int) returns (updated: nat)
      requires Valid()
      modifies this`items
      ensures Valid()
      ensures (updated, items) == Decrement(old(items), item, q)
    {
      var r := Decrement(items, item, q);
      updated, items := r.0, r.1;
    }

    method UpdateStatus(id: int, status: Status)
      requires Valid()
      modifies this`shipments
      ensures Valid()
      ensures shipments == SetStatus(old(shipments), id, status)
    {
      shipments := SetStatus(shipments, id, status);
    }

    method CompleteShipment(id: int, courier: int, now: int)
      requires Valid()
      modifies this`shipments
      ensures Valid()
      ensures shipments == Complete(old(shipments), id, courier, now)
    {
      shipments := Complete(shipments, id, courier, now);
    }

    /** `INSERT INTO shipments (warehouse_id, status) VALUES (%s, 'PENDING') RETURNING id`. */
    method InsertShipment(warehouse: int) returns (id: int)
      requires Valid()
      modifies this`shipments, this`nextShipmentId
      ensures Valid()
      ensures id == old(nextShipmentId) && nextShipmentId == id + 1
      ensures shipments == old(shipments)[id := Shipment(warehouse, Pending, None, None)]
    {
      id := nextShipmentId;
      shipments := shipments[id := Shipment(warehouse, Pending, None, None)];
      nextShipmentId := nextShipmentId + 1;
    }

    /**
      `INSERT INTO shipment_items (shipment_id, item_id, quantity) VALUES (%s, %s, %s)`;
      the line refers to an existing shipment row.
     */
    method InsertLine(line: Line)
      requires Valid() && line.shipment in shipments
      modifies this`lines
      ensures Valid()
      ensures lines == old(lines) + [line]
    {
      lines := lines + [line];
    }
  }

  /** What `prepare_shipment` reports. */
  datatype PrepareReport = NothingSelected | PreparedOk | ShortOfItem(item: int)

  /** What the courier window's confirmation reports. */
  datatype CompleteReport = NoShipmentSelected | NoCouriers | NoCourierChosen | CompletedOk

  datatype SelectError = UnknownShipment(id: int)

  /** The shipment list with its two action buttons. */
  class ShipmentView {
    const db: Store
    var current: Option<int>
    var prepareEnabled: bool
    var completeEnabled: bool

    constructor (db: Store)
      ensures this.db == db && current == None && prepareEnabled && completeEnabled
    {
      this.db := db;
      current := None;
      prepareEnabled, completeEnabled := true, true;
    }

    /**
      `on_select`: remember the selected shipment and enable the actions its
      status allows. An empty selection changes nothing; an id with no row
      raises after the id was remembered.
     */
    method OnSelect(selected: Option<int>) returns (r: Result<(), SelectError>)
      modifies this
      ensures selected.None? ==> r.Ok? && unchanged(this)
      ensures selected.Some? ==> current == selected
      ensures selected.Some? && selected.value in db.shipments ==>
        r.Ok? && (prepareEnabled, completeEnabled) == Actions(db.shipments[selected.value].status)
      ensures selected.Some? && selected.value !in db.shipments ==>
        r == Err(UnknownShipment(selected.value)) && prepareEnabled == old(prepareEnabled) && completeEnabled == old(completeEnabled)
    {
      if selected.None? {
        return Ok(());
      }
      current := selected;
      var id := selected.value;
      if id !in db.shipments {
        return Err(UnknownShipment(id));
      }
      var status := db.shipments[id].status;
      prepareEnabled := status == Pending;
      completeEnabled := status == Status.Prepared;
      r := Ok(());
    }

    /** `prepare_shipment` on the remembered shipment; a no-op when none is. */
    method PrepareShipment() returns (r: PrepareReport)
      requires db.Valid()
      modifies db
      ensures db.Valid()
      ensures current.None? ==> r == NothingSelected && unchanged(db)
      ensures current.Some? ==>
        var o := Prepare(old(db.Contents()), current.value);
        && db.Contents() == o.tables
        && r == (if o.AllReserved? then PreparedOk else ShortOfItem(o.line.item))
    {
      if current.None? {
        return NothingSelected;
      }
      var id := current.value;
      var ls := LinesOf(db.lines, id);
      ghost var start := db.items;
      var i := 0;
      while i < |ls|
        invariant 0 <= i <= |ls|
        invariant Reserve(start, ls[..i]) == Reserved(db.items)
        invariant db.shipments == old(db.shipments) && db.lines == old(db.lines)
        invariant db.nextShipmentId == old(db.nextShipmentId)
        invariant db.Valid()
      {
        ReserveNext(start, ls, i, db.items);
        var updated := db.DecrementStock(ls[i].item, ls[i].quantity);
        if updated != 1 {
          ReserveShortPrefix(start, ls, i + 1);
          return ShortOfItem(ls[i].item);
        }
        i := i + 1;
      }
      assert ls[..i] == ls;
      db.UpdateStatus(id, Status.Prepared);
      r := PreparedOk;
    }

    /**
      The courier window and its confirmation for the remembered shipment:
      nothing happens without a shipment, without any courier to offer, or
      without a (truthy) chosen courier id; otherwise that shipment alone gets
      the courier, COMPLETED and the completion time `now`. The chosen id can
      only be one the window lists: a courier of any warehouse, not
      necessarily the shipment's.
     */
    method CompleteShipment(chosen: Option<int>, now: int) returns (r: CompleteReport)
      requires db.Valid()
      requires chosen.None? || chosen.value in Couriers(db.employees, WarehouseIds(db.warehouses))
      modifies db
      ensures db.Valid()
      ensures r != CompletedOk ==> unchanged(db)
      ensures r == NoShipmentSelected <==> current.None?
      ensures r == NoCouriers <==> current.Some? && Couriers(db.employees, WarehouseIds(db.warehouses)) == []
      ensures r == CompletedOk <==>
        current.Some? && Couriers(db.employees, WarehouseIds(db.warehouses)) != [] && chosen.Some? && chosen.value != 0
      ensures r == CompletedOk ==>
        && chosen.value in Couriers(db.employees, WarehouseIds(db.warehouses))
        && db.Contents() == old(db.Contents()).(shipments := Complete(old(db.shipments), current.value, chosen.value, now))
    {
      if current.None? {
        return NoShipmentSelected;
      }
      var couriers := Couriers(db.employees, WarehouseIds(db.warehouses));
      if couriers == [] {
        return NoCouriers;
      }
      if chosen.None? || chosen.value == 0 {
        return NoCourierChosen;
      }
      db.CompleteShipment(current.value, chosen.value, now);
      r := CompletedOk;
    }
  }

  /** The ids of the `warehouses` rows (the courier query's JOIN partner). */
  function WarehouseIds(warehouses: seq<(int, string)>): (ids: set<int>)
    ensures forall k :: 0 <= k < |warehouses| ==> warehouses[k].0 in ids
    ensures forall x :: x in ids ==> exists k :: 0 <= k < |warehouses| && warehouses[k].0 == x
  {
    set k | 0 <= k < |warehouses| :: warehouses[k].0
  }
}
