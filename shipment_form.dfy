/**
  The "create shipment" form (`ShipmentForm`): a warehouse combobox whose
  labels carry the warehouse id, the in-stock items of the chosen warehouse
  with a checkbox and a quantity each, and `save`, which inserts one PENDING
  shipment and one line per checked item.
 */
module ShipmentForms {
  import opened Wrappers
  import opened Text
  import opened Shipments

  /** A combobox label: `f"{id} - {name}"`. */
  function Label(id: int, name: string): (l: string)
    ensures FirstWord(l) == IntToString(id)
  {
    assert IntToString(id) + " - " + name == IntToString(id) + [' '] + ("- " + name);
    FirstWordOf(IntToString(id), "- " + name);
    IntToString(id) + " - " + name
  }

  /** The id read back from a label: `int(label.split(' ')[0])`; `None` where Python raises. */
  function ParseLabel(s: string): (r: Option<int>)
    ensures FirstWord(s) == [] ==> r.None?
  {
    ParseInt(FirstWord(s))
  }

  /** Reading a label back gives the id it was made from, whatever the name. */
  lemma LabelRoundTrip(id: int, name: string)
    ensures ParseLabel(Label(id, name)) == Some(id)
  {
    IntRoundTrip(id);
  }

  /** The combobox options, one per warehouse row, in row order. */
  function Labels(ws: seq<(int, string)>): (ls: seq<string>)
    ensures |ls| == |ws|
  {
    seq(|ws|, k requires 0 <= k < |ws| => Label(ws[k].0, ws[k].1))
  }

  /** Any option the combobox offers parses to the id of a warehouse it was made from. */
  lemma OptionParsesToItsWarehouse(ws: seq<(int, string)>, s: string)
    requires s in Labels(ws)
    ensures ParseLabel(s).Some?
    ensures exists k :: 0 <= k < |ws| && Labels(ws)[k] == s && ParseLabel(s) == Some(ws[k].0)
  {
    var k :| 0 <= k < |ws| && Labels(ws)[k] == s;
    LabelRoundTrip(ws[k].0, ws[k].1);
  }

  /** The warehouse id of a chosen option. */
  function WarehouseOf(ws: seq<(int, string)>, s: string): (id: int)
    requires s in Labels(ws)
    ensures exists k :: 0 <= k < |ws| && Labels(ws)[k] == s && ws[k].0 == id
  {
    OptionParsesToItsWarehouse(ws, s);
    ParseLabel(s).value
  }

  /** One row of the item list: the item id, its checkbox and its spinbox value. */
  datatype ItemVar = ItemVar(item: int, checked: bool, quantity: int)

  /** The `(item_id, quantity)` pairs whose checkbox is set, in list order. */
  function SelectedItems(vars: seq<ItemVar>): (r: seq<(int, int)>)
    ensures |r| <= |vars|
  {
    if vars == [] then []
    else (if vars[0].checked then [(vars[0].item, vars[0].quantity)] else []) + SelectedItems(vars[1..])
  }

  /** Nothing is selected exactly when no box is checked. */
  lemma {:induction false} NothingSelectedIffNoneChecked(vars: seq<ItemVar>)
    ensures SelectedItems(vars) == [] <==> forall k :: 0 <= k < |vars| ==> !vars[k].checked
    decreases |vars|
  {
    if vars != [] {
      NothingSelectedIffNoneChecked(vars[1..]);
      assert forall k :: 1 <= k < |vars| ==> vars[k] == vars[1..][k - 1];
    }
  }

  /** Selecting keeps list order: the selection of a concatenation is the concatenation of the selections. */
  lemma {:induction false} SelectedItemsAppend(a: seq<ItemVar>, b: seq<ItemVar>)
    ensures SelectedItems(a + b) == SelectedItems(a) + SelectedItems(b)
    decreases |a|
  {
    if a == [] {
      assert a + b == b;
    } else {
      var h := if a[0].checked then [(a[0].item, a[0].quantity)] else [];
      assert (a + b)[0] == a[0];
      assert (a + b)[1..] == a[1..] + b;
      SelectedItemsAppend(a[1..], b);
      calc {
        SelectedItems(a + b);
        h + SelectedItems(a[1..] + b);
        h + (SelectedItems(a[1..]) + SelectedItems(b));
        (h + SelectedItems(a[1..])) + SelectedItems(b);
      }
    }
  }

  predicate CheckedAt(vars: seq<ItemVar>, k: int, item: int, quantity: int)
  {
    0 <= k < |vars| && vars[k].checked && vars[k].item == item && vars[k].quantity == quantity
  }

  /** A pair is selected exactly when some checked row carries it. */
  lemma {:induction false} SelectedItemsExactlyChecked(vars: seq<ItemVar>, item: int, quantity: int)
    ensures (item, quantity) in SelectedItems(vars) <==> exists k :: CheckedAt(vars, k, item, quantity)
    decreases |vars|
  {
    if vars != [] {
      SelectedItemsExactlyChecked(vars[1..], item, quantity);
      assert (item, quantity) in SelectedItems(vars) <==>
        (CheckedAt(vars, 0, item, quantity) || (item, quantity) in SelectedItems(vars[1..]));
      if exists k :: CheckedAt(vars[1..], k, item, quantity) {
        var k :| CheckedAt(vars[1..], k, item, quantity);
        assert CheckedAt(vars, k + 1, item, quantity);
      }
      if exists k :: CheckedAt(vars, k, item, quantity) {
        var k :| CheckedAt(vars, k, item, quantity);
        if k > 0 {
          assert CheckedAt(vars[1..], k - 1, item, quantity);
        }
      }
    }
  }

  /** An `items` row as the item query scans it. */
  datatype ItemRow = ItemRow(id: int, item: Item)

  /** `WHERE i.warehouse_id = %s AND i.quantity > 0`. */
  predicate InStock(r: ItemRow, wid: int)
  {
    r.item.warehouse == wid && r.item.quantity > 0
  }

  /** The rows of a scan that the item query keeps, in scan order. */
  function InWarehouse(rows: seq<ItemRow>, wid: int): (r: seq<ItemRow>)
    ensures |r| <= |rows|
    ensures forall k :: 0 <= k < |r| ==> InStock(r[k], wid) && r[k] in rows
    ensures forall k :: 0 <= k < |rows| && InStock(rows[k], wid) ==> rows[k] in r
  {
    if rows == [] then []
    else if InStock(rows[0], wid) then [rows[0]] + InWarehouse(rows[1..], wid)
    else InWarehouse(rows[1..], wid)
  }

  /** Names compare character by character, a proper prefix first (code-point order). */
  predicate LexLe(a: string, b: string)
  {
    a == [] || (b != [] && (a[0] < b[0] || (a[0] == b[0] && LexLe(a[1..], b[1..]))))
  }

  lemma {:induction false} LexLeTotal(a: string, b: string)
    ensures LexLe(a, b) || LexLe(b, a)
  {
    if a != [] && b != [] && a[0] == b[0] {
      LexLeTotal(a[1..], b[1..]);
    }
  }

  /** Row `k` does not sort after row `k + 1`. */
  predicate InOrderAt(s: seq<ItemRow>, k: int)
    requires 0 <= k < |s| - 1
  {
    LexLe(s[k].item.name, s[k + 1].item.name)
  }

  /** `ORDER BY i.name`. */
  predicate SortedByName(s: seq<ItemRow>)
  {
    forall k :: 0 <= k < |s| - 1 ==> InOrderAt(s, k)
  }

  /** Put `x` before the first row it does not sort after. */
  function InsertByName(x: ItemRow, s: seq<ItemRow>): (r: seq<ItemRow>)
    ensures multiset(r) == multiset(s) + multiset{x}
  {
    if s == [] then [x]
    else if LexLe(x.item.name, s[0].item.name) then [x] + s
    else
      assert s == [s[0]] + s[1..];
      [s[0]] + InsertByName(x, s[1..])
  }

  lemma SortedTail(s: seq<ItemRow>)
    requires s != [] && SortedByName(s)
    ensures SortedByName(s[1..])
  {
    forall k | 0 <= k < |s[1..]| - 1 ensures InOrderAt(s[1..], k) {
      assert InOrderAt(s, k + 1);
    }
  }

  /** A row that does not sort after the head of a sorted list can go in front of it. */
  lemma ConsSorted(y: ItemRow, s: seq<ItemRow>)
    requires SortedByName(s)
    requires s == [] || LexLe(y.item.name, s[0].item.name)
    ensures SortedByName([y] + s)
  {
    var r := [y] + s;
    forall k | 0 <= k < |r| - 1 ensures InOrderAt(r, k) {
      if k > 0 {
        assert InOrderAt(s, k - 1);
      }
    }
  }

  /** Inserting into a sorted list keeps it sorted; the new head is `x` or the old head. */
  lemma {:induction false} InsertByNameSorted(x: ItemRow, s: seq<ItemRow>)
    requires SortedByName(s)
    ensures SortedByName(InsertByName(x, s))
    ensures InsertByName(x, s)[0] == x || (s != [] && InsertByName(x, s)[0] == s[0])
    decreases |s|
  {
    if s == [] {
    } else if LexLe(x.item.name, s[0].item.name) {
      ConsSorted(x, s);
    } else {
      LexLeTotal(x.item.name, s[0].item.name);
      SortedTail(s);
      InsertByNameSorted(x, s[1..]);
      var rest := InsertByName(x, s[1..]);
      if rest[0] != x {
        assert InOrderAt(s, 0);
      }
      ConsSorted(s[0], rest);
    }
  }

  function SortByName(s: seq<ItemRow>): (r: seq<ItemRow>)
    ensures multiset(r) == multiset(s)
  {
    if s == [] then []
    else
      assert s == [s[0]] + s[1..];
      InsertByName(s[0], SortByName(s[1..]))
  }

  lemma {:induction false} SortByNameSorted(s: seq<ItemRow>)
    ensures SortedByName(SortByName(s))
  {
    if s != [] {
      SortByNameSorted(s[1..]);
      InsertByNameSorted(s[0], SortByName(s[1..]));
    }
  }

  /** `get_items_with_quantity`: the in-stock rows of the warehouse, ordered by name. */
  function OfferedItems(rows: seq<ItemRow>, wid: int): (offered: seq<ItemRow>)
    ensures |offered| <= |rows|
  {
    var kept := InWarehouse(rows, wid);
    assert |multiset(SortByName(kept))| == |multiset(kept)|;
    SortByName(kept)
  }

  /**
    The offered items are ordered by name and are exactly the scanned rows of
    the chosen warehouse with stock left, each as often as the scan has it.
   */
  lemma OfferedItemsSpec(rows: seq<ItemRow>, wid: int)
    ensures SortedByName(OfferedItems(rows, wid))
    ensures multiset(OfferedItems(rows, wid)) == multiset(InWarehouse(rows, wid))
    ensures forall r :: r in OfferedItems(rows, wid) <==> r in rows && InStock(r, wid)
  {
    var f := InWarehouse(rows, wid);
    SortByNameSorted(f);
    forall r ensures r in OfferedItems(rows, wid) <==> r in rows && InStock(r, wid) {
      assert r in OfferedItems(rows, wid) <==> r in multiset(f);
    }
  }

  /** A scan of the `items` table: every row once, each as the table holds it. */
  predicate IsScanOf(rows: seq<ItemRow>, items: map<int, Item>)
  {
    && (forall k :: 0 <= k < |rows| ==> rows[k].id in items && items[rows[k].id] == rows[k].item)
    && (forall id :: id in items ==> exists k :: 0 <= k < |rows| && rows[k].id == id)
  }

  /** On a scan of the table, the offered ids are exactly the in-stock items of the warehouse. */
  lemma OfferedFromTable(rows: seq<ItemRow>, items: map<int, Item>, wid: int, id: int)
    requires IsScanOf(rows, items)
    ensures (exists r :: r in OfferedItems(rows, wid) && r.id == id) <==>
      id in items && items[id].warehouse == wid && items[id].quantity > 0
  {
    OfferedItemsSpec(rows, wid);
    if id in items && items[id].warehouse == wid && items[id].quantity > 0 {
      var k :| 0 <= k < |rows| && rows[k].id == id;
      assert rows[k] in OfferedItems(rows, wid);
    }
  }

  /** The shipment lines `save` inserts for a new shipment id, one per selected pair, in order. */
  function NewLines(id: int, selected: seq<(int, int)>): (ls: seq<Line>)
    ensures |ls| == |selected|
    ensures forall k :: 0 <= k < |ls| ==> ls[k].shipment == id
    ensures forall k :: 0 <= k < |ls| ==> ls[k].item == selected[k].0 && ls[k].quantity == selected[k].1
  {
    seq(|selected|, k requires 0 <= k < |selected| => Line(id, selected[k].0, selected[k].1))
  }

  lemma NewLinesSnoc(id: int, selected: seq<(int, int)>, i: nat)
    requires i < |selected|
    ensures NewLines(id, selected[..i + 1]) == NewLines(id, selected[..i]) + [Line(id, selected[i].0, selected[i].1)]
  {
  }

  /** The tables after a successful `save`. */
  function Create(t: Tables, wid: int, selected: seq<(int, int)>): (t': Tables)
    ensures t'.items == t.items && t'.nextShipmentId == t.nextShipmentId + 1
    ensures |t'.lines| == |t.lines| + |selected| && t'.lines[..|t.lines|] == t.lines
  {
    Tables(t.items, t.shipments[t.nextShipmentId := Shipment(wid, Pending, None, None)],
           t.lines + NewLines(t.nextShipmentId, selected), t.nextShipmentId + 1)
  }

  /**
    Creating a shipment adds exactly one new PENDING shipment for the warehouse,
    under an id no shipment had; stock and the other shipments are untouched.
   */
  lemma CreateAddsOneShipment(t: Tables, wid: int, selected: seq<(int, int)>)
    requires Consistent(t)
    ensures var t' := Create(t, wid, selected);
      && Consistent(t')
      && t.nextShipmentId !in t.shipments
      && t'.shipments.Keys == t.shipments.Keys + {t.nextShipmentId}
      && t'.shipments[t.nextShipmentId] == Shipment(wid, Pending, None, None)
      && (forall id :: id in t.shipments ==> t'.shipments[id] == t.shipments[id])
      && t'.items == t.items
  {
    var t' := Create(t, wid, selected);
    assert forall k :: 0 <= k < |t'.lines| ==> t'.lines[k].shipment < t'.nextShipmentId by {
      forall k | 0 <= k < |t'.lines| ensures t'.lines[k].shipment < t'.nextShipmentId {
        if k >= |t.lines| {
          assert t'.lines[k] == NewLines(t.nextShipmentId, selected)[k - |t.lines|];
        }
      }
    }
  }

  /**
    The new shipment's lines, the ones `prepare_shipment` will reserve, are the
    selected pairs in order; every other shipment keeps its lines.
   */
  lemma CreateLinesOf(t: Tables, wid: int, selected: seq<(int, int)>)
    requires Consistent(t)
    ensures var t' := Create(t, wid, selected);
      && LinesOf(t'.lines, t.nextShipmentId) == NewLines(t.nextShipmentId, selected)
      && forall id :: id != t.nextShipmentId ==> LinesOf(t'.lines, id) == LinesOf(t.lines, id)
  {
    var n := t.nextShipmentId;
    var added := NewLines(n, selected);
    LinesOfAppend(t.lines, added, n);
    NoLinesOf(t.lines, n);
    AllLinesOf(added, n);
    forall id | id != n ensures LinesOf(t.lines + added, id) == LinesOf(t.lines, id) {
      LinesOfAppend(t.lines, added, id);
      NoLinesOf(added, id);
    }
  }

  /**
    Preparing a freshly created shipment reserves exactly the selected pairs:
    it succeeds precisely when they can all be reserved from the stock as it
    was, and then lowers each item by the total selected of it.
   */
  lemma PrepareNewShipment(t: Tables, wid: int, selected: seq<(int, int)>)
    requires Consistent(t)
    ensures var n := t.nextShipmentId;
      var o := Prepare(Create(t, wid, selected), n);
      && (o.AllReserved? <==> Reserve(t.items, NewLines(n, selected)).Reserved?)
      && (o.AllReserved? ==> o.tables.shipments[n].status == Status.Prepared)
      && (o.AllReserved? ==> forall i :: i in t.items ==>
            o.tables.items[i].quantity == t.items[i].quantity - Total(NewLines(n, selected), i))
  {
    var n := t.nextShipmentId;
    CreateLinesOf(t, wid, selected);
    CreateAddsOneShipment(t, wid, selected);
    if Prepare(Create(t, wid, selected), n).AllReserved? {
      ReservedTotals(t.items, NewLines(n, selected));
    }
  }

  lemma {:induction false} NoLinesOf(ls: seq<Line>, id: int)
    requires forall k :: 0 <= k < |ls| ==> ls[k].shipment != id
    ensures LinesOf(ls, id) == []
    decreases |ls|
  {
    if ls != [] {
      NoLinesOf(ls[1..], id);
    }
  }

  lemma {:induction false} AllLinesOf(ls: seq<Line>, id: int)
    requires forall k :: 0 <= k < |ls| ==> ls[k].shipment == id
    ensures LinesOf(ls, id) == ls
    decreases |ls|
  {
    if ls != [] {
      AllLinesOf(ls[1..], id);
    }
  }

  /** One unchecked row of quantity 0 per offered item, in offer order. */
  function Unchecked(offered: seq<ItemRow>): (vars: seq<ItemVar>)
    ensures |vars| == |offered|
    ensures forall k :: 0 <= k < |offered| ==> vars[k].item == offered[k].id && !vars[k].checked && vars[k].quantity == 0
  {
    seq(|offered|, k requires 0 <= k < |offered| => ItemVar(offered[k].id, false, 0))
  }

  lemma UncheckedSnoc(offered: seq<ItemRow>, i: nat)
    requires i < |offered|
    ensures Unchecked(offered[..i + 1]) == Unchecked(offered[..i]) + [ItemVar(offered[i].id, false, 0)]
  {
  }

  datatype FormError = NoWarehouse | NoItems

  /** The form's state: the options built once, the chosen option, the item rows and the save button. */
  class ShipmentForm {
    const db: Store
    const warehouses: seq<(int, string)>
    const options: seq<string>
    var selection: string
    var itemVars: seq<ItemVar>
    var saveEnabled: bool

    /** The selection is empty or one of the options (the combobox is read-only). */
    predicate Valid()
      reads this
    {
      options == Labels(warehouses) && (selection == [] || selection in options)
    }

    /** `create_widgets`: one option per warehouse row, nothing chosen, save disabled. */
    constructor (db: Store)
      ensures Valid()
      ensures this.db == db && warehouses == db.warehouses
      ensures selection == [] && itemVars == [] && !saveEnabled
    {
      this.db := db;
      warehouses := db.warehouses;
      options := Labels(db.warehouses);
      selection := [];
      itemVars := [];
      saveEnabled := false;
    }

    /**
      `load_items` for the chosen warehouse: with items on offer, one unchecked
      row of quantity 0 per item, in offer order, and save enabled; with none,
      save disabled and the previous rows kept.
     */
    method LoadItems(rows: seq<ItemRow>)
      requires Valid() && selection != []
      modifies this`itemVars, this`saveEnabled
      ensures var offered := OfferedItems(rows, WarehouseOf(warehouses, selection));
        && (offered == [] ==> !saveEnabled && itemVars == old(itemVars))
        && (offered != [] ==> saveEnabled && itemVars == Unchecked(offered))
    {
      var wid := WarehouseOf(warehouses, selection);
      var offered := OfferedItems(rows, wid);
      if offered == [] {
        saveEnabled := false;
        return;
      }
      itemVars := [];
      var i := 0;
      while i < |offered|
        invariant 0 <= i <= |offered|
        invariant itemVars == Unchecked(offered[..i])
      {
        UncheckedSnoc(offered, i);
        itemVars := itemVars + [ItemVar(offered[i].id, false, 0)];
        i := i + 1;
      }
      assert offered[..i] == offered;
      saveEnabled := true;
    }

    /**
      Ticking or clearing the box of item row `k`. A ticked row makes the
      selection non-empty, so `save` goes past its "no item" check.
     */
    method SetChecked(k: nat, checked: bool)
      requires k < |itemVars|
      modifies this`itemVars
      ensures itemVars == old(itemVars)[k := old(itemVars)[k].(checked := checked)]
      ensures checked ==> SelectedItems(itemVars) != []
    {
      itemVars := itemVars[k := itemVars[k].(checked := checked)];
      assert itemVars[k].checked == checked;
      NothingSelectedIffNoneChecked(itemVars);
    }

    /**
      Typing a whole number into the spinbox of item row `k`, which `on_check`
      enables only while its box is ticked; no bound is enforced on typed text.
      That row's item is then selected with exactly that quantity.
     */
    method SetQuantity(k: nat, quantity: int)
      requires k < |itemVars| && itemVars[k].checked
      modifies this`itemVars
      ensures itemVars == old(itemVars)[k := old(itemVars)[k].(quantity := quantity)]
      ensures (itemVars[k].item, quantity) in SelectedItems(itemVars)
    {
      itemVars := itemVars[k := itemVars[k].(quantity := quantity)];
      assert CheckedAt(itemVars, k, itemVars[k].item, quantity);
      SelectedItemsExactlyChecked(itemVars, itemVars[k].item, quantity);
    }

    /** Choosing option `k` in the combobox, which triggers `load_items`. */
    method SelectWarehouse(k: nat, rows: seq<ItemRow>)
      requires Valid() && k < |options|
      modifies this`selection, this`itemVars, this`saveEnabled
      ensures Valid() && selection == options[k]
      ensures WarehouseOf(warehouses, selection) == warehouses[k].0
      ensures var offered := OfferedItems(rows, warehouses[k].0);
        && (offered == [] ==> !saveEnabled && itemVars == old(itemVars))
        && (offered != [] ==> saveEnabled && itemVars == Unchecked(offered))
    {
      selection := options[k];
      LabelRoundTrip(warehouses[k].0, warehouses[k].1);
      LoadItems(rows);
    }

    /**
      `save`: without a chosen warehouse or a checked item, an error and no
      insert; otherwise one new PENDING shipment and its lines, and the new id.
     */
    method Save() returns (r: Result<int, FormError>)
      requires Valid() && db.Valid()
      modifies db
      ensures db.Valid()
      ensures r.Err? ==> unchanged(db)
      ensures r == Err(NoWarehouse) <==> selection == []
      ensures r == Err(NoItems) <==> selection != [] && SelectedItems(itemVars) == []
      ensures r.Ok? ==>
        && r.value == old(db.nextShipmentId)
        && db.Contents() == Create(old(db.Contents()), WarehouseOf(warehouses, selection), SelectedItems(itemVars))
    {
      if selection == [] {
        return Err(NoWarehouse);
      }
      var wid := WarehouseOf(warehouses, selection);
      var selected := SelectedItems(itemVars);
      if selected == [] {
        return Err(NoItems);
      }
      CreateAddsOneShipment(db.Contents(), wid, selected);
      var id := InsertShipment(wid, selected);
      r := Ok(id);
    }

    /** The shipment row, then its lines in order, each by its own statement. */
    method InsertShipment(wid: int, selected: seq<(int, int)>) returns (id: int)
      requires db.Valid()
      modifies db
      ensures db.Valid()
      ensures id == old(db.nextShipmentId)
      ensures db.Contents() == Create(old(db.Contents()), wid, selected)
    {
      ghost var before := db.Contents();
      id := db.InsertShipment(wid);
      var i := 0;
      while i < |selected|
        invariant 0 <= i <= |selected|
        invariant db.lines == before.lines + NewLines(id, selected[..i])
        invariant db.items == before.items && db.nextShipmentId == id + 1
        invariant db.shipments == before.shipments[id := Shipment(wid, Pending, None, None)]
        invariant db.Valid()
      {
        NewLinesSnoc(id, selected, i);
        db.InsertLine(Line(id, selected[i].0, selected[i].1));
        i := i + 1;
      }
      assert selected[..i] == selected;
    }
  }
}
