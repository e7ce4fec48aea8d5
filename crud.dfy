/**
  The generic editor screen (`BaseView`): the statements it builds for a table
  (SELECT, INSERT, UPDATE, DELETE), the record and foreign-key lookups, the
  foreign-key preselection and the merging of form values on save. Every
  statement goes through the gateway: reads to the replica with rows fetched,
  writes to the master with the row count.
 */
module Crud {
  import opened Wrappers
  import opened Text
  import opened Gateway

  /** A Python dict from column name to value, in insertion order. */
  type Fields = seq<(string, Value)>

  function Keys(d: Fields): (ks: seq<string>)
    ensures |ks| == |d| && forall k :: 0 <= k < |d| ==> ks[k] == d[k].0
  {
    seq(|d|, k requires 0 <= k < |d| => d[k].0)
  }

  function Values(d: Fields): (vs: seq<Value>)
    ensures |vs| == |d| && forall k :: 0 <= k < |d| ==> vs[k] == d[k].1
  {
    seq(|d|, k requires 0 <= k < |d| => d[k].1)
  }

  /** `d.get(key)`. */
  function Lookup(d: Fields, key: string): (v: Option<Value>)
    ensures v.None? <==> key !in Keys(d)
  {
    if d == [] then None
    else if d[0].0 == key then Some(d[0].1)
    else
      assert Keys(d) == [d[0].0] + Keys(d[1..]);
      Lookup(d[1..], key)
  }

  /** A call of `execute_query` as the screen issues it. */
  datatype Request = Request(query: string, params: Option<seq<Value>>, useReplica: bool, fetch: bool)

  /** The parameter marker of the driver's `format` parameter style. */
  const Param := "%s"

  /** `['%s'] * n`. */
  function Placeholders(n: nat): (ps: seq<string>)
    ensures |ps| == n && forall k :: 0 <= k < n ==> ps[k] == Param
  {
    seq(n, _ => Param)
  }

  /** `insert_record`: the keys as the column list and one `%s` per value; the values, in key order, as parameters. */
  function InsertRequest(table: string, values: Fields): (r: Request)
    ensures r.params == Some(Values(values)) && !r.useReplica && !r.fetch
  {
    var fields := Join(Keys(values), ", ");
    var placeholders := Join(Placeholders(|values|), ", ");
    Request("INSERT INTO " + table + " (" + fields + ") VALUES (" + placeholders + ")", Some(Values(values)), false, false)
  }

  /** `f"{k} = %s"` for every key. */
  function Assignments(keys: seq<string>): (a: seq<string>)
    ensures |a| == |keys| && forall k :: 0 <= k < |keys| ==> a[k] == keys[k] + " = " + Param
  {
    seq(|keys|, k requires 0 <= k < |keys| => keys[k] + " = " + Param)
  }

  /** `update_record`: one assignment per key, then `WHERE id = %s`; the values in key order and the id last. */
  function UpdateRequest(table: string, itemId: Value, values: Fields): (r: Request)
    ensures r.params == Some(Values(values) + [itemId]) && !r.useReplica && !r.fetch
  {
    var setClause := Join(Assignments(Keys(values)), ", ");
    Request("UPDATE " + table + " SET " + setClause + " WHERE id = " + Param, Some(Values(values) + [itemId]), false, false)
  }

  /** `delete_record`: nothing without a selected row or without the user's confirmation. */
  function DeleteRequest(table: string, selected: Option<Value>, confirmed: bool): (r: Option<Request>)
    ensures r.Some? <==> selected.Some? && confirmed
    ensures r.Some? ==> r.value.params == Some([selected.value]) && !r.value.useReplica && !r.value.fetch
  {
    if selected.Some? && confirmed then Some(Request("DELETE FROM " + table + " WHERE id = " + Param, Some([selected.value]), false, false))
    else None
  }

  /** `load_data`'s read: every row of the table, from the replica, fetched, without parameters. */
  function LoadRequest(table: string): (r: Request)
    ensures r.params.None? && r.useReplica && r.fetch
  {
    Request("SELECT * FROM " + table, None, true, true)
  }

  /** `get_record`'s read: the row with that id, from the replica, fetched; the id is the only parameter. */
  function RecordRequest(table: string, itemId: Value): (r: Request)
    ensures r.params == Some([itemId]) && r.useReplica && r.fetch
  {
    Request("SELECT * FROM " + table + " WHERE id = " + Param, Some([itemId]), true, true)
  }

  /** `get_fk_values`'s read: id and display column of every row, from the replica, fetched, without parameters. */
  function OptionsRequest(table: string, displayField: string): (r: Request)
    ensures r.params.None? && r.useReplica && r.fetch
  {
    Request("SELECT id, " + displayField + " FROM " + table, None, true, true)
  }

  /** `get_record`: the first row, or an empty record when there is none. */
  function RecordOf(rows: seq<Row>): (r: Row)
    ensures rows != [] ==> r == rows[0]
    ensures rows == [] ==> r == map[]
  {
    if rows != [] then rows[0] else map[]
  }

  /** `get_fk_values`: one `(id, display)` pair per row, in row order. */
  function FkOptions(rows: seq<Row>, displayField: string): (opts: seq<(Value, Value)>)
    requires forall k :: 0 <= k < |rows| ==> "id" in rows[k] && displayField in rows[k]
    ensures |opts| == |rows|
    ensures forall k :: 0 <= k < |rows| ==> opts[k] == (rows[k]["id"], rows[k][displayField])
  {
    seq(|rows|, k requires 0 <= k < |rows| => (rows[k]["id"], rows[k][displayField]))
  }

  /** The index of the first option whose id is `current`, if there is one. */
  function Preselect(options: seq<(Value, Value)>, current: Value): (idx: Option<nat>)
    ensures idx.Some? ==> idx.value < |options| && options[idx.value].0 == current
    ensures idx.Some? ==> forall j :: 0 <= j < idx.value ==> options[j].0 != current
    ensures idx.None? ==> forall j :: 0 <= j < |options| ==> options[j].0 != current
  {
    if options == [] then None
    else if options[0].0 == current then Some(0)
    else
      match Preselect(options[1..], current)
      case None => None
      case Some(j) => Some(j + 1)
  }

  /**
    The combobox's initial index in `open_edit_window` (`-1`: nothing chosen):
    the preselected option when editing a record that has the field, else none.
   */
  function InitialChoice(data: Row, fkField: string, options: seq<(Value, Value)>): (c: int)
    ensures -1 <= c < |options|
    ensures c >= 0 ==> fkField in data && options[c].0 == data[fkField]
    ensures c == -1 <==> (data == map[] || fkField !in data || forall j :: 0 <= j < |options| ==> options[j].0 != data[fkField])
  {
    if data != map[] && fkField in data then
      match Preselect(options, data[fkField])
      case Some(i) => i
      case None => -1
    else -1
  }

  /** Why `save` reports an error instead of writing. */
  datatype SaveError = NoChoice(field: string) | IndexError(field: string)

  /**
    `combo.values[combo.current()][0]` as written: Python indexing, where the
    index `-1` that an unchosen combobox reports selects the LAST option.
   */
  function FkIdAsWritten(field: string, options: seq<(Value, Value)>, current: int): (r: Result<Value, SaveError>)
    ensures r.Ok? <==> -|options| <= current < |options|
  {
    if 0 <= current < |options| then Ok(options[current].0)
    else if -|options| <= current < 0 then Ok(options[|options| + current].0)
    else Err(IndexError(field))
  }

  /** With nothing chosen, the code as written saves the id of the last option. */
  lemma UnchosenSavesLastOption(field: string, options: seq<(Value, Value)>)
    requires options != []
    ensures FkIdAsWritten(field, options, -1) == Ok(options[|options| - 1].0)
  {
  }

  /** The intended lookup: the chosen option's id, and an error when nothing is chosen. */
  function FkId(field: string, options: seq<(Value, Value)>, current: int): (r: Result<Value, SaveError>)
    ensures r.Ok? <==> 0 <= current < |options|
    ensures r.Ok? ==> r.value == options[current].0
    ensures r.Err? ==> r.error == NoChoice(field)
  {
    if 0 <= current < |options| then Ok(options[current].0) else Err(NoChoice(field))
  }

  /** The intended lookup agrees with the code on every real choice. */
  lemma FkIdAgreesOnChoices(field: string, options: seq<(Value, Value)>, current: int)
    requires 0 <= current < |options|
    ensures FkId(field, options, current) == FkIdAsWritten(field, options, current)
  {
  }

  /** A foreign-key combobox on the edit form: its field, its options and its current index. */
  datatype Combo = Combo(field: string, options: seq<(Value, Value)>, current: int)

  /** `{fk: combo.values[combo.current()][0] for fk, combo in fk_vars.items()}`, with the intended lookup. */
  function FkValues(combos: seq<Combo>): (r: Result<Fields, SaveError>)
    ensures r.Ok? ==> Keys(r.value) == seq(|combos|, k requires 0 <= k < |combos| => combos[k].field)
    ensures r.Ok? <==> forall k :: 0 <= k < |combos| ==> 0 <= combos[k].current < |combos[k].options|
    ensures r.Ok? ==> forall k :: 0 <= k < |combos| ==> r.value[k].1 == combos[k].options[combos[k].current].0
  {
    if combos == [] then Ok([])
    else
      var c := combos[0];
      match FkId(c.field, c.options, c.current)
      case Err(e) => Err(e)
      case Ok(id) =>
        match FkValues(combos[1..])
        case Err(e) => Err(e)
        case Ok(rest) => Ok([(c.field, id)] + rest)
  }

  /** Entries of `d` whose keys `other` does not have, in order. */
  function NewEntries(d: Fields, other: Fields): (r: Fields)
    ensures forall k :: 0 <= k < |r| ==> r[k] in d && r[k].0 !in Keys(other)
  {
    if d == [] then []
    else if d[0].0 in Keys(other) then NewEntries(d[1..], other)
    else [d[0]] + NewEntries(d[1..], other)
  }

  /** `{**a, **b}`: a's keys in place with b's values where b has them, then b's other keys. */
  function Merge(a: Fields, b: Fields): (r: Fields)
    ensures Keys(r) == Keys(a) + Keys(NewEntries(b, a))
  {
    var over := seq(|a|, k requires 0 <= k < |a| => (a[k].0, Lookup(b, a[k].0).GetOr(a[k].1)));
    assert Keys(over + NewEntries(b, a)) == Keys(over) + Keys(NewEntries(b, a));
    over + NewEntries(b, a)
  }

  lemma {:induction false} LookupAppend(x: Fields, y: Fields, key: string)
    ensures Lookup(x + y, key) == if key in Keys(x) then Lookup(x, key) else Lookup(y, key)
    decreases |x|
  {
    if x != [] {
      assert (x + y)[1..] == x[1..] + y;
      assert Keys(x) == [x[0].0] + Keys(x[1..]);
      LookupAppend(x[1..], y, key);
    } else {
      assert x + y == y;
    }
  }

  lemma {:induction false} LookupNewEntries(d: Fields, other: Fields, key: string)
    requires key !in Keys(other)
    ensures Lookup(NewEntries(d, other), key) == Lookup(d, key)
    decreases |d|
  {
    if d != [] {
      LookupNewEntries(d[1..], other, key);
    }
  }

  lemma {:induction false} LookupOverwritten(a: Fields, b: Fields, over: Fields, key: string)
    requires |over| == |a|
    requires forall k :: 0 <= k < |a| ==> over[k] == (a[k].0, Lookup(b, a[k].0).GetOr(a[k].1))
    requires key in Keys(a)
    ensures Lookup(over, key) == Some(Lookup(b, key).GetOr(Lookup(a, key).value))
    decreases |a|
  {
    assert Keys(a) == [a[0].0] + Keys(a[1..]);
    assert over[0] == (a[0].0, Lookup(b, a[0].0).GetOr(a[0].1));
    if a[0].0 != key {
      forall k | 0 <= k < |a[1..]|
        ensures over[1..][k] == (a[1..][k].0, Lookup(b, a[1..][k].0).GetOr(a[1..][k].1))
      {
        assert over[1..][k] == over[k + 1] && a[1..][k] == a[k + 1];
      }
      LookupOverwritten(a[1..], b, over[1..], key);
    }
  }

  /** In the merged values a foreign-key entry wins over a plain field of the same key. */
  lemma MergeLookup(a: Fields, b: Fields, key: string)
    ensures Lookup(Merge(a, b), key) == if key in Keys(b) then Lookup(b, key) else Lookup(a, key)
  {
    var over := seq(|a|, k requires 0 <= k < |a| => (a[k].0, Lookup(b, a[k].0).GetOr(a[k].1)));
    assert Keys(over) == Keys(a);
    LookupAppend(over, NewEntries(b, a), key);
    if key in Keys(a) {
      LookupOverwritten(a, b, over, key);
    } else {
      LookupNewEntries(b, a, key);
    }
  }

  /** Python truthiness of an id: `None`, `False`, `0` and `''` are false. */
  function Truthy(v: Value): (b: bool)
    ensures !b <==> v in {Null, Bool(false), Int(0), Str([])}
  {
    match v
    case Null => false
    case Bool(b) => b
    case Int(i) => i != 0
    case Str(s) => s != []
  }

  /** The entry texts as values: `{k: v.get() for k, v in entries.items()}`. */
  function EntryValues(entries: seq<(string, string)>): (d: Fields)
    ensures Keys(d) == seq(|entries|, k requires 0 <= k < |entries| => entries[k].0)
    ensures Values(d) == seq(|entries|, k requires 0 <= k < |entries| => Str(entries[k].1))
  {
    seq(|entries|, k requires 0 <= k < |entries| => (entries[k].0, Str(entries[k].1)))
  }

  /**
    `save`: merge the entries with the foreign-key choices, then UPDATE when
    the edited record's id is truthy and INSERT otherwise.
   */
  function SaveRequest(table: string, itemId: Value, entries: seq<(string, string)>, combos: seq<Combo>): (r: Result<Request, SaveError>)
    ensures r.Ok? <==> FkValues(combos).Ok?
    ensures r.Ok? ==> r.value == (if Truthy(itemId) then UpdateRequest(table, itemId, Merge(EntryValues(entries), FkValues(combos).value))
                                  else InsertRequest(table, Merge(EntryValues(entries), FkValues(combos).value)))
  {
    match FkValues(combos)
    case Err(e) => Err(e)
    case Ok(fk) =>
      var combined := Merge(EntryValues(entries), fk);
      if Truthy(itemId) then Ok(UpdateRequest(table, itemId, combined)) else Ok(InsertRequest(table, combined))
  }

  lemma ParamCount()
    ensures Count(Param, '%') == 1
  {
    assert Param[1..] == "s";
  }

  lemma {:induction false} PlaceholderCount(n: nat)
    ensures Count(Join(Placeholders(n), ", "), '%') == n
  {
    ParamCount();
    if n > 1 {
      PlaceholderCount(n - 1);
      assert Placeholders(n)[1..] == Placeholders(n - 1);
      CountZero(", ", '%');
      CountAppend(Param, ", ", '%');
      CountAppend(Param + ", ", Join(Placeholders(n - 1), ", "), '%');
    }
  }

  /** The `%` of a text made of pieces are those of its pieces; pieces without `%` add none. */
  lemma CountPieces(a: string, b: string, c: string, d: string, e: string, f: string)
    requires '%' !in a && '%' !in c && '%' !in e
    ensures Count(a + b + c + d + e + f, '%') == Count(b, '%') + Count(d, '%') + Count(f, '%')
  {
    CountZero(a, '%');
    CountZero(c, '%');
    CountZero(e, '%');
    CountAppend(a, b, '%');
    CountAppend(a + b, c, '%');
    CountAppend(a + b + c, d, '%');
    CountAppend(a + b + c + d, e, '%');
    CountAppend(a + b + c + d + e, f, '%');
  }

  /** For table and column names without `%`, the INSERT has exactly one `%s` per parameter. */
  lemma InsertPlaceholdersMatchParams(table: string, values: Fields)
    requires '%' !in table && forall k :: 0 <= k < |values| ==> '%' !in values[k].0
    ensures Count(InsertRequest(table, values).query, '%') == |values| == |InsertRequest(table, values).params.value|
  {
    var fields := Join(Keys(values), ", ");
    var placeholders := Join(Placeholders(|values|), ", ");
    JoinFree(Keys(values), ", ", '%');
    PlaceholderCount(|values|);
    CountZero(table, '%');
    CountZero(fields, '%');
    var lead := "INSERT INTO " + table + " (" + fields + ") VALUES (" + placeholders;
    CountPieces("INSERT INTO ", table, " (", fields, ") VALUES (", placeholders);
    CountZero(")", '%');
    CountAppend(lead, ")", '%');
  }

  lemma {:induction false} AssignmentCount(keys: seq<string>)
    requires forall k :: 0 <= k < |keys| ==> '%' !in keys[k]
    ensures Count(Join(Assignments(keys), ", "), '%') == |keys|
    decreases |keys|
  {
    if |keys| > 0 {
      var a := Assignments(keys);
      ParamCount();
      CountZero(keys[0], '%');
      CountZero(" = ", '%');
      CountAppend(keys[0], " = ", '%');
      CountAppend(keys[0] + " = ", Param, '%');
      if |keys| > 1 {
        AssignmentCount(keys[1..]);
        assert a[1..] == Assignments(keys[1..]);
        CountZero(", ", '%');
        CountAppend(a[0], ", ", '%');
        CountAppend(a[0] + ", ", Join(a[1..], ", "), '%');
      }
    }
  }

  /** For table and column names without `%`, the UPDATE has one `%s` per value plus one for the id, which comes last. */
  lemma UpdatePlaceholdersMatchParams(table: string, itemId: Value, values: Fields)
    requires '%' !in table && forall k :: 0 <= k < |values| ==> '%' !in values[k].0
    ensures var r := UpdateRequest(table, itemId, values);
      && Count(r.query, '%') == |values| + 1 == |r.params.value|
      && r.params.value[|values|] == itemId
  {
    var setClause := Join(Assignments(Keys(values)), ", ");
    AssignmentCount(Keys(values));
    ParamCount();
    CountZero(table, '%');
    CountPieces("UPDATE ", table, " SET ", setClause, " WHERE id = ", Param);
  }

  /**
    How a reader recovers the column names of a parenthesised list: the text
    before the first `)`, split at the commas, each name stripped.
   */
  function ColumnList(text: string): (names: seq<string>)
    ensures |names| == Count(Split(text, ')')[0], ',') + 1
  {
    StripEach(Split(Split(text, ')')[0], ','))
  }

  /** A column name the statements can carry unchanged: non-empty, trimmed, free of `,` and `)`. */
  predicate PlainColumns(keys: seq<string>)
  {
    TrimmedNames(keys) && forall k :: 0 <= k < |keys| ==> ',' !in keys[k] && ')' !in keys[k]
  }

  /**
    The INSERT names its columns in the order of its parameters: reading the
    column list back out of the statement gives column k paired with
    parameter k, the k-th entry of the values.
   */
  lemma InsertColumnsMatchParams(table: string, values: Fields)
    requires values != [] && PlainColumns(Keys(values))
    ensures var r := InsertRequest(table, values);
      var head := "INSERT INTO " + table + " (";
      && |head| <= |r.query| && r.query[..|head|] == head
      && var columns := ColumnList(r.query[|head|..]);
      && |columns| == |r.params.value| == |values|
      && forall k :: 0 <= k < |values| ==> (columns[k], r.params.value[k]) == values[k]
  {
    var head := "INSERT INTO " + table + " (";
    var rest := " VALUES (" + Join(Placeholders(|values|), ", ") + ")";
    assert InsertRequest(table, values).query == head + Join(Keys(values), ", ") + [')'] + rest;
    ListBeforeClose(head, Keys(values), ')', rest);
  }

  /** Every assignment `key = %s` of plain keys is itself non-empty, trimmed and free of commas. */
  lemma AssignmentsPlain(keys: seq<string>)
    requires PlainColumns(keys)
    ensures TrimmedNames(Assignments(keys)) && forall k :: 0 <= k < |keys| ==> ',' !in Assignments(keys)[k]
  {
    var a := Assignments(keys);
    forall k | 0 <= k < |keys| ensures a[k] != [] && IsTrimmed(a[k]) && ',' !in a[k] {
      var key := keys[k];
      assert key != [] && IsTrimmed(key) && ',' !in key;
      assert a[k] == key + " = %s";
      assert a[k][0] == key[0];
      assert a[k][|a[k]| - 1] == 's';
      VisibleNotSpace('s');
    }
  }

  /**
    The UPDATE assigns the columns in the order of its parameters: reading the
    SET clause back out of the statement gives, for every k, the assignment
    `key = %s` of the k-th key, and parameter k is that key's value.
   */
  lemma UpdateAssignmentsMatchParams(table: string, itemId: Value, values: Fields)
    requires values != [] && PlainColumns(Keys(values))
    ensures var r := UpdateRequest(table, itemId, values);
      var head := "UPDATE " + table + " SET ";
      var tail := " WHERE id = " + Param;
      && |head| + |tail| <= |r.query| && r.query[..|head|] == head && r.query[|r.query| - |tail|..] == tail
      && var assignments := StripEach(Split(r.query[|head|..|r.query| - |tail|], ','));
      && |assignments| == |values| && |r.params.value| == |values| + 1
      && forall k :: 0 <= k < |values| ==>
           assignments[k] == values[k].0 + " = " + Param && r.params.value[k] == values[k].1
  {
    var head := "UPDATE " + table + " SET ";
    var tail := " WHERE id = " + Param;
    assert UpdateRequest(table, itemId, values).query == head + Join(Assignments(Keys(values)), ", ") + tail;
    AssignmentsPlain(Keys(values));
    ListBetween(head, Assignments(Keys(values)), tail);
  }

  /** What issuing `req` through the manager does: the gateway call on the endpoint the request's flag selects. */
  function Issue<S>(m: Manager, sem: (Statement, S) -> Reply<S>, servers: map<Config, Server<S>>, req: Request): Step<S>
  {
    Exec(sem, servers, Route(m.masterConfig, m.replicaConfig, req.useReplica), Statement(req.query, req.params), req.fetch)
  }

  /** A row of the screen's tree: the record's values for the shown columns, tagged with its id. */
  datatype TreeRow = TreeRow(values: seq<Value>, tag: Value)

  /** The record has every shown column and an id (otherwise `load_data` raises KeyError). */
  predicate Showable(record: Row, columns: seq<string>)
  {
    "id" in record && forall k :: 0 <= k < |columns| ==> columns[k] in record
  }

  function TreeRowOf(record: Row, columns: seq<string>): (t: TreeRow)
    requires Showable(record, columns)
    ensures |t.values| == |columns| && t.tag == record["id"]
    ensures forall k :: 0 <= k < |columns| ==> t.values[k] == record[columns[k]]
  {
    TreeRow(seq(|columns|, k requires 0 <= k < |columns| => record[columns[k]]), record["id"])
  }

  /** The records before the first one that cannot be shown. */
  function ShowablePrefix(records: seq<Row>, columns: seq<string>): (n: nat)
    ensures n <= |records|
    ensures forall k :: 0 <= k < n ==> Showable(records[k], columns)
    ensures n < |records| ==> !Showable(records[n], columns)
  {
    if records == [] || !Showable(records[0], columns) then 0
    else 1 + ShowablePrefix(records[1..], columns)
  }

  /** One tree row per record, in record order. */
  function Tabulate(records: seq<Row>, columns: seq<string>): (rows: seq<TreeRow>)
    requires forall k :: 0 <= k < |records| ==> Showable(records[k], columns)
    ensures |rows| == |records|
    ensures forall k :: 0 <= k < |records| ==> rows[k] == TreeRowOf(records[k], columns)
  {
    seq(|records|, k requires 0 <= k < |records| => TreeRowOf(records[k], columns))
  }

  /** The showable prefix ends at the first record that cannot be shown, or at the end. */
  lemma ShowablePrefixAt(records: seq<Row>, columns: seq<string>, i: nat)
    requires i <= |records| && forall k :: 0 <= k < i ==> Showable(records[k], columns)
    requires i == |records| || !Showable(records[i], columns)
    ensures ShowablePrefix(records, columns) == i
  {
  }

  lemma TabulateSnoc(records: seq<Row>, columns: seq<string>, i: nat)
    requires i < |records| && forall k :: 0 <= k <= i ==> Showable(records[k], columns)
    ensures Tabulate(records[..i + 1], columns) == Tabulate(records[..i], columns) + [TreeRowOf(records[i], columns)]
  {
  }

  datatype ViewError = DbFailed(error: DbError) | MissingColumn | NotSaved(reason: SaveError)

  /** The generic editor for one table. */
  class BaseView {
    const table: string
    const columns: seq<string>
    var tree: seq<TreeRow>

    constructor (table: string, columns: seq<string>)
      ensures this.table == table && this.columns == columns && tree == []
    {
      this.table := table;
      this.columns := columns;
      tree := [];
    }

    /**
      The screen after `load_data` read `loaded`: on a failed read an empty
      tree and the error; otherwise the records up to the first one missing a
      shown column, in order, and an error exactly when such a record exists.
     */
    predicate Shows(loaded: Result<QueryResult, DbError>, r: Result<(), ViewError>)
      reads this
    {
      && (loaded.Err? ==> r == Err(DbFailed(loaded.error)) && tree == [])
      && (loaded.Ok? ==>
            && loaded.value.Rows?
            && var records := loaded.value.rows;
            && var n := ShowablePrefix(records, columns);
            && tree == Tabulate(records[..n], columns)
            && r == (if n == |records| then Ok(()) else Err(MissingColumn)))
    }

    /**
      `load_data`: clear the tree, read every record from the replica and show
      them in order; a record missing a shown column stops the loading there.
     */
    method LoadData<S>(m: Manager, db: Database<S>) returns (r: Result<(), ViewError>)
      modifies this, db
      ensures var step := Issue(m, db.semantics, old(db.servers), LoadRequest(table));
        db.servers == step.servers && Shows(step.result, r)
    {
      tree := [];
      var req := LoadRequest(table);
      var res := m.ExecuteQuery(db, req.query, req.useReplica, req.params, req.fetch);
      if res.Err? {
        return Err(DbFailed(res.error));
      }
      var records := res.value.rows;
      var i := 0;
      while i < |records|
        invariant 0 <= i <= |records|
        invariant forall k :: 0 <= k < i ==> Showable(records[k], columns)
        invariant tree == Tabulate(records[..i], columns)
        modifies this
      {
        if !Showable(records[i], columns) {
          ShowablePrefixAt(records, columns, i);
          return Err(MissingColumn);
        }
        TabulateSnoc(records, columns, i);
        tree := tree + [TreeRowOf(records[i], columns)];
        i := i + 1;
      }
      ShowablePrefixAt(records, columns, i);
      r := Ok(());
    }

    /** `get_record`: the record with that id read from the replica, or an empty record. */
    method GetRecord<S>(m: Manager, db: Database<S>, itemId: Value) returns (r: Result<Row, ViewError>)
      modifies db
      ensures var step := Issue(m, db.semantics, old(db.servers), RecordRequest(table, itemId));
        && db.servers == step.servers
        && (step.result.Err? ==> r == Err(DbFailed(step.result.error)))
        && (step.result.Ok? ==> r == Ok(RecordOf(step.result.value.rows)))
    {
      var req := RecordRequest(table, itemId);
      var res := m.ExecuteQuery(db, req.query, req.useReplica, req.params, req.fetch);
      if res.Err? {
        return Err(DbFailed(res.error));
      }
      r := Ok(RecordOf(res.value.rows));
    }

    /** `get_fk_values`: the `(id, display)` options of a referenced table, read from the replica. */
    method GetFkValues<S>(m: Manager, db: Database<S>, refTable: string, displayField: string)
      returns (r: Result<seq<(Value, Value)>, ViewError>)
      modifies db
      ensures var step := Issue(m, db.semantics, old(db.servers), OptionsRequest(refTable, displayField));
        && db.servers == step.servers
        && (step.result.Err? ==> r == Err(DbFailed(step.result.error)))
        && (step.result.Ok? ==>
              var rows := step.result.value.rows;
              if forall k :: 0 <= k < |rows| ==> "id" in rows[k] && displayField in rows[k]
              then r == Ok(FkOptions(rows, displayField))
              else r == Err(MissingColumn))
    {
      var req := OptionsRequest(refTable, displayField);
      var res := m.ExecuteQuery(db, req.query, req.useReplica, req.params, req.fetch);
      if res.Err? {
        return Err(DbFailed(res.error));
      }
      var rows := res.value.rows;
      if forall k :: 0 <= k < |rows| ==> "id" in rows[k] && displayField in rows[k] {
        r := Ok(FkOptions(rows, displayField));
      } else {
        r := Err(MissingColumn);
      }
    }

    /**
      `save` in the edit window: build the INSERT or UPDATE, send it to the
      master, then reload the tree. Nothing is sent when a foreign key has no
      chosen option.
     */
    method Save<S>(m: Manager, db: Database<S>, itemId: Value, entries: seq<(string, string)>, combos: seq<Combo>)
      returns (r: Result<(), ViewError>)
      modifies this, db
      ensures SaveRequest(table, itemId, entries, combos).Err? ==>
        r == Err(NotSaved(SaveRequest(table, itemId, entries, combos).error)) && unchanged(this, db)
      ensures SaveRequest(table, itemId, entries, combos).Ok? ==>
        var write := Issue(m, db.semantics, old(db.servers), SaveRequest(table, itemId, entries, combos).value);
        && (write.result.Err? ==> r == Err(DbFailed(write.result.error)) && db.servers == write.servers && unchanged(this))
        && (write.result.Ok? ==>
              var load := Issue(m, db.semantics, write.servers, LoadRequest(table));
              db.servers == load.servers && Shows(load.result, r))
    {
      var built := SaveRequest(table, itemId, entries, combos);
      if built.Err? {
        return Err(NotSaved(built.error));
      }
      var req := built.value;
      var res := m.ExecuteQuery(db, req.query, req.useReplica, req.params, req.fetch);
      if res.Err? {
        return Err(DbFailed(res.error));
      }
      r := LoadData(m, db);
    }

    /** `delete_record`: with a selected row and the user's confirmation, DELETE it on the master and reload. */
    method DeleteRecord<S>(m: Manager, db: Database<S>, selected: Option<Value>, confirmed: bool)
      returns (r: Result<(), ViewError>)
      modifies this, db
      ensures DeleteRequest(table, selected, confirmed).None? ==> r == Ok(()) && unchanged(this, db)
      ensures DeleteRequest(table, selected, confirmed).Some? ==>
        var del := Issue(m, db.semantics, old(db.servers), DeleteRequest(table, selected, confirmed).value);
        && (del.result.Err? ==> r == Err(DbFailed(del.result.error)) && db.servers == del.servers && unchanged(this))
        && (del.result.Ok? ==>
              var load := Issue(m, db.semantics, del.servers, LoadRequest(table));
              db.servers == load.servers && Shows(load.result, r))
    {
      var built := DeleteRequest(table, selected, confirmed);
      if built.None? {
        return Ok(());
      }
      var req := built.value;
      var res := m.ExecuteQuery(db, req.query, req.useReplica, req.params, req.fetch);
      if res.Err? {
        return Err(DbFailed(res.error));
      }
      r := LoadData(m, db);
    }
  }
}
