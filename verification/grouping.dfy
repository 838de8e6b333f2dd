/** Loading a query/answer/id CSV into groups (`QueryTagProcessor.load_csv`,
    written the same way in query_tag_processor.py and bot_automate.py): rows
    with a stripped query, answer and id are kept in input order, the queries
    of each id are collected in order, and the first kept answer of an id is
    the group's answer. */
module Grouping {
  import opened Common
  import opened Strings

  /** One kept row, its cells stripped. */
  datatype Item = Item(query: string, answer: string, id: string)

  /** The names of the three columns the loader reads. */
  datatype Columns = Columns(query: string, answer: string, id: string)

  /** A row as `csv.DictReader` yields it: the cell of each column the row
      reaches. A row shorter than the header has no cell for the columns past
      its end. */
  type Record = map<string, string>

  /** A CSV file as `csv.DictReader` sees it: the header (`None` for an empty
      file) and the rows after it. */
  datatype Table = Table(fieldnames: Option<seq<string>>, records: seq<Record>)

  datatype LoadError =
    | NoHeader               // `in None` raises TypeError
    | MissingColumn(column: string)
    | ShortRow(index: nat)   // `None.strip()` raises AttributeError

  predicate HasCells(rec: Record, cols: Columns) {
    cols.query in rec && cols.answer in rec && cols.id in rec
  }

  ghost predicate AllHaveCells(recs: seq<Record>, cols: Columns) {
    forall k | 0 <= k < |recs| :: HasCells(recs[k], cols)
  }

  function ItemOf(rec: Record, cols: Columns): Item
    requires HasCells(rec, cols)
  {
    Item(Strip(rec[cols.query]), Strip(rec[cols.answer]), Strip(rec[cols.id]))
  }

  predicate Kept(it: Item) {
    it.query != "" && it.answer != "" && it.id != ""
  }

  /** The first of the three columns, in the order they are checked, that the
      header lacks. */
  function AbsentColumn(fieldnames: seq<string>, cols: Columns): Option<string> {
    if cols.query !in fieldnames then Some(cols.query)
    else if cols.answer !in fieldnames then Some(cols.answer)
    else if cols.id !in fieldnames then Some(cols.id)
    else None
  }

  // ---------------------------------------------------------------------
  // What loading computes

  /** The kept rows, in input order. */
  function KeptItems(recs: seq<Record>, cols: Columns): seq<Item>
    requires AllHaveCells(recs, cols)
  {
    if recs == [] then []
    else
      var it := ItemOf(recs[|recs| - 1], cols);
      KeptItems(recs[..|recs| - 1], cols) + (if Kept(it) then [it] else [])
  }

  /** The ids of the items, each once, in order of first appearance. */
  function FirstIds(items: seq<Item>): seq<string> {
    if items == [] then []
    else
      var init := FirstIds(items[..|items| - 1]);
      var id := items[|items| - 1].id;
      if id in init then init else init + [id]
  }

  /** The queries of the items with id `id`, in order. */
  function QueriesOf(items: seq<Item>, id: string): seq<string> {
    if items == [] then []
    else
      var last := items[|items| - 1];
      QueriesOf(items[..|items| - 1], id) + (if last.id == id then [last.query] else [])
  }

  /** The answer of the first item with id `id`. */
  function FirstAnswer(items: seq<Item>, id: string): Option<string> {
    if items == [] then None
    else
      var before := FirstAnswer(items[..|items| - 1], id);
      var last := items[|items| - 1];
      if before.Some? then before
      else if last.id == id then Some(last.answer)
      else None
  }

  /** `id_to_queries` and `id_to_answer` describe the groups of `data`. */
  ghost predicate GroupsOf(data: seq<Item>, idToQueries: Dict<string, seq<string>>, idToAnswer: map<string, string>) {
    && idToQueries.Valid()
    && idToQueries.keys == FirstIds(data)
    && (forall id | id in idToQueries.values :: idToQueries.values[id] == QueriesOf(data, id))
    && (forall id :: id in idToAnswer <==> FirstAnswer(data, id).Some?)
    && (forall id | id in idToAnswer :: FirstAnswer(data, id) == Some(idToAnswer[id]))
  }

  /** `id_to_queries[id].append(query)` on a `defaultdict(list)`. */
  function AddQuery(idToQueries: Dict<string, seq<string>>, it: Item): Dict<string, seq<string>> {
    var before := if it.id in idToQueries.values then idToQueries.values[it.id] else [];
    idToQueries.Put(it.id, before + [it.query])
  }

  /** The answer is stored only for an id not seen before. */
  function AddAnswer(idToAnswer: map<string, string>, it: Item): map<string, string> {
    if it.id in idToAnswer then idToAnswer else idToAnswer[it.id := it.answer]
  }

  // ---------------------------------------------------------------------
  // Properties of the groups

  lemma {:induction false} FirstIdsSpec(items: seq<Item>)
    ensures Distinct(FirstIds(items))
    ensures forall id :: id in FirstIds(items) <==> FirstAnswer(items, id).Some?
    ensures forall id :: id in FirstIds(items) <==> QueriesOf(items, id) != []
  {
    if items != [] {
      FirstIdsSpec(items[..|items| - 1]);
    }
  }

  /** A kept row is added to the groups by appending its query to its id's
      list and, for a new id, recording its answer. */
  lemma GroupStep(data: seq<Item>, idToQueries: Dict<string, seq<string>>, idToAnswer: map<string, string>, it: Item)
    requires GroupsOf(data, idToQueries, idToAnswer)
    ensures GroupsOf(data + [it], AddQuery(idToQueries, it), AddAnswer(idToAnswer, it))
  {
    QueriesStep(data, idToQueries, it);
    AnswersStep(data, idToAnswer, it);
  }

  lemma QueriesStep(data: seq<Item>, idToQueries: Dict<string, seq<string>>, it: Item)
    requires idToQueries.Valid() && idToQueries.keys == FirstIds(data)
    requires forall id | id in idToQueries.values :: idToQueries.values[id] == QueriesOf(data, id)
    ensures var q := AddQuery(idToQueries, it);
      && q.Valid()
      && q.keys == FirstIds(data + [it])
      && forall id | id in q.values :: q.values[id] == QueriesOf(data + [it], id)
  {
    var data' := data + [it];
    assert data'[..|data'| - 1] == data && data'[|data'| - 1] == it;
    FirstIdsSpec(data);
    assert it.id in idToQueries.values <==> it.id in FirstIds(data);
    var before := if it.id in idToQueries.values then idToQueries.values[it.id] else [];
    idToQueries.PutValid(it.id, before + [it.query]);
  }

  lemma AnswersStep(data: seq<Item>, idToAnswer: map<string, string>, it: Item)
    requires forall id :: id in idToAnswer <==> FirstAnswer(data, id).Some?
    requires forall id | id in idToAnswer :: FirstAnswer(data, id) == Some(idToAnswer[id])
    ensures var a := AddAnswer(idToAnswer, it);
      && (forall id :: id in a <==> FirstAnswer(data + [it], id).Some?)
      && (forall id | id in a :: FirstAnswer(data + [it], id) == Some(a[id]))
  {
    var data' := data + [it];
    assert data'[..|data'| - 1] == data && data'[|data'| - 1] == it;
  }

  /** `items[k]` is the first item with id `id`. */
  ghost predicate FirstWith(items: seq<Item>, id: string, k: int) {
    0 <= k < |items| && items[k].id == id && forall j | 0 <= j < k :: items[j].id != id
  }

  /** The answer of a group is that of its first row; an id without rows has
      no answer. */
  lemma {:induction false} FirstAnswerIsFirst(items: seq<Item>, id: string)
    ensures FirstAnswer(items, id).None? <==> forall k | 0 <= k < |items| :: items[k].id != id
    ensures FirstAnswer(items, id).Some? ==>
      exists k :: FirstWith(items, id, k) && items[k].answer == FirstAnswer(items, id).value
  {
    if items != [] {
      var init := items[..|items| - 1];
      FirstAnswerIsFirst(init, id);
      assert forall k | 0 <= k < |init| :: init[k] == items[k];
      if FirstAnswer(init, id).Some? {
        var k :| FirstWith(init, id, k) && init[k].answer == FirstAnswer(init, id).value;
        assert FirstWith(items, id, k);
      } else if items[|items| - 1].id == id {
        assert FirstWith(items, id, |items| - 1);
      }
    }
  }

  /** A group's list holds exactly the queries of the rows with its id. */
  lemma {:induction false} QueriesOfMembers(items: seq<Item>, id: string)
    ensures forall q :: q in QueriesOf(items, id) <==>
      exists k | 0 <= k < |items| :: items[k].id == id && items[k].query == q
  {
    if items != [] {
      var init := items[..|items| - 1];
      QueriesOfMembers(init, id);
      forall q ensures q in QueriesOf(items, id) <==>
        exists k | 0 <= k < |items| :: items[k].id == id && items[k].query == q
      {
        if exists k | 0 <= k < |items| :: items[k].id == id && items[k].query == q {
          var k :| 0 <= k < |items| && items[k].id == id && items[k].query == q;
          if k < |init| {
            assert init[k] == items[k];
          }
        }
        if q in QueriesOf(init, id) {
          var k :| 0 <= k < |init| && init[k].id == id && init[k].query == q;
          assert items[k] == init[k];
        }
      }
    }
  }

  /** Kept rows come in input order: the rows of a longer file follow those
      of its first part. */
  lemma {:induction false} KeptItemsAppend(a: seq<Record>, b: seq<Record>, cols: Columns)
    requires AllHaveCells(a, cols) && AllHaveCells(b, cols)
    ensures AllHaveCells(a + b, cols)
    ensures KeptItems(a + b, cols) == KeptItems(a, cols) + KeptItems(b, cols)
  {
    var ab := a + b;
    forall k | 0 <= k < |ab| ensures HasCells(ab[k], cols) {
      if k < |a| {
        assert ab[k] == a[k];
      } else {
        assert ab[k] == b[k - |a|];
      }
    }
    if b == [] {
      assert ab == a;
    } else {
      var init := b[..|b| - 1];
      assert ab[..|ab| - 1] == a + init;
      assert ab[|ab| - 1] == b[|b| - 1];
      KeptItemsAppend(a, init, cols);
    }
  }

  /** Some row of `recs` is kept and gives `it`. */
  ghost predicate KeptFrom(recs: seq<Record>, cols: Columns, it: Item)
    requires AllHaveCells(recs, cols)
  {
    exists k | 0 <= k < |recs| :: Kept(ItemOf(recs[k], cols)) && it == ItemOf(recs[k], cols)
  }

  /** Every row whose stripped query, answer and id are all non-empty is
      kept. */
  lemma {:induction false} KeptRowsIncluded(recs: seq<Record>, cols: Columns, k: nat)
    requires AllHaveCells(recs, cols) && k < |recs| && Kept(ItemOf(recs[k], cols))
    ensures ItemOf(recs[k], cols) in KeptItems(recs, cols)
  {
    var init := recs[..|recs| - 1];
    if k < |init| {
      assert init[k] == recs[k];
      KeptRowsIncluded(init, cols, k);
    }
  }

  /** Nothing else is kept. */
  lemma {:induction false} KeptItemsFromRows(recs: seq<Record>, cols: Columns, it: Item)
    requires AllHaveCells(recs, cols) && it in KeptItems(recs, cols)
    ensures KeptFrom(recs, cols, it)
  {
    var init := recs[..|recs| - 1];
    if it in KeptItems(init, cols) {
      KeptItemsFromRows(init, cols, it);
      var k :| 0 <= k < |init| && Kept(ItemOf(init[k], cols)) && it == ItemOf(init[k], cols);
      assert recs[k] == init[k];
    } else {
      assert Kept(ItemOf(recs[|recs| - 1], cols)) && it == ItemOf(recs[|recs| - 1], cols);
    }
  }

  /** Kept items have non-empty cells with no surrounding whitespace. */
  lemma {:induction false} KeptItemsStripped(recs: seq<Record>, cols: Columns)
    requires AllHaveCells(recs, cols)
    ensures forall k | 0 <= k < |KeptItems(recs, cols)| ::
      && Kept(KeptItems(recs, cols)[k])
      && Strip(KeptItems(recs, cols)[k].query) == KeptItems(recs, cols)[k].query
      && Strip(KeptItems(recs, cols)[k].answer) == KeptItems(recs, cols)[k].answer
      && Strip(KeptItems(recs, cols)[k].id) == KeptItems(recs, cols)[k].id
  {
    if recs != [] {
      var init := recs[..|recs| - 1];
      KeptItemsStripped(init, cols);
      var rec := recs[|recs| - 1];
      StripIdempotent(rec[cols.query]);
      StripIdempotent(rec[cols.answer]);
      StripIdempotent(rec[cols.id]);
    }
  }

  lemma KeptStep(recs: seq<Record>, k: nat, cols: Columns)
    requires k < |recs| && AllHaveCells(recs[..k], cols) && HasCells(recs[k], cols)
    ensures AllHaveCells(recs[..k + 1], cols)
    ensures KeptItems(recs[..k + 1], cols) == KeptItems(recs[..k], cols)
      + (if Kept(ItemOf(recs[k], cols)) then [ItemOf(recs[k], cols)] else [])
  {
    assert recs[..k + 1][..k] == recs[..k];
  }

  // ---------------------------------------------------------------------
  // The loader

  /** Reads the rows one by one into the kept items and their groups; a
      short row stops the reading and leaves what was read before it. */
  method ReadRecords(recs: seq<Record>, cols: Columns)
    returns (err: Option<LoadError>, data: seq<Item>, idToQueries: Dict<string, seq<string>>, idToAnswer: map<string, string>)
    ensures GroupsOf(data, idToQueries, idToAnswer)
    ensures err.None? ==> AllHaveCells(recs, cols) && data == KeptItems(recs, cols)
    ensures err.Some? ==>
      && err.value.ShortRow?
      && err.value.index < |recs|
      && !HasCells(recs[err.value.index], cols)
      && AllHaveCells(recs[..err.value.index], cols)
      && data == KeptItems(recs[..err.value.index], cols)
  {
    data, idToQueries, idToAnswer := [], EmptyDict(), map[];
    var k := 0;
    while k < |recs|
      invariant 0 <= k <= |recs|
      invariant AllHaveCells(recs[..k], cols)
      invariant data == KeptItems(recs[..k], cols)
      invariant GroupsOf(data, idToQueries, idToAnswer)
    {
      var rec := recs[k];
      if !HasCells(rec, cols) {
        return Some(ShortRow(k)), data, idToQueries, idToAnswer;
      }
      KeptStep(recs, k, cols);
      var it := Item(Strip(rec[cols.query]), Strip(rec[cols.answer]), Strip(rec[cols.id]));
      assert it == ItemOf(recs[k], cols);
      if it.query != "" && it.answer != "" && it.id != "" {
        GroupStep(data, idToQueries, idToAnswer, it);
        data := data + [it];
        idToQueries := AddQuery(idToQueries, it);
        idToAnswer := AddAnswer(idToAnswer, it);
      }
      k := k + 1;
    }
    assert recs[..k] == recs;
    err := None;
  }

  /** What loading `t` leaves in `data`, and the error it stops with: a
      missing header or column stops it before any row is read; a short row
      stops it after the rows before it. */
  ghost predicate LoadedFrom(t: Table, cols: Columns, err: Option<LoadError>, data: seq<Item>) {
    && (t.fieldnames.None? ==> err == Some(NoHeader) && data == [])
    && (t.fieldnames.Some? && AbsentColumn(t.fieldnames.value, cols).Some? ==>
          err == Some(MissingColumn(AbsentColumn(t.fieldnames.value, cols).value)) && data == [])
    && (t.fieldnames.Some? && AbsentColumn(t.fieldnames.value, cols).None? ==>
          && (err.None? ==> AllHaveCells(t.records, cols) && data == KeptItems(t.records, cols))
          && (err.Some? ==>
                && err.value.ShortRow?
                && err.value.index < |t.records|
                && !HasCells(t.records[err.value.index], cols)
                && AllHaveCells(t.records[..err.value.index], cols)
                && data == KeptItems(t.records[..err.value.index], cols)))
  }

  /** Checks the header for the three columns, in order, then reads the rows. */
  method LoadRows(t: Table, cols: Columns)
    returns (err: Option<LoadError>, data: seq<Item>, idToQueries: Dict<string, seq<string>>, idToAnswer: map<string, string>)
    ensures GroupsOf(data, idToQueries, idToAnswer)
    ensures LoadedFrom(t, cols, err, data)
  {
    data, idToQueries, idToAnswer := [], EmptyDict(), map[];
    if t.fieldnames.None? {
      return Some(NoHeader), data, idToQueries, idToAnswer;
    }
    var fields := t.fieldnames.value;
    if cols.query !in fields {
      return Some(MissingColumn(cols.query)), data, idToQueries, idToAnswer;
    }
    if cols.answer !in fields {
      return Some(MissingColumn(cols.answer)), data, idToQueries, idToAnswer;
    }
    if cols.id !in fields {
      return Some(MissingColumn(cols.id)), data, idToQueries, idToAnswer;
    }
    err, data, idToQueries, idToAnswer := ReadRecords(t.records, cols);
  }
}
