/** Per-tag accuracy of an evaluation (wrong_tag_analysis.py): each row's
    expected tag is counted right when the prediction matches it and wrong
    otherwise; tags are then ranked by accuracy, count or name. */
module TagAnalysis {
  import opened Common
  import opened Strings
  import Sorting

  /** The `{'right': .., 'wrong': ..}` counters of one tag. */
  datatype Counts = Counts(right: nat, wrong: nat) {
    function Total(): nat {
      right + wrong
    }
  }

  /** A row of the evaluation file, by column name; a short row lacks cells. */
  type Record = map<string, string>

  // ---------------------------------------------------------------------
  // Counting

  /** `tag_stats[t]` of the `defaultdict`: absent tags read as zero. */
  function Get(m: map<string, Counts>, tag: string): Counts {
    if tag in m then m[tag] else Counts(0, 0)
  }

  function Lookup(stats: Dict<string, Counts>, tag: string): Counts {
    Get(stats.values, tag)
  }

  /** One more right or wrong prediction. */
  function Tally(c: Counts, right: bool): (d: Counts)
    ensures d.Total() == c.Total() + 1
    ensures right ==> d == Counts(c.right + 1, c.wrong)
    ensures !right ==> d == Counts(c.right, c.wrong + 1)
  {
    if right then Counts(c.right + 1, c.wrong) else Counts(c.right, c.wrong + 1)
  }

  /** The counters after the (expected, predicted) pairs, in order. */
  function StatsOf(pairs: seq<(string, string)>): Dict<string, Counts> {
    if pairs == [] then EmptyDict()
    else
      var before := StatsOf(pairs[..|pairs| - 1]);
      var last := pairs[|pairs| - 1];
      before.Put(last.0, Tally(Lookup(before, last.0), last.0 == last.1))
  }

  /** The counters form a well-formed dictionary. */
  lemma {:induction false} StatsValid(pairs: seq<(string, string)>)
    ensures StatsOf(pairs).Valid()
  {
    if pairs != [] {
      var before, last := StatsOf(pairs[..|pairs| - 1]), pairs[|pairs| - 1];
      StatsValid(pairs[..|pairs| - 1]);
      before.PutValid(last.0, Tally(Lookup(before, last.0), last.0 == last.1));
    }
  }

  lemma StatsStep(pairs: seq<(string, string)>, expected: string, predicted: string)
    ensures StatsOf(pairs + [(expected, predicted)]) ==
      StatsOf(pairs).Put(expected, Tally(Lookup(StatsOf(pairs), expected), expected == predicted))
  {
    assert (pairs + [(expected, predicted)])[..|pairs|] == pairs;
  }

  ghost predicate HasColumns(rec: Record, expectedCol: string, predictedCol: string) {
    expectedCol in rec && predictedCol in rec
  }

  ghost predicate AllHaveColumns(recs: seq<Record>, expectedCol: string, predictedCol: string) {
    forall k | 0 <= k < |recs| :: HasColumns(recs[k], expectedCol, predictedCol)
  }

  /** The stripped expected and predicted tag of each row. */
  function PairsOf(recs: seq<Record>, expectedCol: string, predictedCol: string): (pairs: seq<(string, string)>)
    requires AllHaveColumns(recs, expectedCol, predictedCol)
    ensures |pairs| == |recs|
    ensures forall k | 0 <= k < |recs| ::
      pairs[k] == (Strip(recs[k][expectedCol]), Strip(recs[k][predictedCol]))
  {
    seq(|recs|, k requires 0 <= k < |recs| => (Strip(recs[k][expectedCol]), Strip(recs[k][predictedCol])))
  }

  /** Rows with expected tag `tag` whose prediction matches it. */
  function RightFor(pairs: seq<(string, string)>, tag: string): nat {
    if pairs == [] then 0
    else
      var (e, p) := pairs[|pairs| - 1];
      RightFor(pairs[..|pairs| - 1], tag) + (if e == tag && p == tag then 1 else 0)
  }

  /** Rows with expected tag `tag` whose prediction differs. */
  function WrongFor(pairs: seq<(string, string)>, tag: string): nat {
    if pairs == [] then 0
    else
      var (e, p) := pairs[|pairs| - 1];
      WrongFor(pairs[..|pairs| - 1], tag) + (if e == tag && p != tag then 1 else 0)
  }

  /** Rows whose prediction matches, and rows whose prediction differs. */
  function Hits(pairs: seq<(string, string)>): nat {
    if pairs == [] then 0
    else Hits(pairs[..|pairs| - 1]) + (if pairs[|pairs| - 1].0 == pairs[|pairs| - 1].1 then 1 else 0)
  }

  function Misses(pairs: seq<(string, string)>): nat {
    if pairs == [] then 0
    else Misses(pairs[..|pairs| - 1]) + (if pairs[|pairs| - 1].0 != pairs[|pairs| - 1].1 then 1 else 0)
  }

  /** Each tag's counters are the numbers of its rows predicted right and
      wrong; a tag with no row reads as zero. */
  lemma {:induction false} StatsCounts(pairs: seq<(string, string)>)
    ensures forall tag :: Lookup(StatsOf(pairs), tag) == Counts(RightFor(pairs, tag), WrongFor(pairs, tag))
  {
    if pairs != [] {
      StatsCounts(pairs[..|pairs| - 1]);
    }
  }

  /** The tags that occur as expected tags. */
  ghost function ExpectedTags(pairs: seq<(string, string)>): set<string> {
    set k | 0 <= k < |pairs| :: pairs[k].0
  }

  /** Only expected tags become keys: a tag that is only ever predicted gets
      no entry. */
  lemma {:induction false} StatsKeys(pairs: seq<(string, string)>)
    ensures StatsOf(pairs).values.Keys == ExpectedTags(pairs)
  {
    if pairs != [] {
      var init := pairs[..|pairs| - 1];
      StatsKeys(init);
      StatsKeysStep(pairs);
      ExpectedAppend(pairs);
    }
  }

  lemma StatsKeysStep(pairs: seq<(string, string)>)
    requires pairs != []
    ensures StatsOf(pairs).values.Keys == StatsOf(pairs[..|pairs| - 1]).values.Keys + {pairs[|pairs| - 1].0}
  {
    var n := |pairs| - 1;
    var before, e := StatsOf(pairs[..n]), pairs[n].0;
    var c := Tally(Lookup(before, e), e == pairs[n].1);
    assert StatsOf(pairs).values == before.values[e := c];
  }

  lemma ExpectedAppend(pairs: seq<(string, string)>)
    requires pairs != []
    ensures ExpectedTags(pairs) == ExpectedTags(pairs[..|pairs| - 1]) + {pairs[|pairs| - 1].0}
  {
    var n := |pairs| - 1;
    var init := pairs[..n];
    var all := ExpectedTags(pairs);
    var before := ExpectedTags(init);
    forall x | x in all ensures x in before + {pairs[n].0} {
      var k :| 0 <= k < |pairs| && pairs[k].0 == x;
      if k < n {
        assert init[k].0 == x;
      }
    }
    forall x | x in before ensures x in all {
      var k :| 0 <= k < n && init[k].0 == x;
      assert pairs[k].0 == x;
    }
    assert pairs[n].0 in all;
  }

  /** Every tag that has an entry has at least one prediction counted. */
  lemma {:induction false} StatsPositive(pairs: seq<(string, string)>)
    ensures forall tag | tag in StatsOf(pairs).values :: StatsOf(pairs).values[tag].Total() > 0
  {
    if pairs != [] {
      var init := pairs[..|pairs| - 1];
      StatsPositive(init);
      var before, e := StatsOf(init), pairs[|pairs| - 1].0;
      var c := Tally(Lookup(before, e), e == pairs[|pairs| - 1].1);
      assert StatsOf(pairs).values == before.values[e := c];
      assert c.Total() > 0;
    }
  }

  // ---------------------------------------------------------------------
  // Totals over all tags

  function Add(a: Counts, b: Counts): Counts {
    Counts(a.right + b.right, a.wrong + b.wrong)
  }

  /** `sum(s['right'] ...)` and `sum(s['wrong'] ...)` over `keys`. */
  function SumCounts(keys: seq<string>, m: map<string, Counts>): Counts {
    if keys == [] then Counts(0, 0)
    else
      Add(SumCounts(keys[..|keys| - 1], m), Get(m, keys[|keys| - 1]))
  }

  lemma {:induction false} SumCountsOther(keys: seq<string>, m: map<string, Counts>, t: string, c: Counts)
    requires t !in keys
    ensures SumCounts(keys, m[t := c]) == SumCounts(keys, m)
  {
    if keys != [] {
      SumCountsOther(keys[..|keys| - 1], m, t, c);
    }
  }

  lemma {:induction false} SumCountsUpdate(keys: seq<string>, m: map<string, Counts>, t: string, c: Counts)
    requires Distinct(keys) && t in keys && t in m
    ensures SumCounts(keys, m[t := c]).right + m[t].right == SumCounts(keys, m).right + c.right
    ensures SumCounts(keys, m[t := c]).wrong + m[t].wrong == SumCounts(keys, m).wrong + c.wrong
  {
    var n := |keys| - 1;
    var init := keys[..n];
    if keys[n] == t {
      assert t !in init by {
        forall j | 0 <= j < n ensures init[j] != t {
          assert keys[j] != keys[n];
        }
      }
      SumCountsOther(init, m, t, c);
    } else {
      assert t in init by {
        var i :| 0 <= i < |keys| && keys[i] == t;
        assert init[i] == t;
      }
      assert Distinct(init) by {
        forall i, j | 0 <= i < j < n ensures init[i] != init[j] {
          assert keys[i] != keys[j];
        }
      }
      assert Get(m[t := c], keys[n]) == Get(m, keys[n]);
      SumCountsUpdate(init, m, t, c);
    }
  }

  lemma SumCountsReplace(keys: seq<string>, m: map<string, Counts>, t: string, c: Counts)
    requires Distinct(keys) && t in keys && t in m
    ensures Add(SumCounts(keys, m[t := c]), Get(m, t)) == Add(SumCounts(keys, m), c)
  {
    var after, before := SumCounts(keys, m[t := c]), SumCounts(keys, m);
    SumCountsUpdate(keys, m, t, c);
    AddSwap(after, m[t], before, c);
  }

  lemma AddSwap(a: Counts, x: Counts, b: Counts, y: Counts)
    requires a.right + x.right == b.right + y.right
    requires a.wrong + x.wrong == b.wrong + y.wrong
    ensures Add(a, x) == Add(b, y)
  {
  }

  lemma SumCountsAppend(keys: seq<string>, m: map<string, Counts>, t: string, c: Counts)
    requires t !in keys && t !in m
    ensures Add(SumCounts(keys + [t], m[t := c]), Get(m, t)) == Add(SumCounts(keys, m), c)
  {
    SumCountsOther(keys, m, t, c);
    assert (keys + [t])[..|keys|] == keys;
  }

  /** Putting `c` under `t` replaces `t`'s counters in the sum by `c`. */
  lemma SumCountsPut(d: Dict<string, Counts>, t: string, c: Counts)
    requires d.Valid()
    ensures Add(SumCounts(d.Put(t, c).keys, d.Put(t, c).values), Lookup(d, t)) == Add(SumCounts(d.keys, d.values), c)
  {
    if t in d.values {
      assert t in d.keys;
      SumCountsReplace(d.keys, d.values, t, c);
    } else {
      assert t !in d.keys;
      SumCountsAppend(d.keys, d.values, t, c);
    }
  }

  /** Summed over all tags, the counters count every row once: the right
      ones are the rows predicted right, the wrong ones the rest. */
  lemma {:induction false} StatsTotals(pairs: seq<(string, string)>)
    ensures SumCounts(StatsOf(pairs).keys, StatsOf(pairs).values) == Counts(Hits(pairs), Misses(pairs))
  {
    if pairs != [] {
      var init := pairs[..|pairs| - 1];
      StatsTotals(init);
      var d := StatsOf(init);
      StatsValid(init);
      var e, p := pairs[|pairs| - 1].0, pairs[|pairs| - 1].1;
      SumCountsPut(d, e, Tally(Lookup(d, e), e == p));
    }
  }

  /** Every row is a hit or a miss. */
  lemma {:induction false} HitsMisses(pairs: seq<(string, string)>)
    ensures Hits(pairs) + Misses(pairs) == |pairs|
  {
    if pairs != [] {
      HitsMisses(pairs[..|pairs| - 1]);
    }
  }

  // ---------------------------------------------------------------------
  // Accuracy

  /** `right / total * 100`, or 0 when there is nothing to count. */
  function Accuracy(c: Counts): real {
    if c.Total() > 0 then c.right as real / c.Total() as real * 100.0 else 0.0
  }

  lemma AccuracyRange(c: Counts)
    ensures 0.0 <= Accuracy(c) <= 100.0
    ensures Accuracy(c) == 100.0 <==> c.right > 0 && c.wrong == 0
    ensures Accuracy(c) == 0.0 <==> c.right == 0
  {
    if c.Total() > 0 {
      var t := c.Total() as real;
      var q := c.right as real / t;
      assert q * t == c.right as real;
      assert q <= 1.0;
      if q == 1.0 {
        assert c.right as real == t;
      }
    }
  }

  /** Comparing accuracies is comparing `right * total'` with
      `right' * total`. */
  lemma AccuracyOrder(a: Counts, b: Counts)
    requires a.Total() > 0 && b.Total() > 0
    ensures Accuracy(a) < Accuracy(b) <==> a.right * b.Total() < b.right * a.Total()
  {
    var ra, rb := a.right as real, b.right as real;
    var ta, tb := a.Total() as real, b.Total() as real;
    var qa, qb := ra / ta, rb / tb;
    assert Accuracy(a) == qa * 100.0 && Accuracy(b) == qb * 100.0;
    assert qa * ta == ra && qb * tb == rb;
    assert (a.right * b.Total()) as real == ra * tb;
    assert (b.right * a.Total()) as real == rb * ta;
    var p := ta * tb;
    assert p > 0.0;
    assert ra * tb == qa * p;
    assert rb * ta == qb * p;
    if qa < qb {
      assert qa * p < qb * p;
    } else {
      assert qb * p <= qa * p;
    }
  }

  // ---------------------------------------------------------------------
  // Best and worst tags

  /** A `(tag, right, wrong, accuracy)` result of `get_worst_tags`. */
  datatype Entry = Entry(tag: string, right: nat, wrong: nat, accuracy: real)

  function EntryOf(tag: string, c: Counts): Entry {
    Entry(tag, c.right, c.wrong, Accuracy(c))
  }

  /** The entries of the tags in `keys`, in order. */
  function EntriesOf(keys: seq<string>, m: map<string, Counts>): (r: seq<Entry>)
    requires forall k | 0 <= k < |keys| :: keys[k] in m
    ensures |r| == |keys|
    ensures forall k | 0 <= k < |keys| :: r[k] == EntryOf(keys[k], m[keys[k]])
  {
    seq(|keys|, k requires 0 <= k < |keys| => EntryOf(keys[k], m[keys[k]]))
  }

  predicate AccuracyLess(a: Entry, b: Entry) {
    a.accuracy < b.accuracy
  }

  /** `reverse=True` on the accuracy key. */
  predicate AccuracyGreater(a: Entry, b: Entry) {
    b.accuracy < a.accuracy
  }

  /** `results.sort(key=accuracy)` then `results[:n]`. */
  function WorstTags(keys: seq<string>, m: map<string, Counts>, n: int): seq<Entry>
    requires forall k | 0 <= k < |keys| :: keys[k] in m
  {
    PyPrefix(Sorting.Sort(EntriesOf(keys, m), AccuracyLess), n)
  }

  /** `results.sort(key=accuracy, reverse=True)` then `results[:n]`. */
  function BestTags(keys: seq<string>, m: map<string, Counts>, n: int): seq<Entry>
    requires forall k | 0 <= k < |keys| :: keys[k] in m
  {
    PyPrefix(Sorting.Sort(EntriesOf(keys, m), AccuracyGreater), n)
  }

  /** The worst tags are the first `n` (at most) of all entries put in
      non-decreasing accuracy, tags of equal accuracy keeping their order. */
  lemma WorstTagsSpec(keys: seq<string>, m: map<string, Counts>, n: int)
    requires forall k | 0 <= k < |keys| :: keys[k] in m
    ensures var all := EntriesOf(keys, m);
      var s := Sorting.Sort(all, AccuracyLess);
      var r := WorstTags(keys, m, n);
      && multiset(s) == multiset(all)
      && (forall i, j | 0 <= i < j < |s| :: s[i].accuracy <= s[j].accuracy)
      && r == s[..|r|]
      && (0 <= n ==> |r| == if n < |keys| then n else |keys|)
      && (forall x :: Sorting.Class(s, x, AccuracyLess) == Sorting.Class(all, x, AccuracyLess))
  {
    var all := EntriesOf(keys, m);
    assert Sorting.StrictWeakOrder(AccuracyLess);
    Sorting.SortSorted(all, AccuracyLess);
    forall x ensures Sorting.Class(Sorting.Sort(all, AccuracyLess), x, AccuracyLess) == Sorting.Class(all, x, AccuracyLess) {
      Sorting.SortStable(all, x, AccuracyLess);
    }
  }

  /** The best tags are the first `n` (at most) of all entries put in
      non-increasing accuracy, tags of equal accuracy keeping their order. */
  lemma BestTagsSpec(keys: seq<string>, m: map<string, Counts>, n: int)
    requires forall k | 0 <= k < |keys| :: keys[k] in m
    ensures var all := EntriesOf(keys, m);
      var s := Sorting.Sort(all, AccuracyGreater);
      var r := BestTags(keys, m, n);
      && multiset(s) == multiset(all)
      && (forall i, j | 0 <= i < j < |s| :: s[i].accuracy >= s[j].accuracy)
      && r == s[..|r|]
      && (0 <= n ==> |r| == if n < |keys| then n else |keys|)
      && (forall x :: Sorting.Class(s, x, AccuracyGreater) == Sorting.Class(all, x, AccuracyGreater))
  {
    var all := EntriesOf(keys, m);
    assert Sorting.StrictWeakOrder(AccuracyGreater);
    Sorting.SortSorted(all, AccuracyGreater);
    forall x ensures Sorting.Class(Sorting.Sort(all, AccuracyGreater), x, AccuracyGreater) == Sorting.Class(all, x, AccuracyGreater) {
      Sorting.SortStable(all, x, AccuracyGreater);
    }
  }

  // ---------------------------------------------------------------------
  // The table of print_tag_analysis

  /** A `(tag, right, wrong, total, accuracy)` row of the table. */
  datatype Row = Row(tag: string, right: nat, wrong: nat, total: nat, accuracy: real)

  function RowOf(tag: string, c: Counts): Row {
    Row(tag, c.right, c.wrong, c.Total(), Accuracy(c))
  }

  function RowsOf(keys: seq<string>, m: map<string, Counts>): (r: seq<Row>)
    requires forall k | 0 <= k < |keys| :: keys[k] in m
    ensures |r| == |keys|
    ensures forall k | 0 <= k < |keys| :: r[k] == RowOf(keys[k], m[keys[k]])
  {
    seq(|keys|, k requires 0 <= k < |keys| => RowOf(keys[k], m[keys[k]]))
  }

  datatype SortKey = ByAccuracy | ByCount | ByName

  /** The sort key and whether the sort runs with `reverse=True`. */
  datatype Order = Order(key: SortKey, reverse: bool)

  /** The flag chain: accuracy first, then count, then name, else count
      descending; the name sort runs reversed when `descending` is false. */
  function OrderOf(sortByCount: int, sortByAccuracy: int, sortByName: int, descending: bool): Order {
    if sortByAccuracy == 1 then Order(ByAccuracy, descending)
    else if sortByCount == 1 then Order(ByCount, descending)
    else if sortByName == 1 then Order(ByName, !descending)
    else Order(ByCount, true)
  }

  /** The accuracy flag takes precedence over count, count over name, and
      with no flag set the rows go by count, largest first. */
  lemma OrderPrecedence(sortByCount: int, sortByAccuracy: int, sortByName: int, descending: bool)
    ensures var o := OrderOf(sortByCount, sortByAccuracy, sortByName, descending);
      && (o.key == ByAccuracy <==> sortByAccuracy == 1)
      && (o.key == ByCount <==> sortByAccuracy != 1 && (sortByCount == 1 || sortByName != 1))
      && (o.key == ByName <==> sortByAccuracy != 1 && sortByCount != 1 && sortByName == 1)
      && (sortByAccuracy != 1 && sortByCount != 1 && sortByName != 1 ==> o.reverse)
      && (sortByAccuracy == 1 || sortByCount == 1 ==> o.reverse == descending)
      && (o.key == ByName ==> o.reverse == !descending)
  {
  }

  /** `key(a) < key(b)` for the ascending sort of `o.key`. */
  predicate KeyLess(key: SortKey, a: Row, b: Row) {
    match key
    case ByAccuracy => a.accuracy < b.accuracy
    case ByCount => a.total < b.total
    case ByName => Sorting.LowerLess(a.tag, b.tag)
  }

  /** The comparison the sort uses: the key's, turned round for `reverse`. */
  predicate RowLess(o: Order, a: Row, b: Row) {
    if o.reverse then KeyLess(o.key, b, a) else KeyLess(o.key, a, b)
  }

  lemma RowOrder(o: Order)
    ensures Sorting.StrictWeakOrder((a, b) => RowLess(o, a, b))
  {
    Sorting.LowerOrder();
  }

  /** `if show_top_n:` — neither `None` nor zero. */
  predicate Truthy(n: Option<int>) {
    n.Some? && n.value != 0
  }

  /** The rows as shown: sorted as the flags say, then cut to `show_top_n`. */
  function ShownRows(rows: seq<Row>, o: Order, showTopN: Option<int>): seq<Row> {
    var sorted := Sorting.Sort(rows, (a, b) => RowLess(o, a, b));
    if Truthy(showTopN) then PyPrefix(sorted, showTopN.value) else sorted
  }

  /** The shown rows are the first rows of the sorted table (all of them
      unless `show_top_n` is truthy), in the chosen order, rows with equal
      keys keeping their order. */
  lemma ShownRowsSpec(rows: seq<Row>, o: Order, showTopN: Option<int>)
    ensures var less := (a, b) => RowLess(o, a, b);
      var s := Sorting.Sort(rows, less);
      var r := ShownRows(rows, o, showTopN);
      && multiset(s) == multiset(rows)
      && Sorting.Sorted(s, less)
      && r == s[..|r|]
      && (!Truthy(showTopN) ==> r == s)
      && (Truthy(showTopN) && showTopN.value > 0 ==> |r| == if showTopN.value < |rows| then showTopN.value else |rows|)
      && (forall x :: Sorting.Class(s, x, less) == Sorting.Class(rows, x, less))
  {
    var less := (a, b) => RowLess(o, a, b);
    RowOrder(o);
    Sorting.SortSorted(rows, less);
    forall x ensures Sorting.Class(Sorting.Sort(rows, less), x, less) == Sorting.Class(rows, x, less) {
      Sorting.SortStable(rows, x, less);
    }
  }

  /** Sorted by count with `reverse`, no row has a smaller total than a
      row after it; sorted by name without `reverse`, the lower-cased names
      never decrease. */
  lemma SortedRowsMeaning(s: seq<Row>, o: Order)
    requires Sorting.Sorted(s, (a, b) => RowLess(o, a, b))
    ensures o == Order(ByCount, true) ==> forall i, j | 0 <= i < j < |s| :: s[i].total >= s[j].total
    ensures o == Order(ByAccuracy, true) ==> forall i, j | 0 <= i < j < |s| :: s[i].accuracy >= s[j].accuracy
    ensures o == Order(ByName, false) ==> forall i, j | 0 <= i < j < |s| :: !Sorting.LowerLess(s[j].tag, s[i].tag)
    ensures o == Order(ByName, true) ==> forall i, j | 0 <= i < j < |s| :: !Sorting.LowerLess(s[i].tag, s[j].tag)
  {
    forall i, j | 0 <= i < j < |s| ensures !RowLess(o, s[j], s[i]) { }
  }

  /** The "Sorted by" line as the program writes it. */
  function SortLabelAsWritten(sortByCount: int, sortByAccuracy: int, sortByName: int, descending: bool): string {
    if sortByAccuracy == 1 then (if descending then "Accuracy (desc)" else "Accuracy (asc)")
    else if sortByCount == 1 then (if descending then "Count (desc)" else "Count (asc)")
    else if sortByName == 1 then (if !descending then "Name (A-Z)" else "Name (Z-A)")
    else "Count (desc) [default]"
  }

  /** The name sort runs A-Z exactly when `descending` is true, but the
      label then says Z-A: the default run sorted by name is labelled the
      wrong way round. */
  lemma NameLabelReversed()
    ensures OrderOf(0, 0, 1, true) == Order(ByName, false)
    ensures SortLabelAsWritten(0, 0, 1, true) == "Name (Z-A)"
    ensures OrderOf(0, 0, 1, false) == Order(ByName, true)
    ensures SortLabelAsWritten(0, 0, 1, false) == "Name (A-Z)"
  {
  }

  /** The "Sorted by" line naming the order the rows are actually in. */
  function SortLabel(sortByCount: int, sortByAccuracy: int, sortByName: int, descending: bool): string {
    if sortByAccuracy == 1 then (if descending then "Accuracy (desc)" else "Accuracy (asc)")
    else if sortByCount == 1 then (if descending then "Count (desc)" else "Count (asc)")
    else if sortByName == 1 then (if descending then "Name (A-Z)" else "Name (Z-A)")
    else "Count (desc) [default]"
  }

  /** The label says A-Z exactly when the name sort is not reversed, and
      "desc" exactly when the accuracy or count sort is. */
  lemma SortLabelMatchesOrder(sortByCount: int, sortByAccuracy: int, sortByName: int, descending: bool)
    ensures var o := OrderOf(sortByCount, sortByAccuracy, sortByName, descending);
      var shown := SortLabel(sortByCount, sortByAccuracy, sortByName, descending);
      && (o.key == ByName ==> (shown == "Name (A-Z)" <==> !o.reverse) && (shown == "Name (Z-A)" <==> o.reverse))
      && (o.key == ByAccuracy ==> (shown == "Accuracy (desc)" <==> o.reverse) && (shown == "Accuracy (asc)" <==> !o.reverse))
      && (o.key == ByCount ==> (o.reverse <==> shown == "Count (desc)" || shown == "Count (desc) [default]"))
  {
  }

  /** What `print_tag_analysis` shows: the label, the rows, the totals and
      the overall accuracy. */
  datatype Analysis = Analysis(sortedBy: string, rows: seq<Row>, totals: Counts, overallAccuracy: real)

  lemma PairsStep(recs: seq<Record>, k: nat, expectedCol: string, predictedCol: string)
    requires k < |recs| && AllHaveColumns(recs[..k], expectedCol, predictedCol)
    requires HasColumns(recs[k], expectedCol, predictedCol)
    ensures AllHaveColumns(recs[..k + 1], expectedCol, predictedCol)
    ensures PairsOf(recs[..k + 1], expectedCol, predictedCol) ==
      PairsOf(recs[..k], expectedCol, predictedCol) + [(Strip(recs[k][expectedCol]), Strip(recs[k][predictedCol]))]
  {
    assert recs[..k + 1][..k] == recs[..k];
  }

  /** Counting one more row of the file. */
  lemma LoadStep(recs: seq<Record>, k: nat, expectedCol: string, predictedCol: string,
                 stats: Dict<string, Counts>, c: Counts)
    requires k < |recs| && AllHaveColumns(recs[..k], expectedCol, predictedCol)
    requires HasColumns(recs[k], expectedCol, predictedCol)
    requires stats == StatsOf(PairsOf(recs[..k], expectedCol, predictedCol))
    requires var e, p := Strip(recs[k][expectedCol]), Strip(recs[k][predictedCol]);
      c == Tally(Lookup(stats, e), e == p)
    ensures AllHaveColumns(recs[..k + 1], expectedCol, predictedCol)
    ensures stats.Put(Strip(recs[k][expectedCol]), c) == StatsOf(PairsOf(recs[..k + 1], expectedCol, predictedCol))
  {
    PairsStep(recs, k, expectedCol, predictedCol);
    StatsStep(PairsOf(recs[..k], expectedCol, predictedCol), Strip(recs[k][expectedCol]), Strip(recs[k][predictedCol]));
  }

  // ---------------------------------------------------------------------
  // The analyzer

  class TagAnalyzer {
    var tagStats: Dict<string, Counts>

    ghost predicate Valid()
      reads this
    {
      tagStats.Valid()
    }

    constructor ()
      ensures Valid() && tagStats == EmptyDict()
    {
      tagStats := EmptyDict();
    }

    /** Starts from fresh counters and counts every row in turn; a row
        without one of the two columns stops the loading there. */
    method LoadEvaluationCsv(recs: seq<Record>, expectedCol: string, predictedCol: string)
      returns (err: Option<nat>)
      modifies this
      ensures Valid()
      ensures err.None? ==>
        && AllHaveColumns(recs, expectedCol, predictedCol)
        && tagStats == StatsOf(PairsOf(recs, expectedCol, predictedCol))
      ensures err.Some? ==>
        && err.value < |recs|
        && AllHaveColumns(recs[..err.value], expectedCol, predictedCol)
        && !HasColumns(recs[err.value], expectedCol, predictedCol)
        && tagStats == StatsOf(PairsOf(recs[..err.value], expectedCol, predictedCol))
    {
      var stats: Dict<string, Counts> := EmptyDict();
      var k := 0;
      while k < |recs|
        invariant 0 <= k <= |recs|
        invariant AllHaveColumns(recs[..k], expectedCol, predictedCol)
        invariant stats == StatsOf(PairsOf(recs[..k], expectedCol, predictedCol))
      {
        if expectedCol !in recs[k] || predictedCol !in recs[k] {
          StatsValid(PairsOf(recs[..k], expectedCol, predictedCol));
          tagStats := stats;
          return Some(k);
        }
        var expected := Strip(recs[k][expectedCol]);
        var predicted := Strip(recs[k][predictedCol]);
        var c := Lookup(stats, expected);
        if expected == predicted {
          c := Counts(c.right + 1, c.wrong);
        } else {
          c := Counts(c.right, c.wrong + 1);
        }
        assert c == Tally(Lookup(stats, expected), expected == predicted);
        LoadStep(recs, k, expectedCol, predictedCol, stats, c);
        stats := stats.Put(expected, c);
        k := k + 1;
      }
      assert recs[..k] == recs;
      StatsValid(PairsOf(recs, expectedCol, predictedCol));
      tagStats := stats;
      err := None;
    }

    /** The `(tag, right, wrong, accuracy)` entries in tag order. */
    method Entries() returns (results: seq<Entry>)
      requires Valid()
      ensures forall k | 0 <= k < |tagStats.keys| :: tagStats.keys[k] in tagStats.values
      ensures results == EntriesOf(tagStats.keys, tagStats.values)
    {
      var keys, values := tagStats.keys, tagStats.values;
      assert forall k | 0 <= k < |keys| :: keys[k] in values;
      results := [];
      var i := 0;
      while i < |keys|
        invariant 0 <= i <= |keys|
        invariant |results| == i
        invariant forall k | 0 <= k < i :: results[k] == EntryOf(keys[k], values[keys[k]])
      {
        var tag := keys[i];
        var stats := values[tag];
        var right, wrong := stats.right, stats.wrong;
        var total := right + wrong;
        var accuracy := if total > 0 then right as real / total as real * 100.0 else 0.0;
        assert Entry(tag, right, wrong, accuracy) == EntryOf(tag, stats);
        results := results + [Entry(tag, right, wrong, accuracy)];
        i := i + 1;
      }
    }

    method GetWorstTags(n: int) returns (r: seq<Entry>)
      requires Valid()
      ensures forall k | 0 <= k < |tagStats.keys| :: tagStats.keys[k] in tagStats.values
      ensures r == WorstTags(tagStats.keys, tagStats.values, n)
    {
      var results := Entries();
      results := Sorting.Sort(results, AccuracyLess);
      r := PyPrefix(results, n);
    }

    method GetBestTags(n: int) returns (r: seq<Entry>)
      requires Valid()
      ensures forall k | 0 <= k < |tagStats.keys| :: tagStats.keys[k] in tagStats.values
      ensures r == BestTags(tagStats.keys, tagStats.values, n)
    {
      var results := Entries();
      results := Sorting.Sort(results, AccuracyGreater);
      r := PyPrefix(results, n);
    }

    /** The table `print_tag_analysis` prints, or nothing when no counters
        are loaded. */
    method TagAnalysis(sortByCount: int, sortByAccuracy: int, sortByName: int,
                       showTopN: Option<int>, descending: bool)
      returns (a: Option<Analysis>)
      requires Valid()
      ensures forall k | 0 <= k < |tagStats.keys| :: tagStats.keys[k] in tagStats.values
      ensures tagStats.keys == [] <==> a.None?
      ensures a.Some? ==>
        && a.value.sortedBy == SortLabelAsWritten(sortByCount, sortByAccuracy, sortByName, descending)
        && a.value.rows == ShownRows(RowsOf(tagStats.keys, tagStats.values),
                                     OrderOf(sortByCount, sortByAccuracy, sortByName, descending), showTopN)
        && a.value.totals == SumCounts(tagStats.keys, tagStats.values)
        && a.value.overallAccuracy == Accuracy(a.value.totals)
    {
      var keys, values := tagStats.keys, tagStats.values;
      assert forall k | 0 <= k < |keys| :: keys[k] in values;
      if keys == [] {
        return None;
      }
      var rows: seq<Row> := [];
      var i := 0;
      while i < |keys|
        invariant 0 <= i <= |keys|
        invariant |rows| == i
        invariant forall k | 0 <= k < i :: rows[k] == RowOf(keys[k], values[keys[k]])
      {
        var tag := keys[i];
        var stats := values[tag];
        var total := stats.right + stats.wrong;
        var accuracy := if total > 0 then stats.right as real / total as real * 100.0 else 0.0;
        assert Row(tag, stats.right, stats.wrong, total, accuracy) == RowOf(tag, stats);
        rows := rows + [Row(tag, stats.right, stats.wrong, total, accuracy)];
        i := i + 1;
      }
      assert rows == RowsOf(keys, values);
      var order := OrderOf(sortByCount, sortByAccuracy, sortByName, descending);
      var sortedBy := SortLabelAsWritten(sortByCount, sortByAccuracy, sortByName, descending);
      rows := ShownRows(rows, order, showTopN);
      var totals := SumCounts(keys, values);
      a := Some(Analysis(sortedBy, rows, totals, Accuracy(totals)));
    }
  }

  /** After loading a file whose rows all have both columns, the table's
      totals count every row once, right and wrong as predicted. */
  lemma LoadedTotals(recs: seq<Record>, expectedCol: string, predictedCol: string)
    requires AllHaveColumns(recs, expectedCol, predictedCol)
    ensures var pairs := PairsOf(recs, expectedCol, predictedCol);
      var stats := StatsOf(pairs);
      && SumCounts(stats.keys, stats.values).Total() == |recs|
      && SumCounts(stats.keys, stats.values).right == Hits(pairs)
  {
    StatsTotals(PairsOf(recs, expectedCol, predictedCol));
    HitsMisses(PairsOf(recs, expectedCol, predictedCol));
  }
}
