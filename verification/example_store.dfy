/** The example store of the paraphrase generator (generate_paraphrases.py,
    lines 45-102): the ordered list of tags to work on, the tag -> example
    questions index, the tag -> answer lookup, and the bounded draw of
    examples for one tag. */
module ExampleStore {
  import opened Common
  import opened Strings
  import Sorting

  /** The placeholder tag that is never processed. */
  const ExcludedTag: string := "fraction"

  /** A row of the examples file (`question`, `tag` columns). */
  datatype ExampleRow = ExampleRow(question: string, tag: string)

  /** A row of the answers file (`tag`, `answer` columns). */
  datatype AnswerRow = AnswerRow(tag: string, answer: string)

  // ---------------------------------------------------------------------
  // The work list: get_unique_tags_from_questions

  /** The tag of `r` counts as a work item: its stripped tag is neither empty
      nor the placeholder. */
  predicate ListsTag(r: ExampleRow) {
    Strip(r.tag) != "" && Strip(r.tag) != ExcludedTag
  }

  /** The set of stripped tags the work list is built from. */
  function TagSet(rows: seq<ExampleRow>): set<string> {
    set r | r in rows && ListsTag(r) :: Strip(r.tag)
  }

  /** `e` enumerates `s`, each member once: what `list(s)` yields, in an order
      Python takes from string hashes. */
  ghost predicate IsListing(e: seq<string>, s: set<string>) {
    Distinct(e) && (forall x :: x in e <==> x in s)
  }

  /** What every work list promises: the tags of the rows, each once, none
      empty, none the placeholder, none with surrounding whitespace, in
      ascending order of their lower-cased spelling. */
  ghost predicate IsWorkList(tags: seq<string>, rows: seq<ExampleRow>) {
    && Distinct(tags)
    && (forall t :: t in tags <==> t in TagSet(rows))
    && (forall i | 0 <= i < |tags| :: tags[i] != "" && tags[i] != ExcludedTag && Strip(tags[i]) == tags[i])
    && Sorting.Sorted(tags, Sorting.LowerLess)
  }

  lemma TagSetMembers(rows: seq<ExampleRow>, t: string)
    requires t in TagSet(rows)
    ensures t != "" && t != ExcludedTag && Strip(t) == t
  {
    var r :| r in rows && ListsTag(r) && Strip(r.tag) == t;
    StripIdempotent(r.tag);
  }

  /** A sort of a listing of the tag set is a work list. */
  lemma SortedListingIsWorkList(rows: seq<ExampleRow>, e: seq<string>, less: (string, string) -> bool)
    requires IsListing(e, TagSet(rows))
    requires Sorting.StrictWeakOrder(less) && Sorting.Sorted(Sorting.Sort(e, less), Sorting.LowerLess)
    ensures IsWorkList(Sorting.Sort(e, less), rows)
  {
    var tags := Sorting.Sort(e, less);
    SameMembers(e, tags);
    DistinctByMultiset(e, tags);
    forall i | 0 <= i < |tags| ensures tags[i] != "" && tags[i] != ExcludedTag && Strip(tags[i]) == tags[i] {
      assert tags[i] in tags;
      TagSetMembers(rows, tags[i]);
    }
  }

  lemma SameMembers<T>(a: seq<T>, b: seq<T>)
    requires multiset(a) == multiset(b)
    ensures forall x :: x in a <==> x in b
  {
    forall x ensures x in a <==> x in b {
      assert x in a <==> x in multiset(a);
      assert x in b <==> x in multiset(b);
    }
  }

  /** Rearranging a list without repetitions gives one without repetitions. */
  lemma DistinctByMultiset<T>(a: seq<T>, b: seq<T>)
    requires Distinct(a) && multiset(a) == multiset(b)
    ensures Distinct(b)
  {
    forall i, j | 0 <= i < j < |b| ensures b[i] != b[j] {
      if b[i] == b[j] {
        assert multiset(b)[b[i]] >= 2 by {
          assert b == b[..i] + [b[i]] + b[i + 1..j] + [b[j]] + b[j + 1..];
        }
        DistinctCount(a, b[i]);
        assert false;
      }
    }
  }

  lemma {:induction false} DistinctCount<T>(e: seq<T>, x: T)
    requires Distinct(e)
    ensures multiset(e)[x] <= 1
  {
    if e != [] {
      assert e == [e[0]] + e[1..];
      DistinctCount(e[1..], x);
      if e[0] == x {
        assert x !in e[1..];
        assert multiset(e[1..])[x] == 0;
      }
    }
  }

  /** `get_unique_tags_from_questions` as written: `sorted(list(set), key=str.lower)`.
      The stable sort keeps tags whose lower-cased spellings are equal in the
      order of `listing`, the set's hash order. */
  function UniqueTagsAsWritten(rows: seq<ExampleRow>, listing: seq<string>): (tags: seq<string>)
    requires IsListing(listing, TagSet(rows))
    ensures IsWorkList(tags, rows)
  {
    Sorting.LowerOrder();
    Sorting.SortSorted(listing, Sorting.LowerLess);
    SortedListingIsWorkList(rows, listing, Sorting.LowerLess);
    Sorting.Sort(listing, Sorting.LowerLess)
  }

  lemma TagSetStep(rows: seq<ExampleRow>, i: nat)
    requires i < |rows|
    ensures TagSet(rows[..i + 1]) == TagSet(rows[..i]) + (if ListsTag(rows[i]) then {Strip(rows[i].tag)} else {})
  {
    assert rows[..i + 1] == rows[..i] + [rows[i]];
  }

  /** The loop that collects the stripped tags into a set. */
  method CollectTags(rows: seq<ExampleRow>) returns (tags: set<string>)
    ensures tags == TagSet(rows)
  {
    tags := {};
    var i := 0;
    while i < |rows|
      invariant 0 <= i <= |rows|
      invariant tags == TagSet(rows[..i])
    {
      TagSetStep(rows, i);
      var tag := Strip(rows[i].tag);
      if tag != "" && tag != ExcludedTag {
        tags := tags + {tag};
      }
      i := i + 1;
    }
    assert rows[..i] == rows;
  }

  /** `list(s)`: the members of `s` in an order the model leaves open. */
  method ListSet(s: set<string>) returns (e: seq<string>)
    ensures IsListing(e, s)
  {
    e := [];
    var rest := s;
    while rest != {}
      invariant rest <= s
      invariant Distinct(e)
      invariant forall x :: x in e <==> x in s && x !in rest
      decreases rest
    {
      var x :| x in rest;
      e := e + [x];
      rest := rest - {x};
    }
  }

  /** `get_unique_tags_from_questions` as written. `listing` is the order in
      which the set was enumerated. */
  method GetUniqueTagsAsWritten(rows: seq<ExampleRow>) returns (tags: seq<string>, listing: seq<string>)
    ensures IsListing(listing, TagSet(rows))
    ensures tags == UniqueTagsAsWritten(rows, listing)
  {
    var found := CollectTags(rows);
    listing := ListSet(found);
    tags := Sorting.Sort(listing, Sorting.LowerLess);
  }

  /** The order intended for the work list: by lower-cased spelling, and
      spellings that lower-case alike by the raw string. */
  predicate TagLess(a: string, b: string) {
    || Sorting.LowerLess(a, b)
    || (Lower(a) == Lower(b) && LexLess(a, b))
  }

  lemma TagLessTotal(a: string, b: string)
    requires a != b
    ensures TagLess(a, b) || TagLess(b, a)
  {
    if Lower(a) == Lower(b) {
      LexLessTotal(a, b);
    } else {
      LexLessTotal(Lower(a), Lower(b));
    }
  }

  lemma TagLessTransitive(a: string, b: string, c: string)
    requires TagLess(a, b) && TagLess(b, c)
    ensures TagLess(a, c)
  {
    if Sorting.LowerLess(a, b) && Sorting.LowerLess(b, c) {
      LexLessTransitive(Lower(a), Lower(b), Lower(c));
    } else if !Sorting.LowerLess(a, b) && !Sorting.LowerLess(b, c) {
      LexLessTransitive(a, b, c);
    }
  }

  lemma TagOrder()
    ensures Sorting.StrictWeakOrder(TagLess)
  {
    forall a: string ensures !TagLess(a, a) {
      LexLessIrreflexive(a);
      LexLessIrreflexive(Lower(a));
    }
    forall a: string, b: string, c: string | TagLess(a, b) && TagLess(b, c) ensures TagLess(a, c) {
      TagLessTransitive(a, b, c);
    }
    forall a: string, b: string, c: string | !TagLess(b, a) && !TagLess(c, b) ensures !TagLess(c, a) {
      if TagLess(c, a) {
        if a != b {
          TagLessTotal(a, b);
          TagLessTransitive(c, a, b);
        }
      }
    }
  }

  /** Sorted by `TagLess` implies sorted by the lower-cased spelling alone. */
  lemma TagSortedIsLowerSorted(s: seq<string>)
    requires Sorting.Sorted(s, TagLess)
    ensures Sorting.Sorted(s, Sorting.LowerLess)
  {
  }

  lemma TagComparable(s: seq<string>)
    ensures Sorting.Comparable(s, TagLess)
  {
    forall i, j | 0 <= i < |s| && 0 <= j < |s| && s[i] != s[j] ensures TagLess(s[i], s[j]) || TagLess(s[j], s[i]) {
      TagLessTotal(s[i], s[j]);
    }
  }

  /** The listed tags in the order of their first row: a listing of `TagSet`
      that depends on the rows alone. */
  function ListedTags(rows: seq<ExampleRow>): (e: seq<string>)
    ensures IsListing(e, TagSet(rows))
  {
    if rows == [] then []
    else
      var init := rows[..|rows| - 1];
      var r := rows[|rows| - 1];
      var e := ListedTags(init);
      assert rows == init + [r];
      assert TagSet(rows) == TagSet(init) + (if ListsTag(r) then {Strip(r.tag)} else {});
      if ListsTag(r) && Strip(r.tag) !in e then e + [Strip(r.tag)] else e
  }

  /** The work list, with ties in the lower-cased spelling broken by the raw
      string, so that it depends on the set of tags alone. */
  function UniqueTags(rows: seq<ExampleRow>): (tags: seq<string>)
    ensures IsWorkList(tags, rows)
  {
    var e := ListedTags(rows);
    TagOrder();
    Sorting.SortSorted(e, TagLess);
    TagSortedIsLowerSorted(Sorting.Sort(e, TagLess));
    SortedListingIsWorkList(rows, e, TagLess);
    Sorting.Sort(e, TagLess)
  }

  /** The work list no longer depends on the order in which the set happens
      to be enumerated. */
  lemma UniqueTagsDeterministic(rows: seq<ExampleRow>, listing: seq<string>)
    requires IsListing(listing, TagSet(rows))
    ensures Sorting.Sort(listing, TagLess) == UniqueTags(rows)
  {
    var e := ListedTags(rows);
    ListingsSameMultiset(listing, e);
    TagOrder();
    TagComparable(listing);
    Sorting.SortDeterminedByElements(listing, e, TagLess);
  }

  /** `get_unique_tags_from_questions` with the intended tie-break: the same
      collection loop, sorted by `TagLess`. */
  method GetUniqueTags(rows: seq<ExampleRow>) returns (tags: seq<string>)
    ensures tags == UniqueTags(rows)
  {
    var found := CollectTags(rows);
    var listing := ListSet(found);
    tags := Sorting.Sort(listing, TagLess);
    UniqueTagsDeterministic(rows, listing);
  }

  /** Without two tags that lower-case alike, the code as written already
      yields the intended list, whatever the hash order. */
  lemma UniqueTagsAgreeWithoutCaseTies(rows: seq<ExampleRow>, listing: seq<string>)
    requires IsListing(listing, TagSet(rows))
    requires forall a, b | a in TagSet(rows) && b in TagSet(rows) && a != b :: Lower(a) != Lower(b)
    ensures UniqueTagsAsWritten(rows, listing) == UniqueTags(rows)
  {
    var w := UniqueTagsAsWritten(rows, listing);
    var u := UniqueTags(rows);
    Sorting.LowerOrder();
    Sorting.SortSorted(listing, Sorting.LowerLess);
    ListingsSameMultiset(w, u);
    forall i, j | 0 <= i < |w| && 0 <= j < |w| && w[i] != w[j]
      ensures Sorting.LowerLess(w[i], w[j]) || Sorting.LowerLess(w[j], w[i])
    {
      assert w[i] in TagSet(rows) && w[j] in TagSet(rows);
      LexLessTotal(Lower(w[i]), Lower(w[j]));
    }
    Sorting.SortedUnique(w, u, Sorting.LowerLess);
  }

  /** The intended work list is also one the code as written can produce:
      the one it yields when the set happens to be enumerated in that order. */
  lemma CorrectedOrderIsOneOutcome(rows: seq<ExampleRow>)
    ensures IsListing(UniqueTags(rows), TagSet(rows))
    ensures UniqueTagsAsWritten(rows, UniqueTags(rows)) == UniqueTags(rows)
  {
    Sorting.SortOfSorted(UniqueTags(rows), Sorting.LowerLess);
  }

  lemma ListingsSameMultiset(a: seq<string>, b: seq<string>)
    requires Distinct(a) && Distinct(b)
    requires forall x :: x in a <==> x in b
    ensures multiset(a) == multiset(b)
  {
    forall x ensures multiset(a)[x] == multiset(b)[x] {
      DistinctCount(a, x);
      DistinctCount(b, x);
      assert x in a <==> x in multiset(a);
      assert x in b <==> x in multiset(b);
    }
  }

  /** Two tags that lower-case alike come out in whichever order the set is
      enumerated, so two runs over the same rows can number the work items
      differently. */
  lemma CaseTiesFollowHashOrder(q1: string, q2: string, a: string, b: string)
    requires a != b && Lower(a) == Lower(b)
    requires a != "" && a != ExcludedTag && Strip(a) == a
    requires b != "" && b != ExcludedTag && Strip(b) == b
    ensures var rows := [ExampleRow(q1, a), ExampleRow(q2, b)];
      && IsListing([a, b], TagSet(rows))
      && IsListing([b, a], TagSet(rows))
      && UniqueTagsAsWritten(rows, [a, b]) == [a, b]
      && UniqueTagsAsWritten(rows, [b, a]) == [b, a]
  {
    var rows := [ExampleRow(q1, a), ExampleRow(q2, b)];
    PairTagSet(q1, q2, a, b);
    PairSortedAsGiven(a, b);
    PairSortedAsGiven(b, a);
  }

  lemma PairTagSet(q1: string, q2: string, a: string, b: string)
    requires a != "" && a != ExcludedTag && Strip(a) == a
    requires b != "" && b != ExcludedTag && Strip(b) == b
    ensures TagSet([ExampleRow(q1, a), ExampleRow(q2, b)]) == {a, b}
  {
    var rows := [ExampleRow(q1, a), ExampleRow(q2, b)];
    assert ListsTag(rows[0]) && ListsTag(rows[1]);
    assert forall r | r in rows :: r == rows[0] || r == rows[1];
  }

  /** Tied tags stay in the order they are listed in. */
  lemma PairSortedAsGiven(a: string, b: string)
    requires Lower(a) == Lower(b)
    ensures Sorting.Sort([a, b], Sorting.LowerLess) == [a, b]
  {
    LexLessIrreflexive(Lower(a));
    assert [a, b][1..] == [b];
    assert Sorting.Sort([b], Sorting.LowerLess) == [b];
  }

  /** "Vote" and "vote" are such a pair. */
  lemma VoteTie()
    ensures Lower("Vote") == Lower("vote") && "Vote" != "vote"
    ensures Strip("Vote") == "Vote" && Strip("vote") == "vote"
  {
    assert Lower("Vote") == "vote" by {
      assert LowerChar('V') == 'v';
    }
    assert Lower("vote") == "vote";
    StripKeeps("Vote");
    StripKeeps("vote");
  }

  // ---------------------------------------------------------------------
  // The examples index: load_example_questions

  /** `load_example_questions` stores a row unless its raw tag is the
      placeholder or its stripped question is empty. */
  predicate KeepsExample(r: ExampleRow) {
    r.tag != ExcludedTag && Strip(r.question) != ""
  }

  /** The stripped questions stored under the raw tag `tag`, in row order. */
  function QuestionsFor(rows: seq<ExampleRow>, tag: string): seq<string> {
    if rows == [] then []
    else
      var r := rows[|rows| - 1];
      QuestionsFor(rows[..|rows| - 1], tag) + (if KeepsExample(r) && r.tag == tag then [Strip(r.question)] else [])
  }

  /** Some stored row carries exactly the raw tag `tag`. */
  ghost predicate HasExamples(rows: seq<ExampleRow>, tag: string) {
    exists i | 0 <= i < |rows| :: KeepsExample(rows[i]) && rows[i].tag == tag
  }

  lemma {:induction false} QuestionsForEmpty(rows: seq<ExampleRow>, tag: string)
    ensures QuestionsFor(rows, tag) == [] <==> !HasExamples(rows, tag)
  {
    if rows != [] {
      var n := |rows| - 1;
      var init := rows[..n];
      QuestionsForEmpty(init, tag);
      if !(KeepsExample(rows[n]) && rows[n].tag == tag) {
        assert forall i | 0 <= i < n :: init[i] == rows[i];
      }
    }
  }

  lemma QuestionsForStep(rows: seq<ExampleRow>, i: nat, tag: string)
    requires i < |rows|
    ensures QuestionsFor(rows[..i + 1], tag)
         == QuestionsFor(rows[..i], tag) + (if KeepsExample(rows[i]) && rows[i].tag == tag then [Strip(rows[i].question)] else [])
    ensures HasExamples(rows[..i + 1], tag)
       <==> HasExamples(rows[..i], tag) || (KeepsExample(rows[i]) && rows[i].tag == tag)
  {
    assert rows[..i + 1][..i] == rows[..i];
    assert forall k | 0 <= k < i :: rows[..i + 1][k] == rows[..i][k];
  }

  /** `byTag` is the index of `rows`: a key for every raw tag with stored
      questions, holding exactly those questions. */
  ghost predicate Indexes(byTag: map<string, seq<string>>, rows: seq<ExampleRow>) {
    && (forall t :: t in byTag <==> HasExamples(rows, t))
    && (forall t | t in byTag :: byTag[t] == QuestionsFor(rows, t))
  }

  lemma IndexSkip(byTag: map<string, seq<string>>, rows: seq<ExampleRow>, i: nat)
    requires i < |rows| && Indexes(byTag, rows[..i]) && !KeepsExample(rows[i])
    ensures Indexes(byTag, rows[..i + 1])
  {
    forall t {
      QuestionsForStep(rows, i, t);
    }
  }

  lemma IndexAdd(byTag: map<string, seq<string>>, rows: seq<ExampleRow>, i: nat)
    requires i < |rows| && Indexes(byTag, rows[..i]) && KeepsExample(rows[i])
    ensures var tag := rows[i].tag;
      var stored := if tag in byTag then byTag[tag] else [];
      Indexes(byTag[tag := stored + [Strip(rows[i].question)]], rows[..i + 1])
  {
    var tag := rows[i].tag;
    var q := Strip(rows[i].question);
    var stored := if tag in byTag then byTag[tag] else [];
    var next := byTag[tag := stored + [q]];
    forall t
      ensures t in next <==> HasExamples(rows[..i + 1], t)
      ensures t in next ==> next[t] == QuestionsFor(rows[..i + 1], t)
    {
      QuestionsForStep(rows, i, t);
      if t == tag && tag !in byTag {
        QuestionsForEmpty(rows[..i], tag);
      }
    }
  }

  /** Builds the tag -> questions index the way the source's loop does. */
  method LoadExampleQuestions(rows: seq<ExampleRow>) returns (byTag: map<string, seq<string>>)
    ensures forall t :: t in byTag <==> HasExamples(rows, t)
    ensures forall t | t in byTag :: byTag[t] == QuestionsFor(rows, t) && byTag[t] != []
  {
    byTag := map[];
    var i := 0;
    while i < |rows|
      invariant 0 <= i <= |rows|
      invariant Indexes(byTag, rows[..i])
    {
      var row := rows[i];
      if row.tag == ExcludedTag {
        IndexSkip(byTag, rows, i);
        i := i + 1;
        continue;
      }
      if Strip(row.question) == "" {
        IndexSkip(byTag, rows, i);
        i := i + 1;
        continue;
      }
      IndexAdd(byTag, rows, i);
      var stored := if row.tag in byTag then byTag[row.tag] else [];
      byTag := byTag[row.tag := stored + [Strip(row.question)]];
      i := i + 1;
    }
    assert rows[..i] == rows;
    forall t | t in byTag ensures byTag[t] != [] {
      QuestionsForEmpty(rows, t);
    }
  }

  /** The discrepancy between the two loaders: the work list strips tags, the
      index keys on the raw tag, so a tag written with surrounding spaces is
      listed for work but has no examples under its listed name. */
  lemma PaddedTagListedWithoutExamples(q: string, t: string)
    requires t != "" && t != ExcludedTag && Strip(t) == t
    ensures var rows := [ExampleRow(q, " " + t)];
      && t in TagSet(rows)
      && !HasExamples(rows, t)
      && QuestionsFor(rows, t) == []
  {
    var rows := [ExampleRow(q, " " + t)];
    assert (" " + t)[1..] == t;
    assert LStrip(" " + t) == LStrip(t);
    assert Strip(" " + t) == t;
    assert ListsTag(rows[0]);
    assert rows[0].tag != t;
    QuestionsForEmpty(rows, t);
  }

  // ---------------------------------------------------------------------
  // The answers lookup: load_answers_lookup

  /** Builds tag -> answer keyed on the raw tag; a later row for the same tag
      replaces an earlier one. */
  method LoadAnswersLookup(rows: seq<AnswerRow>) returns (answers: map<string, string>)
    ensures forall t :: t in answers <==> exists i | 0 <= i < |rows| :: rows[i].tag == t
    ensures forall t | t in answers :: exists i | 0 <= i < |rows| ::
      && rows[i].tag == t && answers[t] == rows[i].answer
      && forall j | i < j < |rows| :: rows[j].tag != t
  {
    answers := map[];
    var i := 0;
    while i < |rows|
      invariant 0 <= i <= |rows|
      invariant forall t :: t in answers <==> exists k | 0 <= k < i :: rows[k].tag == t
      invariant forall t | t in answers :: exists k | 0 <= k < i ::
        && rows[k].tag == t && answers[t] == rows[k].answer
        && forall j | k < j < i :: rows[j].tag != t
    {
      answers := answers[rows[i].tag := rows[i].answer];
      i := i + 1;
    }
  }

  // ---------------------------------------------------------------------
  // Drawing examples: get_random_examples

  /** `r` holds `k` of the elements of `s`, none more often than `s` does:
      what `random.sample(s, k)` may return. */
  ghost predicate IsSampleOf(r: seq<string>, s: seq<string>, k: nat) {
    |r| == k && multiset(r) <= multiset(s)
  }

  /** At most `k` examples for `tag`: all of them when there are that few,
      otherwise `k` of them drawn without replacement. `choose(i) % n` stands
      for the random pick of the `i`-th draw among the `n` examples left. */
  method GetRandomExamples(byTag: map<string, seq<string>>, tag: string, k: nat, choose: nat -> nat)
    returns (r: seq<string>)
    ensures tag !in byTag ==> r == []
    ensures tag in byTag && |byTag[tag]| <= k ==> r == byTag[tag]
    ensures tag in byTag && |byTag[tag]| > k ==> IsSampleOf(r, byTag[tag], k)
  {
    if tag !in byTag {
      return [];
    }
    var available := byTag[tag];
    if |available| <= k {
      return available;
    }
    var pool := available;
    r := [];
    var i := 0;
    while i < k
      invariant 0 <= i <= k
      invariant |r| == i && |pool| == |available| - i
      invariant multiset(r) + multiset(pool) == multiset(available)
    {
      var j := choose(i) % |pool|;
      assert pool == pool[..j] + [pool[j]] + pool[j + 1..];
      r := r + [pool[j]];
      pool := pool[..j] + pool[j + 1..];
      i := i + 1;
    }
  }
}
