/** Tagging groups of queries (query_tag_processor.py): every group id gets a
    tag from the language model's reply, cleaned to lower-case letters,
    digits and underscores, made unique with a numeric suffix, and the
    queries and answers are then split into a query/tag file and a tag/answer
    file. */
module QueryTags {
  import opened Common
  import opened Strings
  import opened Paths
  import opened Grouping

  // ---------------------------------------------------------------------
  // Cleaning the reply into a tag

  predicate TagChar(c: char) {
    IsAlnum(c) || c == '_'
  }

  /** `"".join(c if c.isalnum() or c == '_' else '' for c in s)` */
  function KeepTagChars(s: string): (r: string)
    ensures forall i | 0 <= i < |r| :: TagChar(r[i]) && r[i] in s
  {
    if s == [] then []
    else (if TagChar(s[0]) then [s[0]] else []) + KeepTagChars(s[1..])
  }

  /** The cleaning chain of `_generate_tag_for_group`: strip, lower-case,
      spaces and hyphens to underscores, drop every other character that is
      not a letter, digit or underscore, strip underscores. */
  function CleanTag(content: string): string {
    var t := ReplaceChar(ReplaceChar(Lower(Strip(content)), ' ', '_'), '-', '_');
    StripChars(KeepTagChars(t), {'_'})
  }

  /** A cleaned tag holds only lower-case letters, digits and underscores,
      and neither starts nor ends with an underscore. */
  lemma CleanTagShape(content: string)
    ensures forall i | 0 <= i < |CleanTag(content)| ::
      TagChar(CleanTag(content)[i]) && !IsAsciiUpper(CleanTag(content)[i])
    ensures CleanTag(content) != [] ==>
      CleanTag(content)[0] != '_' && CleanTag(content)[|CleanTag(content)| - 1] != '_'
  {
    var t := ReplaceChar(ReplaceChar(Lower(Strip(content)), ' ', '_'), '-', '_');
    var k := KeepTagChars(t);
    var r := CleanTag(content);
    StripCharsEnds(k, {'_'});
    forall i | 0 <= i < |r| ensures TagChar(r[i]) && !IsAsciiUpper(r[i]) {
      StripCharsSub(k, {'_'}, r[i]);
      var j :| 0 <= j < |k| && k[j] == r[i];
      var m :| 0 <= m < |t| && t[m] == k[j];
    }
  }

  lemma {:induction false} KeepTagCharsKeeps(s: string)
    requires forall i | 0 <= i < |s| :: TagChar(s[i])
    ensures KeepTagChars(s) == s
  {
    if s != [] {
      KeepTagCharsKeeps(s[1..]);
      assert s == [s[0]] + s[1..];
    }
  }

  /** Cleaning a cleaned tag changes nothing. */
  lemma CleanTagIdempotent(content: string)
    ensures CleanTag(CleanTag(content)) == CleanTag(content)
  {
    var r := CleanTag(content);
    CleanTagShape(content);
    StripKeeps(r);
    assert Lower(r) == r;
    assert ReplaceChar(r, ' ', '_') == r;
    assert ReplaceChar(r, '-', '_') == r;
    KeepTagCharsKeeps(r);
    StripCharsKeeps(r, {'_'});
  }

  /** What the chat service gave back for a group: the message content, or
      a failure (an exception, or no content). */
  datatype TagReply = Content(text: string) | Failed

  /** The tag proposed for a group: the cleaned reply, or `tag_<id>` when the
      call failed or nothing is left after cleaning. */
  function TagForGroup(groupId: string, reply: TagReply): (tag: string)
    ensures tag != ""
    ensures reply.Content? && CleanTag(reply.text) != "" ==> tag == CleanTag(reply.text)
    ensures reply.Failed? || CleanTag(reply.text) == "" ==> tag == "tag_" + groupId
  {
    match reply
    case Failed => "tag_" + groupId
    case Content(text) =>
      var tag := CleanTag(text);
      if tag == "" then "tag_" + groupId else tag
  }

  // ---------------------------------------------------------------------
  // Making a tag unique

  /** The `k`-th name tried for `tag`: the tag itself, then `<tag>_<k>`. */
  function TagCandidate(tag: string, k: nat): string {
    if k == 0 then tag else tag + "_" + NatToString(k)
  }

  lemma TagCandidateInjective(tag: string, a: nat, b: nat)
    requires TagCandidate(tag, a) == TagCandidate(tag, b)
    ensures a == b
  {
    if a != 0 && b != 0 {
      assert TagCandidate(tag, a)[|tag| + 1..] == NatToString(a);
      assert TagCandidate(tag, b)[|tag| + 1..] == NatToString(b);
      NatToStringInjective(a, b);
    }
  }

  ghost function Tried(tag: string, k: nat): set<string> {
    set j | 0 <= j < k :: TagCandidate(tag, j)
  }

  lemma {:induction false} TriedSize(tag: string, k: nat)
    ensures |Tried(tag, k)| == k
  {
    if k > 0 {
      TriedSize(tag, k - 1);
      assert Tried(tag, k) == Tried(tag, k - 1) + {TagCandidate(tag, k - 1)};
      if TagCandidate(tag, k - 1) in Tried(tag, k - 1) {
        var j :| 0 <= j < k - 1 && TagCandidate(tag, j) == TagCandidate(tag, k - 1);
        TagCandidateInjective(tag, j, k - 1);
      }
    }
  }

  /** The names tried so far are all taken, so there are no more of them
      than taken names. */
  lemma TriedBound(tag: string, used: set<string>, k: nat)
    requires forall j | 0 <= j < k :: TagCandidate(tag, j) in used
    ensures k <= |used|
  {
    TriedSize(tag, k);
    var t := Tried(tag, k);
    assert t <= used;
    assert (used - t) * t == {};
    assert used == (used - t) + t;
  }

  /** The first free name from the `k`-th on. */
  function FreshTagFrom(tag: string, used: set<string>, k: nat): string
    requires forall j | 0 <= j < k :: TagCandidate(tag, j) in used
    decreases |used| - k
  {
    if TagCandidate(tag, k) !in used then TagCandidate(tag, k)
    else
      TriedBound(tag, used, k + 1);
      FreshTagFrom(tag, used, k + 1)
  }

  /** `tag` if it is free, else `<tag>_<k>` for the least `k` that is. */
  function FreshTag(tag: string, used: set<string>): string {
    FreshTagFrom(tag, used, 0)
  }

  /** The `k`-th name is free and every earlier one is taken. */
  ghost predicate LeastFree(tag: string, used: set<string>, k: nat) {
    TagCandidate(tag, k) !in used && forall j | 0 <= j < k :: TagCandidate(tag, j) in used
  }

  lemma {:induction false} FreshTagFromSpec(tag: string, used: set<string>, k: nat)
    requires forall j | 0 <= j < k :: TagCandidate(tag, j) in used
    ensures exists m :: LeastFree(tag, used, m) && FreshTagFrom(tag, used, k) == TagCandidate(tag, m)
    decreases |used| - k
  {
    if TagCandidate(tag, k) !in used {
      assert LeastFree(tag, used, k);
    } else {
      TriedBound(tag, used, k + 1);
      FreshTagFromSpec(tag, used, k + 1);
    }
  }

  lemma {:induction false} FreshTagFromFree(tag: string, used: set<string>, k: nat)
    requires forall j | 0 <= j < k :: TagCandidate(tag, j) in used
    ensures FreshTagFrom(tag, used, k) !in used
    decreases |used| - k
  {
    if TagCandidate(tag, k) in used {
      TriedBound(tag, used, k + 1);
      FreshTagFromFree(tag, used, k + 1);
    }
  }

  /** The unique tag is free, and is the tag itself when that is free, else
      the tag with the least numeric suffix that is free. */
  lemma FreshTagSpec(tag: string, used: set<string>)
    ensures FreshTag(tag, used) !in used
    ensures tag !in used ==> FreshTag(tag, used) == tag
    ensures exists m :: LeastFree(tag, used, m) && FreshTag(tag, used) == TagCandidate(tag, m)
  {
    FreshTagFromFree(tag, used, 0);
    FreshTagFromSpec(tag, used, 0);
  }

  /** The `while tag in used_tags` loop of `generate_tags`. */
  method UniqueTag(original: string, used: set<string>) returns (tag: string)
    ensures tag == FreshTag(original, used)
  {
    tag := original;
    var counter := 1;
    while tag in used
      invariant counter >= 1
      invariant tag == TagCandidate(original, counter - 1)
      invariant forall j | 0 <= j < counter - 1 :: TagCandidate(original, j) in used
      invariant FreshTagFrom(original, used, counter - 1) == FreshTag(original, used)
      decreases |used| - counter
    {
      TriedBound(original, used, counter);
      tag := original + "_" + NatToString(counter);
      counter := counter + 1;
    }
  }

  // ---------------------------------------------------------------------
  // The tags of all groups

  function SetOf(s: seq<string>): set<string> {
    set x | x in s
  }

  /** The tags assigned to the groups `ids`, in order, the `i`-th group's
      reply being `replies(i)`. */
  function AssignTags(ids: seq<string>, replies: nat -> TagReply): (tags: seq<string>)
    ensures |tags| == |ids|
  {
    if ids == [] then []
    else
      var n := |ids| - 1;
      var before := AssignTags(ids[..n], replies);
      before + [FreshTag(TagForGroup(ids[n], replies(n)), SetOf(before))]
  }

  /** Assigned tags are pairwise distinct. */
  lemma {:induction false} AssignTagsDistinct(ids: seq<string>, replies: nat -> TagReply)
    ensures Distinct(AssignTags(ids, replies))
  {
    if ids != [] {
      var n := |ids| - 1;
      var before := AssignTags(ids[..n], replies);
      var proposed := TagForGroup(ids[n], replies(n));
      AssignTagsDistinct(ids[..n], replies);
      FreshTagFromFree(proposed, SetOf(before), 0);
      forall i | 0 <= i < n ensures before[i] != FreshTag(proposed, SetOf(before)) {
        assert before[i] in SetOf(before);
      }
    }
  }

  /** Each group's tag is its proposed tag made unique against the tags of
      the groups before it. */
  lemma {:induction false} AssignTagsFresh(ids: seq<string>, replies: nat -> TagReply)
    ensures forall i | 0 <= i < |ids| ::
      AssignTags(ids, replies)[i] == FreshTag(TagForGroup(ids[i], replies(i)), SetOf(AssignTags(ids, replies)[..i]))
  {
    if ids != [] {
      var n := |ids| - 1;
      var before := AssignTags(ids[..n], replies);
      var tags := AssignTags(ids, replies);
      AssignTagsFresh(ids[..n], replies);
      assert tags[..n] == before;
      forall i | 0 <= i < n
        ensures tags[i] == FreshTag(TagForGroup(ids[i], replies(i)), SetOf(tags[..i]))
      {
        assert ids[..n][i] == ids[i];
        assert before[..i] == tags[..i];
      }
    }
  }

  /** `d[k] = v` for each key and value in turn. */
  function PutAll(d: Dict<string, string>, ks: seq<string>, vs: seq<string>): (r: Dict<string, string>)
    requires |ks| == |vs|
    ensures d.Valid() ==> r.Valid()
  {
    if ks == [] then d
    else
      var n := |ks| - 1;
      PutAll(d, ks[..n], vs[..n]).Put(ks[n], vs[n])
  }

  /** The keys afterwards are the keys before and the keys put. */
  lemma {:induction false} PutAllKeys(d: Dict<string, string>, ks: seq<string>, vs: seq<string>)
    requires |ks| == |vs|
    ensures forall x :: x in PutAll(d, ks, vs).values <==> x in d.values || x in ks
  {
    if ks != [] {
      var n := |ks| - 1;
      PutAllKeys(d, ks[..n], vs[..n]);
      assert ks == ks[..n] + [ks[n]];
    }
  }

  /** With distinct keys, each key holds the value put with it. */
  lemma {:induction false} PutAllValues(d: Dict<string, string>, ks: seq<string>, vs: seq<string>)
    requires |ks| == |vs| && Distinct(ks)
    ensures forall i | 0 <= i < |ks| :: ks[i] in PutAll(d, ks, vs).values && PutAll(d, ks, vs).values[ks[i]] == vs[i]
  {
    if ks != [] {
      var n := |ks| - 1;
      PutAllValues(d, ks[..n], vs[..n]);
      forall i | 0 <= i < n
        ensures ks[i] in PutAll(d, ks, vs).values && PutAll(d, ks, vs).values[ks[i]] == vs[i]
      {
        assert ks[..n][i] == ks[i] && vs[..n][i] == vs[i];
      }
    }
  }

  /** Starting from an empty dictionary, the keys come out in order. */
  lemma {:induction false} PutAllFreshKeys(d: Dict<string, string>, ks: seq<string>, vs: seq<string>)
    requires |ks| == |vs| && Distinct(ks) && d.keys == [] && d.values == map[]
    ensures PutAll(d, ks, vs).keys == ks
  {
    if ks != [] {
      var n := |ks| - 1;
      var before := PutAll(d, ks[..n], vs[..n]);
      PutAllFreshKeys(d, ks[..n], vs[..n]);
      PutAllKeys(d, ks[..n], vs[..n]);
      assert ks[n] !in ks[..n];
      assert ks[n] !in before.values;
      assert PutAll(d, ks, vs) == before.Put(ks[n], vs[n]);
      assert ks == ks[..n] + [ks[n]];
    }
  }

  /** `query_tags`: each kept query mapped to its group's tag, a query that
      recurs keeping its first position and its last group's tag. */
  function QueryTagsOf(data: seq<Item>, tagOf: map<string, string>): (d: Dict<string, string>)
    requires forall k | 0 <= k < |data| :: data[k].id in tagOf
    ensures d.Valid()
  {
    if data == [] then EmptyDict()
    else
      var n := |data| - 1;
      QueryTagsOf(data[..n], tagOf).Put(data[n].query, tagOf[data[n].id])
  }

  ghost predicate Answered(keys: seq<string>, answers: map<string, string>) {
    forall k | 0 <= k < |keys| :: keys[k] in answers
  }

  /** `tag_answer`: for each group in `id_to_tag` order, its tag mapped to
      its answer. */
  function TagAnswersOf(keys: seq<string>, tagOf: map<string, string>, answers: map<string, string>): (d: Dict<string, string>)
    requires forall k | 0 <= k < |keys| :: keys[k] in tagOf
    requires Answered(keys, answers)
    ensures d.Valid()
  {
    if keys == [] then EmptyDict()
    else
      var n := |keys| - 1;
      TagAnswersOf(keys[..n], tagOf, answers).Put(tagOf[keys[n]], answers[keys[n]])
  }

  /** No item after `items[k]` has its query. */
  ghost predicate LastOfQuery(items: seq<Item>, k: int) {
    0 <= k < |items| && forall j | k < j < |items| :: items[j].query != items[k].query
  }

  /** The keys of `query_tags` are exactly the kept queries. */
  lemma {:induction false} QueryTagsKeys(data: seq<Item>, tagOf: map<string, string>)
    requires forall k | 0 <= k < |data| :: data[k].id in tagOf
    ensures QueryTagsOf(data, tagOf).values.Keys == set k | 0 <= k < |data| :: data[k].query
  {
    if data != [] {
      var n := |data| - 1;
      var init := data[..n];
      QueryTagsKeys(init, tagOf);
      assert (set k | 0 <= k < |data| :: data[k].query) == (set k | 0 <= k < n :: init[k].query) + {data[n].query} by {
        forall k | 0 <= k < n ensures init[k] == data[k] { }
      }
    }
  }

  /** A query kept more than once carries the tag of the last group it was
      kept in. */
  lemma {:induction false} QueryTagsLast(data: seq<Item>, tagOf: map<string, string>, k: nat)
    requires forall k | 0 <= k < |data| :: data[k].id in tagOf
    requires LastOfQuery(data, k)
    ensures data[k].query in QueryTagsOf(data, tagOf).values
    ensures QueryTagsOf(data, tagOf).values[data[k].query] == tagOf[data[k].id]
  {
    var n := |data| - 1;
    if k < n {
      var init := data[..n];
      assert init[k] == data[k];
      assert LastOfQuery(init, k);
      QueryTagsLast(init, tagOf, k);
    }
  }

  /** With distinct tags, `tag_answer` has one entry per group, in group
      order, holding the group's answer. */
  lemma {:induction false} TagAnswersOnePerGroup(keys: seq<string>, tagOf: map<string, string>, answers: map<string, string>)
    requires forall k | 0 <= k < |keys| :: keys[k] in tagOf
    requires Answered(keys, answers)
    requires forall i, j | 0 <= i < j < |keys| :: tagOf[keys[i]] != tagOf[keys[j]]
    ensures |TagAnswersOf(keys, tagOf, answers).keys| == |keys|
    ensures forall i | 0 <= i < |keys| ::
      && TagAnswersOf(keys, tagOf, answers).keys[i] == tagOf[keys[i]]
      && TagAnswersOf(keys, tagOf, answers).values[tagOf[keys[i]]] == answers[keys[i]]
  {
    if keys != [] {
      var n := |keys| - 1;
      var init := keys[..n];
      forall i | 0 <= i < n ensures init[i] == keys[i] { }
      TagAnswersOnePerGroup(init, tagOf, answers);
      var before := TagAnswersOf(init, tagOf, answers);
      var t := tagOf[keys[n]];
      assert t !in before.values by {
        forall i | 0 <= i < n ensures before.keys[i] != t { }
      }
      var d := TagAnswersOf(keys, tagOf, answers);
      assert d == before.Put(t, answers[keys[n]]);
      assert d.keys == before.keys + [t] && d.values == before.values[t := answers[keys[n]]];
      forall i | 0 <= i < n
        ensures d.keys[i] == tagOf[keys[i]] && d.values[tagOf[keys[i]]] == answers[keys[i]]
      {
        assert tagOf[keys[i]] != t;
      }
    }
  }

  // ---------------------------------------------------------------------
  // The loops of generate_tags and split_to_csv_files

  /** Assigns the groups `ids` their unique tags in order, recording each in
      `idToTag`. */
  method AssignAll(ids: seq<string>, replies: nat -> TagReply, idToTag0: Dict<string, string>)
    returns (idToTag: Dict<string, string>)
    ensures idToTag == PutAll(idToTag0, ids, AssignTags(ids, replies))
  {
    idToTag := idToTag0;
    var used: set<string> := {};
    ghost var tags: seq<string> := [];
    var i := 0;
    while i < |ids|
      invariant 0 <= i <= |ids|
      invariant tags == AssignTags(ids[..i], replies)
      invariant used == SetOf(tags)
      invariant idToTag == PutAll(idToTag0, ids[..i], tags)
    {
      assert ids[..i + 1][..i] == ids[..i];
      var tag := TagForGroup(ids[i], replies(i));
      tag := UniqueTag(tag, used);
      used := used + {tag};
      idToTag := idToTag.Put(ids[i], tag);
      assert (tags + [tag])[..i] == tags;
      tags := tags + [tag];
      i := i + 1;
    }
    assert ids[..i] == ids;
  }

  /** Builds `query_tags` from the kept rows. */
  method BuildQueryTags(data: seq<Item>, tagOf: map<string, string>) returns (queryTags: Dict<string, string>)
    requires forall k | 0 <= k < |data| :: data[k].id in tagOf
    ensures queryTags == QueryTagsOf(data, tagOf)
  {
    queryTags := EmptyDict();
    var j := 0;
    while j < |data|
      invariant 0 <= j <= |data|
      invariant queryTags == QueryTagsOf(data[..j], tagOf)
    {
      assert data[..j + 1][..j] == data[..j];
      queryTags := queryTags.Put(data[j].query, tagOf[data[j].id]);
      j := j + 1;
    }
    assert data[..j] == data;
  }

  datatype TagError = NoData | NoTags | UnknownGroup(id: string)

  /** Builds `tag_answer` in `id_to_tag` order; a group without an answer
      stops it with the `KeyError` of `id_to_answer[group_id]`, leaving the
      entries of the groups before it. */
  method BuildTagAnswers(keys: seq<string>, tagOf: map<string, string>, answers: map<string, string>)
    returns (tagAnswer: Dict<string, string>, err: Option<TagError>)
    requires forall k | 0 <= k < |keys| :: keys[k] in tagOf
    ensures err.None? <==> Answered(keys, answers)
    ensures err.None? ==> tagAnswer == TagAnswersOf(keys, tagOf, answers)
    ensures err.Some? ==> exists k | 0 <= k < |keys| ::
      && err.value == UnknownGroup(keys[k])
      && keys[k] !in answers
      && Answered(keys[..k], answers)
      && tagAnswer == TagAnswersOf(keys[..k], tagOf, answers)
  {
    tagAnswer := EmptyDict();
    var m := 0;
    while m < |keys|
      invariant 0 <= m <= |keys|
      invariant Answered(keys[..m], answers)
      invariant tagAnswer == TagAnswersOf(keys[..m], tagOf, answers)
    {
      assert keys[..m + 1][..m] == keys[..m];
      if keys[m] !in answers {
        return tagAnswer, Some(UnknownGroup(keys[m]));
      }
      tagAnswer := tagAnswer.Put(tagOf[keys[m]], answers[keys[m]]);
      m := m + 1;
    }
    assert keys[..m] == keys;
    err := None;
  }

  /** The rows of `queries_tags.csv`: each kept query next to its group's
      tag; a group without a tag stops it with a `KeyError`. */
  method QueryTagRows(data: seq<Item>, tagOf: map<string, string>)
    returns (r: Result<seq<(string, string)>, TagError>)
    ensures r.Ok? <==> forall k | 0 <= k < |data| :: data[k].id in tagOf
    ensures r.Ok? ==>
      && |r.value| == |data|
      && forall k | 0 <= k < |data| :: r.value[k] == (data[k].query, tagOf[data[k].id])
    ensures r.Err? ==> exists k | 0 <= k < |data| ::
      r.error == UnknownGroup(data[k].id) && data[k].id !in tagOf
  {
    var rows: seq<(string, string)> := [];
    var k := 0;
    while k < |data|
      invariant 0 <= k <= |data|
      invariant forall j | 0 <= j < k :: data[j].id in tagOf
      invariant |rows| == k && forall j | 0 <= j < k :: rows[j] == (data[j].query, tagOf[data[j].id])
    {
      if data[k].id !in tagOf {
        return Err(UnknownGroup(data[k].id));
      }
      rows := rows + [(data[k].query, tagOf[data[k].id])];
      k := k + 1;
    }
    r := Ok(rows);
  }

  /** The rows of `tags_answers.csv`: the entries of `tag_answer` in order. */
  method TagAnswerRows(tagAnswer: Dict<string, string>) returns (rows: seq<(string, string)>)
    requires tagAnswer.Valid()
    ensures |rows| == |tagAnswer.keys|
    ensures forall k | 0 <= k < |rows| :: rows[k] == (tagAnswer.keys[k], tagAnswer.values[tagAnswer.keys[k]])
  {
    rows := [];
    var k := 0;
    while k < |tagAnswer.keys|
      invariant 0 <= k <= |tagAnswer.keys|
      invariant |rows| == k
      invariant forall j | 0 <= j < k :: rows[j] == (tagAnswer.keys[j], tagAnswer.values[tagAnswer.keys[j]])
    {
      var tag := tagAnswer.keys[k];
      rows := rows + [(tag, tagAnswer.values[tag])];
      k := k + 1;
    }
  }

  /** The two files `split_to_csv_files` writes, with their paths. */
  datatype SplitOutput = SplitOutput(
    queriesTagsPath: string, queriesTags: CsvFile,
    tagsAnswersPath: string, tagsAnswers: CsvFile)

  /** After tagging the groups of `data` on top of `idToTag0`, every row's
      group has a tag, and every tagged group has an answer unless
      `idToTag0` held a group without one. */
  lemma TaggedGroups(data: seq<Item>, idToQueries: Dict<string, seq<string>>, idToAnswer: map<string, string>,
                     idToTag0: Dict<string, string>, replies: nat -> TagReply)
    requires GroupsOf(data, idToQueries, idToAnswer) && idToTag0.Valid()
    ensures var idToTag := PutAll(idToTag0, idToQueries.keys, AssignTags(idToQueries.keys, replies));
      && idToTag.Valid()
      && (forall k | 0 <= k < |data| :: data[k].id in idToTag.values)
      && (forall k | 0 <= k < |idToTag.keys| :: idToTag.keys[k] in idToTag.values)
      && ((forall id | id in idToTag0.values :: id in idToAnswer) ==> Answered(idToTag.keys, idToAnswer))
  {
    var ids := idToQueries.keys;
    var idToTag := PutAll(idToTag0, ids, AssignTags(ids, replies));
    PutAllKeys(idToTag0, ids, AssignTags(ids, replies));
    FirstIdsSpec(data);
    forall k | 0 <= k < |data| ensures data[k].id in ids {
      FirstAnswerIsFirst(data, data[k].id);
    }
  }

  /** The outcome of `generate_tags` on loaded groups: the new tags put over
      the old ones in group order, `query_tags` built from them, and
      `tag_answer` built until the first tagged group without an answer. */
  ghost predicate Tagged(data: seq<Item>, idToQueries: Dict<string, seq<string>>, idToAnswer: map<string, string>,
                         idToTag0: Dict<string, string>, replies: nat -> TagReply,
                         idToTag: Dict<string, string>, queryTags: Dict<string, string>, tagAnswer: Dict<string, string>,
                         r: Result<Dict<string, string>, TagError>)
  {
    && idToTag.Valid()
    && idToTag == PutAll(idToTag0, idToQueries.keys, AssignTags(idToQueries.keys, replies))
    && (forall k | 0 <= k < |data| :: data[k].id in idToTag.values)
    && queryTags == QueryTagsOf(data, idToTag.values)
    && (r.Ok? <==> Answered(idToTag.keys, idToAnswer))
    && (r.Ok? ==> r.value == queryTags && tagAnswer == TagAnswersOf(idToTag.keys, idToTag.values, idToAnswer))
    && (r.Err? ==> exists k | 0 <= k < |idToTag.keys| ::
          && r.error == UnknownGroup(idToTag.keys[k])
          && idToTag.keys[k] !in idToAnswer
          && Answered(idToTag.keys[..k], idToAnswer)
          && tagAnswer == TagAnswersOf(idToTag.keys[..k], idToTag.values, idToAnswer))
    && ((forall id | id in idToTag0.values :: id in idToAnswer) ==> r.Ok?)
  }

  /** `generate_tags` once some rows are loaded. */
  method TagGroups(data: seq<Item>, idToQueries: Dict<string, seq<string>>, idToAnswer: map<string, string>,
                   idToTag0: Dict<string, string>, replies: nat -> TagReply)
    returns (idToTag: Dict<string, string>, queryTags: Dict<string, string>, tagAnswer: Dict<string, string>,
             r: Result<Dict<string, string>, TagError>)
    requires GroupsOf(data, idToQueries, idToAnswer) && idToTag0.Valid()
    ensures idToTag.Valid() && queryTags.Valid() && tagAnswer.Valid()
    ensures Tagged(data, idToQueries, idToAnswer, idToTag0, replies, idToTag, queryTags, tagAnswer, r)
  {
    TaggedGroups(data, idToQueries, idToAnswer, idToTag0, replies);
    idToTag := AssignAll(idToQueries.keys, replies, idToTag0);
    queryTags := BuildQueryTags(data, idToTag.values);
    var err;
    tagAnswer, err := BuildTagAnswers(idToTag.keys, idToTag.values, idToAnswer);
    r := if err.Some? then Err(err.value) else Ok(queryTags);
  }

  // ---------------------------------------------------------------------
  // The processor

  class QueryTagProcessor {
    var data: seq<Item>
    var idToQueries: Dict<string, seq<string>>
    var idToAnswer: map<string, string>
    var idToTag: Dict<string, string>
    var queryTags: Dict<string, string>
    var tagAnswer: Dict<string, string>

    ghost predicate Valid()
      reads this
    {
      && GroupsOf(data, idToQueries, idToAnswer)
      && idToTag.Valid()
      && queryTags.Valid()
      && tagAnswer.Valid()
    }

    constructor ()
      ensures Valid()
      ensures data == [] && idToTag == EmptyDict() && queryTags == EmptyDict() && tagAnswer == EmptyDict()
    {
      data, idToQueries, idToAnswer := [], EmptyDict(), map[];
      idToTag, queryTags, tagAnswer := EmptyDict(), EmptyDict(), EmptyDict();
    }

    /** Replaces the loaded rows and groups by those of `t`; the tags of an
        earlier run are kept. */
    method LoadCsv(t: Table, cols: Columns) returns (err: Option<LoadError>)
      requires Valid()
      modifies this
      ensures Valid()
      ensures LoadedFrom(t, cols, err, data)
      ensures idToTag == old(idToTag) && queryTags == old(queryTags) && tagAnswer == old(tagAnswer)
    {
      err, data, idToQueries, idToAnswer := LoadRows(t, cols);
    }

    /** Loading that also forgets the tags of an earlier run. */
    method LoadCsvClearingTags(t: Table, cols: Columns) returns (err: Option<LoadError>)
      modifies this
      ensures Valid()
      ensures LoadedFrom(t, cols, err, data)
      ensures idToTag == EmptyDict() && queryTags == EmptyDict() && tagAnswer == EmptyDict()
    {
      err, data, idToQueries, idToAnswer := LoadRows(t, cols);
      idToTag, queryTags, tagAnswer := EmptyDict(), EmptyDict(), EmptyDict();
    }

    /** Tags every group, in group order, then builds `query_tags` and
        `tag_answer`. Fails when nothing is loaded, and with a `KeyError`
        when `id_to_tag` still holds a group the current file lacks. */
    method GenerateTags(replies: nat -> TagReply) returns (r: Result<Dict<string, string>, TagError>)
      requires Valid()
      modifies this
      ensures Valid()
      ensures data == old(data) && idToQueries == old(idToQueries) && idToAnswer == old(idToAnswer)
      ensures old(data) == [] ==>
        && r == Err(NoData)
        && idToTag == old(idToTag) && queryTags == old(queryTags) && tagAnswer == old(tagAnswer)
      ensures old(data) != [] ==> Tagged(data, idToQueries, idToAnswer, old(idToTag), replies, idToTag, queryTags, tagAnswer, r)
    {
      if data == [] {
        return Err(NoData);
      }
      var tags, byQuery, byTag;
      tags, byQuery, byTag, r := TagGroups(data, idToQueries, idToAnswer, idToTag, replies);
      Store(tags, byQuery, byTag);
    }

    /** Keeps the new tags and the two dictionaries built from them. */
    method Store(tags: Dict<string, string>, byQuery: Dict<string, string>, byTag: Dict<string, string>)
      requires GroupsOf(data, idToQueries, idToAnswer) && tags.Valid() && byQuery.Valid() && byTag.Valid()
      modifies this
      ensures Valid()
      ensures data == old(data) && idToQueries == old(idToQueries) && idToAnswer == old(idToAnswer)
      ensures idToTag == tags && queryTags == byQuery && tagAnswer == byTag
    {
      idToTag, queryTags, tagAnswer := tags, byQuery, byTag;
    }

    /** The query/tag and tag/answer files for `outputDir`. */
    method SplitToCsvFiles(outputDir: string) returns (r: Result<SplitOutput, TagError>)
      requires Valid()
      ensures idToTag.keys == [] ==> r == Err(NoTags)
      ensures idToTag.keys != [] ==>
        && (r.Ok? <==> forall k | 0 <= k < |data| :: data[k].id in idToTag.values)
        && (r.Ok? ==>
              && r.value.queriesTagsPath == JoinPath(outputDir, "queries_tags.csv")
              && r.value.tagsAnswersPath == JoinPath(outputDir, "tags_answers.csv")
              && r.value.queriesTags.header == ["query", "tag"]
              && |r.value.queriesTags.rows| == |data|
              && (forall k | 0 <= k < |data| ::
                    r.value.queriesTags.rows[k] == (data[k].query, idToTag.values[data[k].id]))
              && r.value.tagsAnswers.header == ["tag", "answer"]
              && |r.value.tagsAnswers.rows| == |tagAnswer.keys|
              && (forall k | 0 <= k < |tagAnswer.keys| ::
                    r.value.tagsAnswers.rows[k] == (tagAnswer.keys[k], tagAnswer.values[tagAnswer.keys[k]])))
    {
      if idToTag.keys == [] {
        return Err(NoTags);
      }
      var queriesTagsPath := JoinPath(outputDir, "queries_tags.csv");
      var tagsAnswersPath := JoinPath(outputDir, "tags_answers.csv");
      var rows := QueryTagRows(data, idToTag.values);
      if rows.Err? {
        return Err(rows.error);
      }
      var pairs := TagAnswerRows(tagAnswer);
      r := Ok(SplitOutput(queriesTagsPath, CsvFile(["query", "tag"], rows.value),
                          tagsAnswersPath, CsvFile(["tag", "answer"], pairs)));
    }
  }

  // ---------------------------------------------------------------------
  // Tagging a fresh load

  /** Tagging distinct groups from no tags records each group's tag under
      it, in group order, and gives distinct groups distinct tags. */
  lemma FreshTagDict(ids: seq<string>, replies: nat -> TagReply)
    requires Distinct(ids)
    ensures var tags := AssignTags(ids, replies);
      var tagDict := PutAll(EmptyDict(), ids, tags);
      && tagDict.keys == ids
      && (forall k | 0 <= k < |ids| :: ids[k] in tagDict.values && tagDict.values[ids[k]] == tags[k])
      && (forall i, j | 0 <= i < j < |ids| :: tagDict.values[ids[i]] != tagDict.values[ids[j]])
  {
    var tags := AssignTags(ids, replies);
    AssignTagsDistinct(ids, replies);
    PutAllFreshKeys(EmptyDict(), ids, tags);
    PutAllValues(EmptyDict(), ids, tags);
  }

  /** After a load that starts from no tags, every group gets a distinct tag
      and `tag_answer` holds one entry per group, in group order, with the
      group's answer. */
  lemma FreshTaggingOnePerGroup(data: seq<Item>, idToQueries: Dict<string, seq<string>>,
                                idToAnswer: map<string, string>, replies: nat -> TagReply)
    requires GroupsOf(data, idToQueries, idToAnswer)
    ensures var ids := idToQueries.keys;
      var tagDict := PutAll(EmptyDict(), ids, AssignTags(ids, replies));
      && tagDict.keys == ids
      && Answered(ids, idToAnswer)
      && (forall k | 0 <= k < |ids| :: ids[k] in tagDict.values)
      && |TagAnswersOf(ids, tagDict.values, idToAnswer).keys| == |ids|
      && (forall i | 0 <= i < |ids| ::
            && AssignTags(ids, replies)[i] in TagAnswersOf(ids, tagDict.values, idToAnswer).values
            && TagAnswersOf(ids, tagDict.values, idToAnswer).values[AssignTags(ids, replies)[i]] == idToAnswer[ids[i]])
  {
    var ids := idToQueries.keys;
    var tags := AssignTags(ids, replies);
    var tagDict := PutAll(EmptyDict(), ids, tags);
    FirstIdsSpec(data);
    FreshTagDict(ids, replies);
    assert Answered(ids, idToAnswer);
    TagAnswersOnePerGroup(ids, tagDict.values, idToAnswer);
  }

  /** Loading a second file whose groups differ from the first keeps the
      first file's group in `id_to_tag`: tagging the second file then meets a
      group with no answer, whatever the replies. */
  lemma ReloadKeepsStaleGroup(replies: nat -> TagReply)
    ensures var data := [Item("How do I get an NID card?", "Apply at the office.", "2")];
      var idToQueries := Dict(["2"], map["2" := ["How do I get an NID card?"]]);
      var idToAnswer := map["2" := "Apply at the office."];
      var stale := Dict(["1"], map["1" := "voter_registration"]);
      var idToTag := PutAll(stale, idToQueries.keys, AssignTags(idToQueries.keys, replies));
      && GroupsOf(data, idToQueries, idToAnswer)
      && stale.Valid()
      && idToTag.keys == ["1", "2"]
      && !Answered(idToTag.keys, idToAnswer)
  {
    OneItemGroups();
    StaleTagKept(replies);
    var idToTag := PutAll(Dict(["1"], map["1" := "voter_registration"]), ["2"], AssignTags(["2"], replies));
    assert idToTag.keys[0] == "1";
  }

  /** The groups of a file with a single row. */
  lemma OneItemGroups()
    ensures GroupsOf([Item("How do I get an NID card?", "Apply at the office.", "2")],
                     Dict(["2"], map["2" := ["How do I get an NID card?"]]),
                     map["2" := "Apply at the office."])
  {
    var it := Item("How do I get an NID card?", "Apply at the office.", "2");
    var none: seq<Item> := [];
    var noQueries: Dict<string, seq<string>> := EmptyDict();
    var noAnswers: map<string, string> := map[];
    assert forall id :: id in noAnswers <==> FirstAnswer(none, id).Some?;
    assert GroupsOf(none, noQueries, noAnswers);
    GroupStep(none, noQueries, noAnswers, it);
    assert none + [it] == [it];
    var noQuery: seq<string> := [];
    assert noQuery + [it.query] == [it.query];
    assert noQueries.keys + ["2"] == ["2"];
    assert AddQuery(noQueries, it) == Dict(["2"], map["2" := [it.query]]);
  }

  /** Tagging group "2" over a stale tag for group "1" keeps "1" first. */
  lemma StaleTagKept(replies: nat -> TagReply)
    ensures PutAll(Dict(["1"], map["1" := "voter_registration"]), ["2"], AssignTags(["2"], replies)).keys == ["1", "2"]
  {
    var stale := Dict(["1"], map["1" := "voter_registration"]);
    var ids := ["2"];
    var tags := AssignTags(ids, replies);
    assert ids[..0] == [] && tags[..0] == [];
    var idToTag := PutAll(stale, ids, tags);
    assert PutAll(stale, ids[..0], tags[..0]) == stale;
    assert idToTag == PutAll(stale, ids[..0], tags[..0]).Put(ids[0], tags[0]);
    assert idToTag == stale.Put("2", tags[0]);
  }
}
