/** The query processor of bot_automate.py: the same loading of query,
    answer and group-id rows as the tagging pipeline, in a class of its own. */
module BotAutomate {
  import opened Common
  import opened Grouping

  class QueryTagProcessor {
    var data: seq<Item>
    var idToQueries: Dict<string, seq<string>>
    var idToAnswer: map<string, string>
    var idToTag: Dict<string, string>
    var queryTags: Dict<string, string>
    var tagAnswer: Dict<string, string>

    ghost predicate Valid()
      reads this
    {
      GroupsOf(data, idToQueries, idToAnswer)
    }

    constructor ()
      ensures Valid()
      ensures data == [] && idToTag == EmptyDict() && queryTags == EmptyDict() && tagAnswer == EmptyDict()
    {
      data, idToQueries, idToAnswer := [], EmptyDict(), map[];
      idToTag, queryTags, tagAnswer := EmptyDict(), EmptyDict(), EmptyDict();
    }

    /** Clears the rows and groups, checks the three columns, then keeps each
        row whose stripped cells are all non-empty, grouping the kept rows by
        id with the first answer winning. The other fields are left alone. */
    method LoadCsv(t: Table, cols: Columns) returns (err: Option<LoadError>)
      modifies this
      ensures Valid()
      ensures LoadedFrom(t, cols, err, data)
      ensures idToTag == old(idToTag) && queryTags == old(queryTags) && tagAnswer == old(tagAnswer)
    {
      err, data, idToQueries, idToAnswer := LoadRows(t, cols);
    }
  }
}
