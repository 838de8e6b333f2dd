/** The merge step (merge_results.py): the per-tag CSV files that generation
    leaves in one directory are listed, sorted by path and concatenated into
    one merged file, which is then read back and checked. */
module Merge {
  import opened Common
  import opened Strings
  import opened Sorting
  import opened Paths
  import GenerationClient
  import Orchestrator

  const MergedHeader: seq<string> := ["question", "tag"]

  /** The number of rows per tag that the merge check expects as written. */
  const RowsPerTagAsWritten: nat := 10

  /** The number of rows per tag that a successful generation writes. */
  const RowsPerTag: nat := GenerationClient.TargetCount

  /** The merged file's path when none is given: beside the input directory,
      named after the day. */
  function OutputPath(inputDir: string, outputFile: Option<string>, today: string): string {
    if outputFile.Some? then outputFile.value
    else JoinPath(Dirname(inputDir), "merged_dataset_" + today + ".csv")
  }

  /** Without an explicit output file, the merged file sits in
      `os.path.dirname(input_dir)`. */
  lemma DefaultOutputInParent(inputDir: string, today: string)
    requires '/' !in today
    ensures Dirname(OutputPath(inputDir, None, today)) == Dirname(inputDir)
  {
    var name := "merged_dataset_" + today + ".csv";
    forall j | 0 <= j < |name| ensures name[j] != '/' {
      if 15 <= j < 15 + |today| {
        assert name[j] == today[j - 15];
      }
    }
    DirnameShaped(inputDir);
    DirnameOfJoin(Dirname(inputDir), name);
  }

  // ---------------------------------------------------------------------
  // get_sorted_csv_files

  /** The paths of the listed names that end in ".csv", in listing order. */
  function CsvPaths(dir: string, names: seq<string>): seq<string> {
    if names == [] then []
    else
      var n := names[|names| - 1];
      CsvPaths(dir, names[..|names| - 1]) + (if EndsWith(n, ".csv") then [JoinPath(dir, n)] else [])
  }

  /** The CSV files of a directory listing, sorted by path. */
  function SortedCsvFiles(dir: string, names: seq<string>): seq<string> {
    Sort(CsvPaths(dir, names), LexLess)
  }

  lemma {:induction false} CsvPathsMembers(dir: string, names: seq<string>)
    ensures forall p :: p in CsvPaths(dir, names) <==>
      exists n :: n in names && EndsWith(n, ".csv") && p == JoinPath(dir, n)
  {
    if names != [] {
      var init := names[..|names| - 1];
      CsvPathsMembers(dir, init);
      assert names == init + [names[|names| - 1]];
    }
  }

  /** Exactly the listed names ending in ".csv" are kept, joined to the
      directory, and they come out in ascending order. */
  lemma SortedCsvFilesSpec(dir: string, names: seq<string>)
    ensures Sorted(SortedCsvFiles(dir, names), LexLess)
    ensures multiset(SortedCsvFiles(dir, names)) == multiset(CsvPaths(dir, names))
    ensures forall p :: p in SortedCsvFiles(dir, names) <==>
      exists n :: n in names && EndsWith(n, ".csv") && p == JoinPath(dir, n)
  {
    LexOrder();
    SortSorted(CsvPaths(dir, names), LexLess);
    CsvPathsMembers(dir, names);
    forall p ensures p in SortedCsvFiles(dir, names) <==> p in CsvPaths(dir, names) {
      assert p in SortedCsvFiles(dir, names) <==> p in multiset(SortedCsvFiles(dir, names));
    }
  }

  /** Paths in one directory are ordered as their file names are. */
  lemma JoinPathOrder(dir: string, a: string, b: string)
    requires !StartsWith(a, "/") && !StartsWith(b, "/")
    ensures LexLess(JoinPath(dir, a), JoinPath(dir, b)) == LexLess(a, b)
  {
    var p := if dir == "" || EndsWith(dir, "/") then dir else dir + "/";
    assert JoinPath(dir, a) == p + a && JoinPath(dir, b) == p + b;
    LexLessCommonPrefix(p, a, b);
  }

  lemma {:induction false} CsvPathsAppend(dir: string, a: seq<string>, b: seq<string>)
    ensures CsvPaths(dir, a + b) == CsvPaths(dir, a) + CsvPaths(dir, b)
  {
    if b == [] {
      assert a + b == a;
    } else {
      var ab := a + b;
      var init := b[..|b| - 1];
      assert ab[..|ab| - 1] == a + init && ab[|ab| - 1] == b[|b| - 1];
      CsvPathsAppend(dir, a, init);
    }
  }

  lemma RemoveAt(b: seq<string>, k: nat)
    requires k < |b|
    ensures multiset(b[..k] + b[k + 1..]) == multiset(b) - multiset{b[k]}
  {
    assert b == b[..k] + [b[k]] + b[k + 1..];
  }

  /** Taking one name out of a listing takes its path (if any) out of the
      collected paths. */
  lemma CsvPathsRemoveAt(dir: string, b: seq<string>, k: nat)
    requires k < |b|
    ensures multiset(CsvPaths(dir, b)) == multiset(CsvPaths(dir, b[..k] + b[k + 1..])) + multiset(CsvPaths(dir, [b[k]]))
  {
    var b1, b2 := b[..k], b[k + 1..];
    assert b == (b1 + [b[k]]) + b2;
    CsvPathsAppend(dir, b1 + [b[k]], b2);
    CsvPathsAppend(dir, b1, [b[k]]);
    CsvPathsAppend(dir, b1, b2);
  }

  lemma {:induction false} CsvPathsPermutation(dir: string, a: seq<string>, b: seq<string>)
    requires multiset(a) == multiset(b)
    ensures multiset(CsvPaths(dir, a)) == multiset(CsvPaths(dir, b))
    decreases |a|
  {
    if a == [] {
      assert |b| == |multiset(b)| == 0;
    } else {
      var n := |a| - 1;
      assert a[n] in multiset(b);
      var k :| 0 <= k < |b| && b[k] == a[n];
      RemoveAt(a, n);
      RemoveAt(b, k);
      assert a[..n] + a[n + 1..] == a[..n];
      CsvPathsPermutation(dir, a[..n], b[..k] + b[k + 1..]);
      CsvPathsRemoveAt(dir, a, n);
      CsvPathsRemoveAt(dir, b, k);
    }
  }

  /** The merge order does not depend on the order in which the directory
      happens to be listed. */
  lemma SortedCsvFilesIgnoreListingOrder(dir: string, a: seq<string>, b: seq<string>)
    requires multiset(a) == multiset(b)
    ensures SortedCsvFiles(dir, a) == SortedCsvFiles(dir, b)
  {
    LexOrder();
    CsvPathsPermutation(dir, a, b);
    var pa := CsvPaths(dir, a);
    forall i, j | 0 <= i < |pa| && 0 <= j < |pa| && pa[i] != pa[j]
      ensures LexLess(pa[i], pa[j]) || LexLess(pa[j], pa[i])
    {
      LexLessTotal(pa[i], pa[j]);
    }
    SortDeterminedByElements(pa, CsvPaths(dir, b), LexLess);
  }

  // ---------------------------------------------------------------------
  // merge_csv_files

  datatype MergeError = CannotOpen(path: string)

  ghost predicate AllPresent(files: map<string, CsvFile>, paths: seq<string>) {
    forall k | 0 <= k < |paths| :: paths[k] in files
  }

  /** The data rows of the given files, file after file. */
  function MergedRows(files: map<string, CsvFile>, paths: seq<string>): seq<(string, string)>
    requires AllPresent(files, paths)
  {
    if paths == [] then []
    else MergedRows(files, paths[..|paths| - 1]) + files[paths[|paths| - 1]].rows
  }

  /** What the merge writes: the header and the rows, or an empty file when
      there are no rows. */
  function OutputFile(rows: seq<(string, string)>): CsvFile {
    if rows == [] then CsvFile([], []) else CsvFile(MergedHeader, rows)
  }

  // ---------------------------------------------------------------------
  // validate_merged_file

  /** Rows whose question or tag is empty. */
  function InvalidCount(rows: seq<(string, string)>): (n: nat)
    ensures n <= |rows|
  {
    if rows == [] then 0
    else
      var last := rows[|rows| - 1];
      InvalidCount(rows[..|rows| - 1]) + (if last.0 == "" || last.1 == "" then 1 else 0)
  }

  /** How many rows carry tag `t`. */
  function TagCount(rows: seq<(string, string)>, t: string): nat {
    if rows == [] then 0
    else TagCount(rows[..|rows| - 1], t) + (if rows[|rows| - 1].1 == t then 1 else 0)
  }

  /** The keys of `Counter(tags)`: each tag once, in order of first appearance. */
  function FirstTags(rows: seq<(string, string)>): seq<string> {
    if rows == [] then []
    else
      var init := FirstTags(rows[..|rows| - 1]);
      var t := rows[|rows| - 1].1;
      if t in init then init else init + [t]
  }

  /** The tags of `keys` whose count is not `perTag`, in order. */
  function WrongCountTags(keys: seq<string>, rows: seq<(string, string)>, perTag: nat): seq<string> {
    if keys == [] then []
    else
      var t := keys[|keys| - 1];
      WrongCountTags(keys[..|keys| - 1], rows, perTag) + (if TagCount(rows, t) != perTag then [t] else [])
  }

  /** What the check of a merged file finds. */
  datatype Report = Report(
    actualCount: nat,
    countMatches: bool,
    uniqueTags: nat,
    wrongCountTags: seq<string>,
    invalidCount: nat)

  function ReportOf(rows: seq<(string, string)>, expectedCount: int, perTag: nat): Report {
    var tags := FirstTags(rows);
    Report(|rows|, |rows| == expectedCount, |tags|, WrongCountTags(tags, rows, perTag), InvalidCount(rows))
  }

  /** Checks the rows of a merged file against the expected total and the
      expected number of rows per tag, counting the incomplete rows one by one. */
  method ValidateRows(rows: seq<(string, string)>, expectedCount: int, perTag: nat) returns (report: Report)
    ensures report == ReportOf(rows, expectedCount, perTag)
  {
    var tags := FirstTags(rows);
    var invalid := 0;
    var k := 0;
    while k < |rows|
      invariant 0 <= k <= |rows|
      invariant invalid == InvalidCount(rows[..k])
    {
      assert rows[..k + 1][..k] == rows[..k];
      if rows[k].0 == "" || rows[k].1 == "" {
        invalid := invalid + 1;
      }
      k := k + 1;
    }
    assert rows[..k] == rows;
    report := Report(|rows|, |rows| == expectedCount, |tags|, WrongCountTags(tags, rows, perTag), invalid);
  }

  lemma {:induction false} InvalidCountZero(rows: seq<(string, string)>)
    ensures InvalidCount(rows) == 0 <==> forall k | 0 <= k < |rows| :: rows[k].0 != "" && rows[k].1 != ""
  {
    if rows != [] {
      var init := rows[..|rows| - 1];
      InvalidCountZero(init);
      assert forall k | 0 <= k < |init| :: init[k] == rows[k];
    }
  }

  lemma {:induction false} TagCountAppend(a: seq<(string, string)>, b: seq<(string, string)>, t: string)
    ensures TagCount(a + b, t) == TagCount(a, t) + TagCount(b, t)
  {
    if b == [] {
      assert a + b == a;
    } else {
      var ab := a + b;
      var init := b[..|b| - 1];
      assert ab[..|ab| - 1] == a + init && ab[|ab| - 1] == b[|b| - 1];
      TagCountAppend(a, init, t);
    }
  }

  lemma {:induction false} InvalidCountAppend(a: seq<(string, string)>, b: seq<(string, string)>)
    ensures InvalidCount(a + b) == InvalidCount(a) + InvalidCount(b)
  {
    if b == [] {
      assert a + b == a;
    } else {
      var ab := a + b;
      var init := b[..|b| - 1];
      assert ab[..|ab| - 1] == a + init && ab[|ab| - 1] == b[|b| - 1];
      InvalidCountAppend(a, init);
    }
  }

  /** The counter's keys are the tags that occur, each once. */
  lemma {:induction false} FirstTagsSpec(rows: seq<(string, string)>)
    ensures Distinct(FirstTags(rows))
    ensures forall t :: t in FirstTags(rows) <==> TagCount(rows, t) > 0
  {
    if rows != [] {
      FirstTagsSpec(rows[..|rows| - 1]);
    }
  }

  /** A tag is reported exactly when its count is off. */
  lemma {:induction false} WrongCountTagsSpec(keys: seq<string>, rows: seq<(string, string)>, perTag: nat)
    ensures forall t :: t in WrongCountTags(keys, rows, perTag) <==> t in keys && TagCount(rows, t) != perTag
  {
    if keys != [] {
      var init := keys[..|keys| - 1];
      WrongCountTagsSpec(init, rows, perTag);
      assert keys == init + [keys[|keys| - 1]];
    }
  }

  lemma {:induction false} WrongCountTagsNone(keys: seq<string>, rows: seq<(string, string)>, perTag: nat)
    requires forall k | 0 <= k < |keys| :: TagCount(rows, keys[k]) == perTag
    ensures WrongCountTags(keys, rows, perTag) == []
  {
    if keys != [] {
      WrongCountTagsNone(keys[..|keys| - 1], rows, perTag);
    }
  }

  lemma {:induction false} WrongCountTagsAll(keys: seq<string>, rows: seq<(string, string)>, perTag: nat)
    requires forall k | 0 <= k < |keys| :: TagCount(rows, keys[k]) != perTag
    ensures WrongCountTags(keys, rows, perTag) == keys
  {
    if keys != [] {
      var init := keys[..|keys| - 1];
      WrongCountTagsAll(init, rows, perTag);
      assert keys == init + [keys[|keys| - 1]];
    }
  }

  // ---------------------------------------------------------------------
  // Merging what generation wrote

  /** `paths[i]` holds the artifact of a successful generation for `tags[i]`. */
  ghost predicate ArtifactsAt(files: map<string, CsvFile>, paths: seq<string>, tags: seq<string>) {
    && |paths| == |tags|
    && forall i | 0 <= i < |paths| ::
         paths[i] in files && tags[i] != "" && Orchestrator.IsArtifactFor(files[paths[i]], tags[i])
  }

  lemma {:induction false} TagCountUniform(rows: seq<(string, string)>, tag: string, t: string)
    requires forall k | 0 <= k < |rows| :: rows[k].1 == tag
    ensures TagCount(rows, t) == if t == tag then |rows| else 0
  {
    if rows != [] {
      TagCountUniform(rows[..|rows| - 1], tag, t);
    }
  }

  lemma {:induction false} FirstTagsAppendBlock(a: seq<(string, string)>, block: seq<(string, string)>, x: string)
    requires block != [] && x !in FirstTags(a)
    requires forall k | 0 <= k < |block| :: block[k].1 == x
    ensures FirstTags(a + block) == FirstTags(a) + [x]
  {
    var ab := a + block;
    var init := block[..|block| - 1];
    assert ab[..|ab| - 1] == a + init && ab[|ab| - 1] == block[|block| - 1];
    if init == [] {
      assert a + init == a;
    } else {
      FirstTagsAppendBlock(a, init, x);
    }
  }

  /** Merging complete artifacts of distinct tags gives every tag exactly
      `RowsPerTag` complete rows, the tags in file order. */
  lemma {:induction false} MergedArtifactsCounts(files: map<string, CsvFile>, paths: seq<string>, tags: seq<string>)
    requires ArtifactsAt(files, paths, tags) && Distinct(tags)
    ensures AllPresent(files, paths)
    ensures |MergedRows(files, paths)| == RowsPerTag * |paths|
    ensures InvalidCount(MergedRows(files, paths)) == 0
    ensures FirstTags(MergedRows(files, paths)) == tags
    ensures forall t :: TagCount(MergedRows(files, paths), t) == if t in tags then RowsPerTag else 0
  {
    if paths != [] {
      var n := |paths| - 1;
      var paths', tags' := paths[..n], tags[..n];
      assert forall i | 0 <= i < n :: paths'[i] == paths[i] && tags'[i] == tags[i];
      MergedArtifactsCounts(files, paths', tags');
      var prev := MergedRows(files, paths');
      var f := files[paths[n]];
      assert MergedRows(files, paths) == prev + f.rows;
      assert tags == tags' + [tags[n]];
      assert tags[n] !in tags';
      forall t ensures TagCount(prev + f.rows, t) == if t in tags then RowsPerTag else 0 {
        TagCountAppend(prev, f.rows, t);
        TagCountUniform(f.rows, tags[n], t);
      }
      InvalidCountAppend(prev, f.rows);
      InvalidCountZero(f.rows);
      FirstTagsAppendBlock(prev, f.rows, tags[n]);
    }
  }

  /** With the per-tag count the generator actually produces, complete
      artifacts pass the check: no tag off, no incomplete row, one tag per
      file. */
  lemma FullArtifactsPassValidation(files: map<string, CsvFile>, paths: seq<string>, tags: seq<string>, expectedCount: int)
    requires ArtifactsAt(files, paths, tags) && Distinct(tags)
    ensures AllPresent(files, paths)
    ensures ReportOf(MergedRows(files, paths), expectedCount, RowsPerTag).wrongCountTags == []
    ensures ReportOf(MergedRows(files, paths), expectedCount, RowsPerTag).invalidCount == 0
    ensures ReportOf(MergedRows(files, paths), expectedCount, RowsPerTag).uniqueTags == |paths|
    ensures ReportOf(MergedRows(files, paths), expectedCount, RowsPerTag).actualCount == RowsPerTag * |paths|
  {
    MergedArtifactsCounts(files, paths, tags);
    WrongCountTagsNone(tags, MergedRows(files, paths), RowsPerTag);
  }

  /** With the per-tag count as written, the same complete artifacts are
      reported as wrong, every tag of them. */
  lemma AsWrittenFlagsEveryTag(files: map<string, CsvFile>, paths: seq<string>, tags: seq<string>, expectedCount: int)
    requires ArtifactsAt(files, paths, tags) && Distinct(tags)
    ensures AllPresent(files, paths)
    ensures ReportOf(MergedRows(files, paths), expectedCount, RowsPerTagAsWritten).wrongCountTags == tags
  {
    MergedArtifactsCounts(files, paths, tags);
    WrongCountTagsAll(tags, MergedRows(files, paths), RowsPerTagAsWritten);
  }

  // ---------------------------------------------------------------------
  // The file system the merge reads and writes

  class Disk {
    var files: map<string, CsvFile>

    constructor (files0: map<string, CsvFile>)
      ensures files == files0
    {
      files := files0;
    }

    /** Concatenates the rows of the given files in order and writes them,
        with the header, to `outputFile`; a missing input file stops the
        merge before anything is written. */
    method MergeCsvFiles(csvFiles: seq<string>, outputFile: string) returns (r: Result<nat, MergeError>)
      modifies this
      ensures r.Ok? <==> AllPresent(old(files), csvFiles)
      ensures r.Ok? ==>
        && r.value == |MergedRows(old(files), csvFiles)|
        && files == old(files)[outputFile := OutputFile(MergedRows(old(files), csvFiles))]
      ensures r.Err? ==>
        && files == old(files)
        && exists k | 0 <= k < |csvFiles| ::
             r.error == CannotOpen(csvFiles[k]) && csvFiles[k] !in files && AllPresent(files, csvFiles[..k])
    {
      var merged: seq<(string, string)> := [];
      var i := 0;
      while i < |csvFiles|
        invariant 0 <= i <= |csvFiles|
        invariant files == old(files)
        invariant AllPresent(files, csvFiles[..i])
        invariant merged == MergedRows(files, csvFiles[..i])
      {
        var path := csvFiles[i];
        assert csvFiles[..i + 1][..i] == csvFiles[..i];
        if path !in files {
          return Err(CannotOpen(path));
        }
        var rows := files[path].rows;
        if rows != [] {
          merged := merged + rows;
        } else {
          assert merged + rows == merged;
        }
        i := i + 1;
      }
      assert csvFiles[..i] == csvFiles;
      if merged != [] {
        files := files[outputFile := CsvFile(MergedHeader, merged)];
      } else {
        files := files[outputFile := CsvFile([], [])];
      }
      r := Ok(|merged|);
    }

    /** Reads the merged file back and checks it against `expectedCount`
        rows in total and `perTag` rows per tag. */
    method ValidateMergedFile(outputFile: string, expectedCount: int, perTag: nat) returns (r: Result<Report, MergeError>)
      ensures r.Ok? <==> outputFile in files
      ensures r.Ok? ==> r.value == ReportOf(files[outputFile].rows, expectedCount, perTag)
      ensures r.Err? ==> r.error == CannotOpen(outputFile)
    {
      if outputFile !in files {
        return Err(CannotOpen(outputFile));
      }
      var report := ValidateRows(files[outputFile].rows, expectedCount, perTag);
      r := Ok(report);
    }

    /** Lists the directory, merges its CSV files in path order into the
        output file and checks the result against the hard-coded
        `RowsPerTagAsWritten` rows per tag. Nothing is written, and `None`
        comes back, when the directory holds no CSV file. */
    method RunMerge(inputDir: string, outputFile: Option<string>, today: string, listing: seq<string>)
      returns (r: Result<Option<string>, MergeError>, report: Option<Report>)
      modifies this
      ensures SortedCsvFiles(inputDir, listing) == [] ==> r == Ok(None) && report == None && files == old(files)
      ensures SortedCsvFiles(inputDir, listing) != [] && !AllPresent(old(files), SortedCsvFiles(inputDir, listing))
        ==> r.Err? && report == None && files == old(files)
      ensures SortedCsvFiles(inputDir, listing) != [] && AllPresent(old(files), SortedCsvFiles(inputDir, listing))
        ==> var rows := MergedRows(old(files), SortedCsvFiles(inputDir, listing));
            && r == Ok(Some(OutputPath(inputDir, outputFile, today)))
            && files == old(files)[OutputPath(inputDir, outputFile, today) := OutputFile(rows)]
            && report == Some(ReportOf(rows, |rows|, RowsPerTagAsWritten))
            && report.value.countMatches
    {
      var out := OutputPath(inputDir, outputFile, today);
      var csvFiles := SortedCsvFiles(inputDir, listing);
      if csvFiles == [] {
        return Ok(None), None;
      }
      var merged := MergeCsvFiles(csvFiles, out);
      if merged.Err? {
        return Err(merged.error), None;
      }
      var checked := ValidateMergedFile(out, merged.value, RowsPerTagAsWritten);
      report := Some(checked.value);
      r := Ok(Some(out));
    }
  }
}
