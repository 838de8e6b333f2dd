/** The resumable run of the paraphrase generator
    (generate_paraphrases.py, lines 104-116 and 226-391): walks the work list
    from the item after the checkpoint, skips items without an answer or
    without examples, asks the generation client for each remaining item,
    writes one artifact per success, and moves the checkpoint past every
    item it finishes, whatever the outcome. */
module Orchestrator {
  import opened Common
  import opened Strings
  import opened ExampleStore
  import opened GenerationClient

  /** Examples put into one prompt. */
  const ExamplesPerPrompt: nat := 30

  /** The header row of every artifact. */
  const ArtifactHeader: seq<string> := ["question", "tag"]

  datatype Outcome = Skipped | Succeeded | Failed

  /** One finished work item: its index as the loop saw it, its tag, what
      became of it, the ordinal of its first service call and how many it
      made, and the questions it saved (none unless it succeeded). */
  datatype Visit = Visit(index: int, tag: string, outcome: Outcome, first: nat, tries: nat, saved: seq<string>)

  /** The three counters a run returns. */
  datatype Summary = Summary(success: nat, failure: nat, skipped: nat)

  /** `unique_tags[i]` with `i` below minus the length raises IndexError. */
  datatype RunError = IndexOutOfRange(index: int)

  // ---------------------------------------------------------------------
  // Where a run starts

  /** `get_last_processed_index`: the stored index, -1 when the checkpoint
      file is missing or blank. */
  function LastProcessed(progress: Option<int>): int {
    if progress.Some? then progress.value else -1
  }

  /** The checkpoint is beyond the work list and is reset. */
  predicate ResetsProgress(last: int, total: nat) {
    last + 1 >= total
  }

  /** The first index a run visits. */
  function StartIndex(last: int, total: nat): int {
    if ResetsProgress(last, total) then 0 else last + 1
  }

  /** The indices a run visits, in order: `range(start, total)`. */
  function Schedule(last: int, total: nat): (s: seq<int>)
    ensures |s| == total - StartIndex(last, total)
    ensures forall j | 0 <= j < |s| :: s[j] == StartIndex(last, total) + j
  {
    var start := StartIndex(last, total);
    seq(total - start, j => start + j)
  }

  /** From an ordinary checkpoint (`last >= -1`), a run visits exactly the
      indices after it, or all of them once the checkpoint is at the end. */
  lemma ScheduleCovers(last: int, total: nat, i: int)
    requires last >= -1 && 0 <= i < total
    ensures i in Schedule(last, total) <==> (ResetsProgress(last, total) || i > last)
  {
    var s := Schedule(last, total);
    var start := StartIndex(last, total);
    if ResetsProgress(last, total) || i > last {
      assert s[i - start] == i;
    }
  }

  /** Stopped after the `m`-th visited item, a rerun visits exactly the items
      the first run did not reach. */
  lemma ResumeContinues(last: int, total: nat, m: nat)
    requires 0 < m < |Schedule(last, total)|
    ensures Schedule(Schedule(last, total)[m - 1], total) == Schedule(last, total)[m..]
  {
    var s := Schedule(last, total);
    var t := Schedule(s[m - 1], total);
    assert !ResetsProgress(s[m - 1], total);
    assert |t| == |s[m..]|;
    forall j | 0 <= j < |t| ensures t[j] == s[m..][j] {
    }
  }

  /** After a run that reached the end, the next run starts over at 0. */
  lemma FinishedRunStartsOver(last: int, total: nat)
    requires |Schedule(last, total)| > 0
    ensures var s := Schedule(last, total); Schedule(s[|s| - 1], total) == Schedule(-1, total)
  {
  }

  /** `unique_tags[i]`, negative indices counting from the end. */
  function TagAt(tags: seq<string>, i: int): string
    requires -|tags| <= i < |tags|
  {
    if i < 0 then tags[|tags| + i] else tags[i]
  }

  /** The work list of a run: all tags, or a prefix of them in test mode. */
  function WorkList(rows: seq<ExampleRow>, testMode: bool, testTagCount: int): seq<string> {
    if testMode then PyPrefix(UniqueTags(rows), testTagCount) else UniqueTags(rows)
  }

  // ---------------------------------------------------------------------
  // Artifacts and counters

  function ArtifactName(tag: string): string {
    tag + ".csv"
  }

  /** The data rows of an artifact: each question next to its tag. */
  function ArtifactRows(questions: seq<string>, tag: string): seq<(string, string)> {
    seq(|questions|, i requires 0 <= i < |questions| => (questions[i], tag))
  }

  /** What an artifact of a successful item holds: the header, then
      `TargetCount` rows each with a non-empty question and the tag. */
  ghost predicate IsArtifactFor(f: CsvFile, tag: string) {
    && f.header == ArtifactHeader
    && |f.rows| == TargetCount
    && forall k | 0 <= k < |f.rows| :: f.rows[k].0 != "" && f.rows[k].1 == tag
  }

  lemma AcceptedArtifact(r: Response, tag: string)
    requires Accepted(r)
    ensures IsArtifactFor(CsvFile(ArtifactHeader, ArtifactRows(AcceptedQuestions(r), tag)), tag)
  {
    AcceptedYieldsTarget(r);
  }

  function Count(visits: seq<Visit>, o: Outcome): nat {
    if visits == [] then 0
    else Count(visits[..|visits| - 1], o) + (if visits[|visits| - 1].outcome == o then 1 else 0)
  }

  /** Every visit is counted under exactly one outcome. */
  lemma {:induction false} CountsAddUp(visits: seq<Visit>)
    ensures Count(visits, Succeeded) + Count(visits, Failed) + Count(visits, Skipped) == |visits|
  {
    if visits != [] {
      CountsAddUp(visits[..|visits| - 1]);
    }
  }

  /** Some answers-file row carries the raw tag `tag`. */
  ghost predicate HasAnswer(rows: seq<AnswerRow>, tag: string) {
    exists i | 0 <= i < |rows| :: rows[i].tag == tag
  }

  /** What the replies `service(v.first)`, `service(v.first + 1)`, ... made
      of the visit `v`: at most `DefaultMaxRetries` calls, none for a skip
      and all of them for a failure; among its calls only the last of a
      success was accepted, and a success saved exactly the questions
      accepted from that last reply. */
  ghost predicate ServedBy(v: Visit, service: nat -> Response) {
    && v.tries <= DefaultMaxRetries
    && (v.outcome == Skipped ==> v.tries == 0)
    && (v.outcome == Failed ==> v.tries == DefaultMaxRetries)
    && (forall n | v.first <= n < v.first + v.tries ::
          Accepted(service(n)) <==> v.outcome == Succeeded && n == v.first + v.tries - 1)
    && (v.outcome == Succeeded ==>
          v.tries >= 1 && Accepted(service(v.first + v.tries - 1))
          && v.saved == AcceptedQuestions(service(v.first + v.tries - 1)))
    && (v.outcome != Succeeded ==> v.saved == [])
  }

  /** What `GenerateQuestions` promises about its replies decides the visit
      of an item that was attempted. */
  lemma RepliesServe(service: nat -> Response, questions: Option<seq<string>>, v: Visit)
    requires v.tries <= DefaultMaxRetries
    requires forall n | v.first <= n < v.first + v.tries ::
      Accepted(service(n)) <==> (questions.Some? && n == v.first + v.tries - 1)
    requires questions.None? ==> v.tries == DefaultMaxRetries
    requires questions.Some? ==>
      && v.tries >= 1 && Accepted(service(v.first + v.tries - 1))
      && questions.value == AcceptedQuestions(service(v.first + v.tries - 1)) && |questions.value| == TargetCount
    requires v.outcome == (if questions.Some? then Succeeded else Failed)
    requires v.saved == (if questions.Some? then questions.value else [])
    ensures ServedBy(v, service)
  {
  }

  /** An item failed exactly when it used up all its calls without an
      accepted reply. */
  lemma FailedIffExhausted(v: Visit, service: nat -> Response)
    requires ServedBy(v, service)
    ensures v.outcome == Failed <==>
      v.tries == DefaultMaxRetries && forall n | v.first <= n < v.first + v.tries :: !Accepted(service(n))
  {
    if v.outcome == Succeeded {
      var last := v.first + v.tries - 1;
      assert v.first <= last < v.first + v.tries && Accepted(service(last));
    }
  }

  /** The calls of the visits `vs` follow one another from call `c0`, and the
      next call is `calls`. */
  ghost predicate CallsChained(vs: seq<Visit>, c0: nat, calls: nat) {
    && (vs == [] ==> calls == c0)
    && (vs != [] ==> vs[0].first == c0 && vs[|vs| - 1].first + vs[|vs| - 1].tries == calls)
    && forall k | 0 < k < |vs| :: vs[k].first == vs[k - 1].first + vs[k - 1].tries
  }

  lemma ChainedStep(vs: seq<Visit>, v: Visit, c0: nat, calls: nat)
    requires CallsChained(vs, c0, v.first)
    ensures CallsChained(vs + [v], c0, v.first + v.tries)
  {
    var vs' := vs + [v];
    forall k | 0 < k < |vs'| ensures vs'[k].first == vs'[k - 1].first + vs'[k - 1].tries {
      if k < |vs| {
        assert vs'[k] == vs[k] && vs'[k - 1] == vs[k - 1];
      }
    }
  }

  /** The artifact a visit writes when it succeeds. */
  function ArtifactOf(v: Visit): CsvFile {
    CsvFile(ArtifactHeader, ArtifactRows(v.saved, v.tag))
  }

  /** The artifacts after visit `v`: a success (over)writes its tag's file. */
  function Saving(artifacts: map<string, CsvFile>, v: Visit): map<string, CsvFile> {
    if v.outcome == Succeeded then artifacts[ArtifactName(v.tag) := ArtifactOf(v)] else artifacts
  }

  /** The artifacts after the visits `vs`, starting from `a0`. */
  function ArtifactsAfter(a0: map<string, CsvFile>, vs: seq<Visit>): map<string, CsvFile> {
    if vs == [] then a0 else Saving(ArtifactsAfter(a0, vs[..|vs| - 1]), vs[|vs| - 1])
  }

  /** Different tags have different artifact files. */
  lemma ArtifactNameInjective(t: string, u: string)
    requires ArtifactName(t) == ArtifactName(u)
    ensures t == u
  {
    assert t == ArtifactName(t)[..|ArtifactName(t)| - 4];
    assert u == ArtifactName(u)[..|ArtifactName(u)| - 4];
  }

  /** After the visits `vs`, the artifact of the last success for a tag holds
      exactly the questions accepted from the last reply of that success. */
  lemma LastSuccessArtifact(a0: map<string, CsvFile>, vs: seq<Visit>, k: nat, service: nat -> Response)
    requires k < |vs| && vs[k].outcome == Succeeded && ServedBy(vs[k], service)
    requires forall j | k < j < |vs| :: vs[j].tag != vs[k].tag
    ensures ArtifactName(vs[k].tag) in ArtifactsAfter(a0, vs)
    ensures ArtifactsAfter(a0, vs)[ArtifactName(vs[k].tag)]
         == CsvFile(ArtifactHeader, ArtifactRows(AcceptedQuestions(service(vs[k].first + vs[k].tries - 1)), vs[k].tag))
  {
    LastSuccessWrites(a0, vs, k);
  }

  /** The artifact of the last success for a tag is the one that success
      wrote. */
  lemma {:induction false} LastSuccessWrites(a0: map<string, CsvFile>, vs: seq<Visit>, k: nat)
    requires k < |vs| && vs[k].outcome == Succeeded
    requires forall j | k < j < |vs| :: vs[j].tag != vs[k].tag
    ensures ArtifactName(vs[k].tag) in ArtifactsAfter(a0, vs)
    ensures ArtifactsAfter(a0, vs)[ArtifactName(vs[k].tag)] == ArtifactOf(vs[k])
  {
    var init := vs[..|vs| - 1];
    var w := vs[|vs| - 1];
    assert ArtifactsAfter(a0, vs) == Saving(ArtifactsAfter(a0, init), w);
    if k < |vs| - 1 {
      assert init[k] == vs[k];
      forall j | k < j < |init| ensures init[j].tag != init[k].tag {
        assert init[j] == vs[j];
      }
      LastSuccessWrites(a0, init, k);
      if w.outcome == Succeeded && ArtifactName(w.tag) == ArtifactName(vs[k].tag) {
        ArtifactNameInjective(w.tag, vs[k].tag);
        assert false;
      }
    }
  }

  // ---------------------------------------------------------------------
  // The order of the durable writes

  /** A durable write: the checkpoint file is overwritten with an index, or
      an artifact file is saved. */
  datatype Write = Checkpoint(index: int) | Saved(name: string)

  /** The writes that finish the visit `v`: a success first saves its
      artifact, and every item then checkpoints its index. */
  function WritesOf(v: Visit): seq<Write> {
    (if v.outcome == Succeeded then [Saved(ArtifactName(v.tag))] else []) + [Checkpoint(v.index)]
  }

  /** The writes of the visits `vs`, one item after the other. */
  function WritesAfter(vs: seq<Visit>): seq<Write> {
    if vs == [] then [] else WritesAfter(vs[..|vs| - 1]) + WritesOf(vs[|vs| - 1])
  }

  /** The checkpoint reset a run starts with once the previous one has run
      past the work list. */
  function ResetWrites(last: int, total: int): seq<Write> {
    if last + 1 >= total then [Checkpoint(-1)] else []
  }

  /** The writes of the run so far, after one more item. */
  lemma WritesNext(w0: seq<Write>, v0: seq<Visit>, vBefore: seq<Visit>, wBefore: seq<Write>,
                   visits: seq<Visit>, writes: seq<Write>, v: Visit)
    requires |v0| <= |vBefore| && wBefore == w0 + WritesAfter(vBefore[|v0|..])
    requires visits == vBefore + [v] && writes == wBefore + WritesOf(v)
    ensures writes == w0 + WritesAfter(visits[|v0|..])
  {
    assert visits[|v0|..] == vBefore[|v0|..] + [v];
    WritesStep(vBefore[|v0|..], v);
  }

  lemma WritesStep(vs: seq<Visit>, v: Visit)
    ensures WritesAfter(vs + [v]) == WritesAfter(vs) + WritesOf(v)
  {
    assert (vs + [v])[..|vs|] == vs;
  }

  /** Crash safety: every checkpoint write closes an item. The writes up to
      and including it are exactly those of the items finished so far, the
      checkpoint names the last of them, and when that item succeeded its
      artifact was saved just before. A run cut short right after a
      checkpoint write has therefore saved every artifact of the items the
      checkpoint covers, and none of a later item. */
  lemma {:induction false} CheckpointsCloseItems(vs: seq<Visit>, p: nat)
    requires p < |WritesAfter(vs)| && WritesAfter(vs)[p].Checkpoint?
    ensures exists k | 0 <= k < |vs| ::
      && WritesAfter(vs)[..p + 1] == WritesAfter(vs[..k + 1])
      && WritesAfter(vs)[p] == Checkpoint(vs[k].index)
      && (vs[k].outcome == Succeeded ==> p >= 1 && WritesAfter(vs)[p - 1] == Saved(ArtifactName(vs[k].tag)))
  {
    var init, w := vs[..|vs| - 1], vs[|vs| - 1];
    var before := WritesAfter(init);
    var all := WritesAfter(vs);
    assert all == before + WritesOf(w);
    if p < |before| {
      CheckpointsCloseItems(init, p);
      var k :| 0 <= k < |init|
        && before[..p + 1] == WritesAfter(init[..k + 1])
        && before[p] == Checkpoint(init[k].index)
        && (init[k].outcome == Succeeded ==> p >= 1 && before[p - 1] == Saved(ArtifactName(init[k].tag)));
      assert init[..k + 1] == vs[..k + 1] && init[k] == vs[k];
      assert all[..p + 1] == before[..p + 1];
      if p >= 1 {
        assert all[p - 1] == before[p - 1];
      }
    } else {
      var k := |vs| - 1;
      if w.outcome == Succeeded {
        assert all[|before|] == Saved(ArtifactName(w.tag));
      }
      assert p == |all| - 1;
      assert vs[..k + 1] == vs && all[..p + 1] == all;
    }
  }

  /** The generator's state: the checkpoint file, the artifacts in the output
      directory, and the calls made to the generation service. */
  class ParaphraseGenerator {
    /** The checkpoint file's content; `None` when it is missing or blank. */
    var progress: Option<int>
    /** The artifacts written so far, by file name. */
    var artifacts: map<string, CsvFile>
    /** Service calls made so far; the next call has this ordinal. */
    var calls: nat
    /** Every finished item, in order. */
    ghost var visits: seq<Visit>
    /** The durable writes made so far, in the order they were made. */
    ghost var writes: seq<Write>

    constructor (progress: Option<int>, artifacts: map<string, CsvFile>)
      ensures this.progress == progress && this.artifacts == artifacts
      ensures calls == 0 && visits == [] && writes == []
    {
      this.progress := progress;
      this.artifacts := artifacts;
      calls := 0;
      visits := [];
      writes := [];
    }

    /** `update_progress`: overwrites the checkpoint. */
    method UpdateProgress(index: int)
      modifies this
      ensures progress == Some(index)
      ensures writes == old(writes) + [Checkpoint(index)]
      ensures artifacts == old(artifacts) && calls == old(calls) && visits == old(visits)
    {
      progress := Some(index);
      writes := writes + [Checkpoint(index)];
    }

    /** `save_individual_csv`: writes the artifact of `tag`, replacing one of
        the same name. */
    method SaveIndividualCsv(tag: string, questions: seq<string>)
      modifies this
      ensures artifacts == old(artifacts)[ArtifactName(tag) := CsvFile(ArtifactHeader, ArtifactRows(questions, tag))]
      ensures writes == old(writes) + [Saved(ArtifactName(tag))]
      ensures progress == old(progress) && calls == old(calls) && visits == old(visits)
    {
      var rows: seq<(string, string)> := [];
      var k := 0;
      while k < |questions|
        invariant 0 <= k <= |questions|
        invariant rows == ArtifactRows(questions[..k], tag)
      {
        rows := rows + [(questions[k], tag)];
        k := k + 1;
      }
      assert questions[..k] == questions;
      artifacts := artifacts[ArtifactName(tag) := CsvFile(ArtifactHeader, rows)];
      writes := writes + [Saved(ArtifactName(tag))];
    }

    /** The body of the main loop for item `index` with tag `tag`; `saved`
        is what was written for it (nothing unless it succeeded). */
    method ProcessItem(index: int, tag: string, answers: map<string, string>,
                       byTag: map<string, seq<string>>, service: nat -> Response, choose: nat -> nat)
      returns (outcome: Outcome, saved: seq<string>, ghost v: Visit)
      requires forall t | t in byTag :: byTag[t] != []
      modifies this
      ensures progress == Some(index)
      ensures calls >= old(calls)
      ensures v == Visit(index, tag, outcome, old(calls), calls - old(calls), saved)
      ensures ItemDone(v, answers, byTag, service, old(visits), visits, old(artifacts), artifacts)
      ensures writes == old(writes) + WritesOf(v)
      ensures outcome == Skipped ==> calls == old(calls)
      ensures outcome == Failed ==>
        && calls == old(calls) + DefaultMaxRetries
        && forall n | old(calls) <= n < calls :: !Accepted(service(n))
      ensures outcome == Succeeded ==>
        && calls > old(calls) && Accepted(service(calls - 1))
        && saved == AcceptedQuestions(service(calls - 1))
        && artifacts == old(artifacts)[ArtifactName(tag) := CsvFile(ArtifactHeader, ArtifactRows(saved, tag))]
    {
      saved := [];
      if tag !in answers {
        SkipItem(index, tag);
        return Skipped, saved, Visit(index, tag, Skipped, calls, 0, saved);
      }
      var examples := GetRandomExamples(byTag, tag, ExamplesPerPrompt, choose);
      if examples == [] {
        SkipItem(index, tag);
        return Skipped, saved, Visit(index, tag, Skipped, calls, 0, saved);
      }
      outcome, saved := AttemptItem(index, tag, service);
      v := Visit(index, tag, outcome, old(calls), calls - old(calls), saved);
    }

    /** Skipping an item: the checkpoint moves past it and nothing else is
        done. */
    method SkipItem(index: int, tag: string)
      modifies this
      ensures progress == Some(index)
      ensures visits == old(visits) + [Visit(index, tag, Skipped, calls, 0, [])]
      ensures artifacts == old(artifacts) && calls == old(calls)
      ensures writes == old(writes) + [Checkpoint(index)]
    {
      UpdateProgress(index);
      visits := visits + [Visit(index, tag, Skipped, calls, 0, [])];
    }

    /** Generating and saving the questions of an item that has an answer and
        examples: the outcome is a success or a failure, never a skip. */
    method AttemptItem(index: int, tag: string, service: nat -> Response)
      returns (outcome: Outcome, saved: seq<string>)
      modifies this
      ensures progress == Some(index)
      ensures outcome != Skipped
      ensures calls >= old(calls)
      ensures visits == old(visits) + [Visit(index, tag, outcome, old(calls), calls - old(calls), saved)]
      ensures ServedBy(Visit(index, tag, outcome, old(calls), calls - old(calls), saved), service)
      ensures artifacts == Saving(old(artifacts), Visit(index, tag, outcome, old(calls), calls - old(calls), saved))
      ensures writes == old(writes) + WritesOf(Visit(index, tag, outcome, old(calls), calls - old(calls), saved))
    {
      saved := [];
      var first := calls;
      var questions, used := GenerateQuestions(service, first, DefaultMaxRetries);
      if questions.Some? && questions.value != [] && |questions.value| == TargetCount {
        saved := questions.value;
        SaveIndividualCsv(tag, saved);
        UpdateProgress(index);
        outcome := Succeeded;
      } else {
        UpdateProgress(index);
        outcome := Failed;
      }
      calls := first + used;
      ghost var v := Visit(index, tag, outcome, first, used, saved);
      RepliesServe(service, questions, v);
      visits := visits + [v];
    }

    /** `run_paraphrase_generation`. `clientReady` is whether the service
        client could be set up; `choose` stands for the random draws. */
    method Run(exampleRows: seq<ExampleRow>, answerRows: seq<AnswerRow>, clientReady: bool,
               testMode: bool, testTagCount: int, service: nat -> Response, choose: nat -> nat)
      returns (r: Result<Summary, RunError>)
      modifies this
      ensures !clientReady ==>
        && r == Ok(Summary(0, 0, 0)) && progress == old(progress)
        && artifacts == old(artifacts) && calls == old(calls) && visits == old(visits) && writes == old(writes)
      ensures clientReady ==>
        var tags := WorkList(exampleRows, testMode, testTagCount);
        var sched := Schedule(LastProcessed(old(progress)), |tags|);
        var start := StartIndex(LastProcessed(old(progress)), |tags|);
        && (r.Err? <==> start < -|tags|)
        && (r.Err? ==>
              && progress == old(progress) && artifacts == old(artifacts)
              && calls == old(calls) && visits == old(visits))
        && (r.Ok? ==>
              && Progressed(visits, old(visits), tags, start, |tags|, exampleRows, answerRows, service)
              && Counted(r.value, visits[|old(visits)|..])
              && r.value.success + r.value.failure + r.value.skipped == |sched|
              && progress == Some(|tags| - 1)
              && CallsChained(visits[|old(visits)|..], old(calls), calls)
              && artifacts == ArtifactsAfter(old(artifacts), visits[|old(visits)|..])
              && ArtifactsFollow(artifacts, old(artifacts), visits[|old(visits)|..]))
        && writes == old(writes) + ResetWrites(LastProcessed(old(progress)), |tags|)
                     + (if r.Ok? then WritesAfter(visits[|old(visits)|..]) else [])
    {
      if !clientReady {
        return Ok(Summary(0, 0, 0));
      }
      var tags, answers, byTag := LoadWork(exampleRows, answerRows, testMode, testTagCount);
      r := Resume(tags, answers, byTag, exampleRows, answerRows, service, choose);
    }

    /** The part of `run_paraphrase_generation` after loading: the loop
        resumes after the checkpoint, or starts over (resetting the
        checkpoint to -1) once the previous run reached the end. */
    method Resume(tags: seq<string>, answers: map<string, string>, byTag: map<string, seq<string>>,
                  ghost exampleRows: seq<ExampleRow>, ghost answerRows: seq<AnswerRow>,
                  service: nat -> Response, choose: nat -> nat)
      returns (r: Result<Summary, RunError>)
      requires forall t :: t in answers <==> HasAnswer(answerRows, t)
      requires forall t :: t in byTag <==> HasExamples(exampleRows, t)
      requires forall t | t in byTag :: byTag[t] != []
      modifies this
      ensures
        var sched := Schedule(LastProcessed(old(progress)), |tags|);
        var start := StartIndex(LastProcessed(old(progress)), |tags|);
        && (r.Err? <==> start < -|tags|)
        && (r.Err? ==>
              && progress == old(progress) && artifacts == old(artifacts)
              && calls == old(calls) && visits == old(visits))
        && (r.Ok? ==>
              && Progressed(visits, old(visits), tags, start, |tags|, exampleRows, answerRows, service)
              && Counted(r.value, visits[|old(visits)|..])
              && r.value.success + r.value.failure + r.value.skipped == |sched|
              && progress == Some(|tags| - 1)
              && CallsChained(visits[|old(visits)|..], old(calls), calls)
              && artifacts == ArtifactsAfter(old(artifacts), visits[|old(visits)|..])
              && ArtifactsFollow(artifacts, old(artifacts), visits[|old(visits)|..]))
        && writes == old(writes) + ResetWrites(LastProcessed(old(progress)), |tags|)
                     + (if r.Ok? then WritesAfter(visits[|old(visits)|..]) else [])
    {
      var total := |tags|;
      var last := LastProcessed(progress);
      var start := last + 1;
      if start >= total {
        start := 0;
        UpdateProgress(-1);
      }
      assert start == StartIndex(last, total) && |Schedule(last, total)| == total - start;
      assert visits == old(visits) && calls == old(calls) && artifacts == old(artifacts);
      assert writes == old(writes) + ResetWrites(last, total);
      r := ProcessFrom(tags, start, answers, byTag, exampleRows, answerRows, service, choose);
    }

    /** `run_paraphrase_generation`'s loading phase: the examples index, the
        work list (cut down in test mode) and the answers lookup. */
    method LoadWork(exampleRows: seq<ExampleRow>, answerRows: seq<AnswerRow>, testMode: bool, testTagCount: int)
      returns (tags: seq<string>, answers: map<string, string>, byTag: map<string, seq<string>>)
      ensures tags == WorkList(exampleRows, testMode, testTagCount)
      ensures forall t :: t in answers <==> HasAnswer(answerRows, t)
      ensures forall t :: t in byTag <==> HasExamples(exampleRows, t)
      ensures forall t | t in byTag :: byTag[t] != []
    {
      byTag := LoadExampleQuestions(exampleRows);
      tags := GetUniqueTags(exampleRows);
      answers := LoadAnswersLookup(answerRows);
      if testMode {
        tags := PyPrefix(tags, testTagCount);
      }
    }

    /** One turn of the main loop: item `i` is processed and the record of
        the run grows by its visit. */
    method ProcessNext(tags: seq<string>, start: int, i: int, answers: map<string, string>,
                       byTag: map<string, seq<string>>, ghost v0: seq<Visit>, ghost c0: nat,
                       ghost a0: map<string, CsvFile>, ghost w0: seq<Write>, ghost sum: Summary,
                       ghost exampleRows: seq<ExampleRow>, ghost answerRows: seq<AnswerRow>,
                       service: nat -> Response, choose: nat -> nat)
      returns (outcome: Outcome)
      requires -|tags| <= i < |tags|
      requires LoopInv(tags, start, i, v0, c0, a0, visits, calls, artifacts, sum, exampleRows, answerRows, service)
      requires writes == w0 + WritesAfter(visits[|v0|..])
      requires forall t :: t in answers <==> HasAnswer(answerRows, t)
      requires forall t :: t in byTag <==> HasExamples(exampleRows, t)
      requires forall t | t in byTag :: byTag[t] != []
      modifies this
      ensures calls >= old(calls) && progress == Some(i)
      ensures LoopInv(tags, start, i + 1, v0, c0, a0, visits, calls, artifacts, Bump(sum, outcome),
                      exampleRows, answerRows, service)
      ensures writes == w0 + WritesAfter(visits[|v0|..])
    {
      var tag := if i < 0 then tags[|tags| + i] else tags[i];
      ghost var vBefore, aBefore, cBefore, wBefore := visits, artifacts, calls, writes;
      var saved;
      ghost var v;
      outcome, saved, v := ProcessItem(i, tag, answers, byTag, service, choose);
      LoopStep(tags, start, i, v0, c0, a0, vBefore, cBefore, aBefore, sum, visits, artifacts,
               v, answers, byTag, exampleRows, answerRows, service);
      WritesNext(w0, v0, vBefore, wBefore, visits, writes, v);
    }

    /** The main loop: `for i in range(start, total)`. */
    method ProcessFrom(tags: seq<string>, start: int, answers: map<string, string>,
                       byTag: map<string, seq<string>>,
                       ghost exampleRows: seq<ExampleRow>, ghost answerRows: seq<AnswerRow>,
                       service: nat -> Response, choose: nat -> nat)
      returns (r: Result<Summary, RunError>)
      requires start <= |tags|
      requires forall t :: t in answers <==> HasAnswer(answerRows, t)
      requires forall t :: t in byTag <==> HasExamples(exampleRows, t)
      requires forall t | t in byTag :: byTag[t] != []
      modifies this
      ensures r.Err? <==> start < -|tags|
      ensures r.Err? ==>
        && progress == old(progress) && artifacts == old(artifacts)
        && calls == old(calls) && visits == old(visits) && writes == old(writes)
      ensures r.Ok? ==>
        && Progressed(visits, old(visits), tags, start, |tags|, exampleRows, answerRows, service)
        && Counted(r.value, visits[|old(visits)|..])
        && writes == old(writes) + WritesAfter(visits[|old(visits)|..])
        && r.value.success + r.value.failure + r.value.skipped == |tags| - start
        && progress == (if start < |tags| then Some(|tags| - 1) else old(progress))
        && CallsChained(visits[|old(visits)|..], old(calls), calls)
        && artifacts == ArtifactsAfter(old(artifacts), visits[|old(visits)|..])
        && ArtifactsFollow(artifacts, old(artifacts), visits[|old(visits)|..])
    {
      var total := |tags|;
      ghost var v0 := visits;
      ghost var c0 := calls;
      ghost var a0 := artifacts;
      ghost var w0 := writes;
      var sum := Summary(0, 0, 0);
      var i := start;
      LoopInit(tags, start, visits, calls, artifacts, exampleRows, answerRows, service);
      assert visits[|v0|..] == [];
      while i < total
        invariant v0 == old(visits) && c0 == old(calls) && a0 == old(artifacts) && w0 == old(writes)
        invariant LoopInv(tags, start, i, v0, c0, a0, visits, calls, artifacts, sum, exampleRows, answerRows, service)
        invariant writes == w0 + WritesAfter(visits[|v0|..])
        invariant i > start ==> progress == Some(i - 1)
        invariant i == start ==> progress == old(progress) && visits == v0 && calls == c0 && artifacts == a0
      {
        if i < -total {
          return Err(IndexOutOfRange(i));
        }
        var outcome := ProcessNext(tags, start, i, answers, byTag, v0, c0, a0, w0, sum, exampleRows, answerRows,
                                   service, choose);
        sum := Bump(sum, outcome);
        i := i + 1;
      }
      r := Ok(sum);
      LoopDone(tags, start, v0, c0, a0, visits, calls, artifacts, sum, exampleRows, answerRows, service);
    }
  }

  /** The loop invariant of the main loop, over the values of the state. */
  ghost predicate LoopInv(tags: seq<string>, start: int, i: int, v0: seq<Visit>, c0: nat, a0: map<string, CsvFile>,
                          visits: seq<Visit>, calls: nat, artifacts: map<string, CsvFile>, sum: Summary,
                          exampleRows: seq<ExampleRow>, answerRows: seq<AnswerRow>, service: nat -> Response) {
    && start <= i <= |tags|
    && (i > start ==> start >= -|tags|)
    && Progressed(visits, v0, tags, start, i, exampleRows, answerRows, service)
    && CallsChained(visits[|v0|..], c0, calls)
    && Counted(sum, visits[|v0|..])
    && artifacts == ArtifactsAfter(a0, visits[|v0|..])
    && ArtifactsFollow(artifacts, a0, visits[|v0|..])
  }

  /** The counters after one more outcome. */
  function Bump(s: Summary, o: Outcome): (t: Summary)
    ensures t.success + t.failure + t.skipped == s.success + s.failure + s.skipped + 1
  {
    match o
    case Succeeded => s.(success := s.success + 1)
    case Failed => s.(failure := s.failure + 1)
    case Skipped => s.(skipped := s.skipped + 1)
  }

  /** What processing one item does to the record of visits and the
      artifacts: the visit `v` is added, it is a skip exactly when its answer
      or its examples are missing, the replies to its own calls decide it,
      and a success writes its artifact and nothing else. */
  ghost predicate ItemDone(v: Visit, answers: map<string, string>, byTag: map<string, seq<string>>,
                           service: nat -> Response,
                           visits: seq<Visit>, visits': seq<Visit>,
                           artifacts: map<string, CsvFile>, artifacts': map<string, CsvFile>) {
    && visits' == visits + [v]
    && (v.outcome == Skipped <==> v.tag !in answers || v.tag !in byTag)
    && ServedBy(v, service)
    && artifacts' == Saving(artifacts, v)
  }

  lemma LoopInit(tags: seq<string>, start: int, visits: seq<Visit>, calls: nat, artifacts: map<string, CsvFile>,
                 exampleRows: seq<ExampleRow>, answerRows: seq<AnswerRow>, service: nat -> Response)
    requires start <= |tags|
    ensures LoopInv(tags, start, start, visits, calls, artifacts, visits, calls, artifacts,
                    Summary(0, 0, 0), exampleRows, answerRows, service)
  {
    assert visits[|visits|..] == [];
  }

  lemma LoopDone(tags: seq<string>, start: int, v0: seq<Visit>, c0: nat, a0: map<string, CsvFile>,
                 visits: seq<Visit>, calls: nat, artifacts: map<string, CsvFile>, sum: Summary,
                 exampleRows: seq<ExampleRow>, answerRows: seq<AnswerRow>, service: nat -> Response)
    requires LoopInv(tags, start, |tags|, v0, c0, a0, visits, calls, artifacts, sum, exampleRows, answerRows, service)
    ensures Progressed(visits, v0, tags, start, |tags|, exampleRows, answerRows, service)
    ensures Counted(sum, visits[|v0|..]) && sum.success + sum.failure + sum.skipped == |tags| - start
    ensures CallsChained(visits[|v0|..], c0, calls)
    ensures artifacts == ArtifactsAfter(a0, visits[|v0|..]) && ArtifactsFollow(artifacts, a0, visits[|v0|..])
  {
    CountsAddUp(visits[|v0|..]);
  }

  lemma LoopStep(tags: seq<string>, start: int, i: int, v0: seq<Visit>, c0: nat, a0: map<string, CsvFile>,
                 vBefore: seq<Visit>, cBefore: nat, aBefore: map<string, CsvFile>, sum: Summary,
                 visits: seq<Visit>, artifacts: map<string, CsvFile>, v: Visit,
                 answers: map<string, string>, byTag: map<string, seq<string>>,
                 exampleRows: seq<ExampleRow>, answerRows: seq<AnswerRow>, service: nat -> Response)
    requires LoopInv(tags, start, i, v0, c0, a0, vBefore, cBefore, aBefore, sum, exampleRows, answerRows, service)
    requires -|tags| <= i < |tags| && v.index == i && v.tag == TagAt(tags, i) && v.first == cBefore
    requires ItemDone(v, answers, byTag, service, vBefore, visits, aBefore, artifacts)
    requires forall t :: t in answers <==> HasAnswer(answerRows, t)
    requires forall t :: t in byTag <==> HasExamples(exampleRows, t)
    ensures LoopInv(tags, start, i + 1, v0, c0, a0, visits, cBefore + v.tries, artifacts, Bump(sum, v.outcome),
                    exampleRows, answerRows, service)
  {
    SliceStep(visits, vBefore, v0, v);
    ProgressedStep(visits, vBefore, v0, tags, start, i, v, exampleRows, answerRows, service);
    ChainedStep(vBefore[|v0|..], v, c0, cBefore);
    SavingStep(artifacts, aBefore, a0, vBefore[|v0|..], v, service);
    CountedStep(sum, vBefore[|v0|..], v);
  }

  lemma SliceStep(visits: seq<Visit>, vBefore: seq<Visit>, v0: seq<Visit>, v: Visit)
    requires |v0| <= |vBefore| && visits == vBefore + [v]
    ensures visits[|v0|..] == vBefore[|v0|..] + [v]
  {
  }

  /** The artifacts after one more visit, as `ArtifactsAfter` and
      `ArtifactsFollow` describe them. */
  lemma SavingStep(artifacts: map<string, CsvFile>, aBefore: map<string, CsvFile>, a0: map<string, CsvFile>,
                   vs: seq<Visit>, v: Visit, service: nat -> Response)
    requires aBefore == ArtifactsAfter(a0, vs) && ArtifactsFollow(aBefore, a0, vs)
    requires ServedBy(v, service) && artifacts == Saving(aBefore, v)
    ensures artifacts == ArtifactsAfter(a0, vs + [v]) && ArtifactsFollow(artifacts, a0, vs + [v])
  {
    assert (vs + [v])[..|vs|] == vs;
    if v.outcome == Succeeded {
      AcceptedArtifact(service(v.first + v.tries - 1), v.tag);
    }
    ArtifactsStep(artifacts, aBefore, a0, vs, v, ArtifactOf(v));
  }

  lemma CountedStep(sum: Summary, vs: seq<Visit>, v: Visit)
    requires Counted(sum, vs)
    ensures Counted(Bump(sum, v.outcome), vs + [v])
  {
    assert (vs + [v])[..|vs|] == vs;
  }

  /** The counters of `s` count the outcomes among `vs`. */
  ghost predicate Counted(s: Summary, vs: seq<Visit>) {
    && s.success == Count(vs, Succeeded)
    && s.failure == Count(vs, Failed)
    && s.skipped == Count(vs, Skipped)
  }

  // ---------------------------------------------------------------------
  // What a run leaves behind

  /** The visits made so far are the schedule up to `i`, each with its tag,
      skipped exactly when the tag lacks an answer or examples, and decided
      by the replies to its own calls. */
  ghost predicate Progressed(visits: seq<Visit>, v0: seq<Visit>, tags: seq<string>, start: int, i: int,
                             exampleRows: seq<ExampleRow>, answerRows: seq<AnswerRow>, service: nat -> Response) {
    && start <= i
    && |visits| == |v0| + (i - start)
    && visits[..|v0|] == v0
    && forall k | |v0| <= k < |visits| ::
      && -|tags| <= visits[k].index < |tags|
      && visits[k].index == start + (k - |v0|)
      && visits[k].tag == TagAt(tags, visits[k].index)
      && (visits[k].outcome == Skipped <==>
            !HasAnswer(answerRows, visits[k].tag) || !HasExamples(exampleRows, visits[k].tag))
      && ServedBy(visits[k], service)
  }

  lemma ProgressedStep(visits: seq<Visit>, vBefore: seq<Visit>, v0: seq<Visit>, tags: seq<string>,
                       start: int, i: int, v: Visit,
                       exampleRows: seq<ExampleRow>, answerRows: seq<AnswerRow>, service: nat -> Response)
    requires Progressed(vBefore, v0, tags, start, i, exampleRows, answerRows, service)
    requires -|tags| <= i < |tags| && v.index == i && v.tag == TagAt(tags, i)
    requires visits == vBefore + [v]
    requires v.outcome == Skipped <==> !HasAnswer(answerRows, v.tag) || !HasExamples(exampleRows, v.tag)
    requires ServedBy(v, service)
    ensures Progressed(visits, v0, tags, start, i + 1, exampleRows, answerRows, service)
  {
    assert visits[..|v0|] == vBefore[..|v0|];
    forall k | |v0| <= k < |visits|
      ensures visits[k] == if k < |vBefore| then vBefore[k] else v
    {
    }
  }

  /** An artifact that a visit succeeded for. */
  ghost predicate SavedBy(name: string, vs: seq<Visit>) {
    exists v | v in vs :: v.outcome == Succeeded && name == ArtifactName(v.tag)
  }

  /** The artifacts are the earlier ones plus one for every success among
      `vs`, each holding what an artifact of its tag holds; every other
      artifact is left as it was. */
  ghost predicate ArtifactsFollow(artifacts: map<string, CsvFile>, a0: map<string, CsvFile>, vs: seq<Visit>) {
    && (forall name :: name in artifacts <==> name in a0 || SavedBy(name, vs))
    && (forall name | name in a0 && !SavedBy(name, vs) :: artifacts[name] == a0[name])
    && (forall v | v in vs && v.outcome == Succeeded ::
          ArtifactName(v.tag) in artifacts && IsArtifactFor(artifacts[ArtifactName(v.tag)], v.tag))
  }

  lemma ArtifactsStep(artifacts: map<string, CsvFile>, aBefore: map<string, CsvFile>, a0: map<string, CsvFile>,
                      vs: seq<Visit>, v: Visit, f: CsvFile)
    requires ArtifactsFollow(aBefore, a0, vs)
    requires v.outcome != Succeeded ==> artifacts == aBefore
    requires v.outcome == Succeeded ==> artifacts == aBefore[ArtifactName(v.tag) := f] && IsArtifactFor(f, v.tag)
    ensures ArtifactsFollow(artifacts, a0, vs + [v])
  {
    var vs' := vs + [v];
    forall name ensures SavedBy(name, vs') <==> SavedBy(name, vs) || (v.outcome == Succeeded && name == ArtifactName(v.tag)) {
      if SavedBy(name, vs') {
        var w :| w in vs' && w.outcome == Succeeded && name == ArtifactName(w.tag);
        if w != v {
          assert w in vs;
        }
      }
      if SavedBy(name, vs) {
        var w :| w in vs && w.outcome == Succeeded && name == ArtifactName(w.tag);
        assert w in vs';
      }
      if v.outcome == Succeeded && name == ArtifactName(v.tag) {
        assert v in vs';
      }
    }
    if v.outcome == Succeeded {
      forall w | w in vs' && w.outcome == Succeeded
        ensures ArtifactName(w.tag) in artifacts && IsArtifactFor(artifacts[ArtifactName(w.tag)], w.tag)
      {
        if ArtifactName(w.tag) == ArtifactName(v.tag) {
          assert w.tag == v.tag by {
            assert w.tag == ArtifactName(w.tag)[..|ArtifactName(w.tag)| - 4];
            assert v.tag == ArtifactName(v.tag)[..|ArtifactName(v.tag)| - 4];
          }
        } else {
          assert w in vs;
        }
      }
    } else {
      forall w | w in vs' && w.outcome == Succeeded
        ensures ArtifactName(w.tag) in artifacts && IsArtifactFor(artifacts[ArtifactName(w.tag)], w.tag)
      {
        assert w in vs;
      }
    }
  }

  // ---------------------------------------------------------------------
  // A worked run

  /** Two tags with answers and examples, the first answered on its first
      call, the second never: one success, one failure, no skip, four calls,
      and the only new artifact is the first tag's, holding the accepted
      questions (with no earlier artifacts, exactly one artifact file
      exists); the durable writes are that artifact, then the checkpoint of
      each item in turn. */
  lemma OneSuccessOneFailure(visits: seq<Visit>, v0: seq<Visit>, exampleRows: seq<ExampleRow>,
                             answerRows: seq<AnswerRow>, service: nat -> Response, sum: Summary,
                             c0: nat, calls: nat, a0: map<string, CsvFile>, artifacts: map<string, CsvFile>,
                             w0: seq<Write>, writes: seq<Write>)
    requires Progressed(visits, v0, ["voting", "nid_card"], 0, 2, exampleRows, answerRows, service)
    requires CallsChained(visits[|v0|..], c0, calls)
    requires Counted(sum, visits[|v0|..])
    requires artifacts == ArtifactsAfter(a0, visits[|v0|..])
    requires writes == w0 + WritesAfter(visits[|v0|..])
    requires HasAnswer(answerRows, "voting") && HasExamples(exampleRows, "voting")
    requires HasAnswer(answerRows, "nid_card") && HasExamples(exampleRows, "nid_card")
    requires Accepted(service(c0))
    requires forall n | c0 < n <= c0 + DefaultMaxRetries :: !Accepted(service(n))
    ensures sum == Summary(1, 1, 0)
    ensures artifacts == a0["voting.csv" := CsvFile(ArtifactHeader, ArtifactRows(AcceptedQuestions(service(c0)), "voting"))]
    ensures a0 == map[] ==> artifacts.Keys == {"voting.csv"}
    ensures calls == c0 + 1 + DefaultMaxRetries
    ensures writes == w0 + [Saved("voting.csv"), Checkpoint(0), Checkpoint(1)]
  {
    var tags := ["voting", "nid_card"];
    var m := |v0|;
    var va, vb := visits[m], visits[m + 1];
    VisitFacts(visits, v0, tags, 0, 2, exampleRows, answerRows, service, m);
    VisitFacts(visits, v0, tags, 0, 2, exampleRows, answerRows, service, m + 1);
    var vs := visits[m..];
    assert vs == [va, vb];
    ScenarioVisits(va, vb, service, c0, calls, a0);
    TwoWrites(va, vb);
  }

  /** What `Progressed` says about the `k`-th visit. */
  lemma VisitFacts(visits: seq<Visit>, v0: seq<Visit>, tags: seq<string>, start: int, i: int,
                   exampleRows: seq<ExampleRow>, answerRows: seq<AnswerRow>, service: nat -> Response, k: nat)
    requires Progressed(visits, v0, tags, start, i, exampleRows, answerRows, service)
    requires |v0| <= k < |visits|
    ensures visits[k].index == start + (k - |v0|) && -|tags| <= visits[k].index < |tags|
    ensures visits[k].tag == TagAt(tags, visits[k].index)
    ensures visits[k].outcome == Skipped <==>
      !HasAnswer(answerRows, visits[k].tag) || !HasExamples(exampleRows, visits[k].tag)
    ensures ServedBy(visits[k], service)
  {
  }

  /** The two visits of the worked run, once they are known to be the
      voting item and then the nid_card item. */
  lemma ScenarioVisits(va: Visit, vb: Visit, service: nat -> Response, c0: nat, calls: nat, a0: map<string, CsvFile>)
    requires va.index == 0 && va.tag == TagAt(["voting", "nid_card"], 0) && va.outcome != Skipped
    requires vb.index == 1 && vb.tag == TagAt(["voting", "nid_card"], 1) && vb.outcome != Skipped
    requires ServedBy(va, service) && ServedBy(vb, service)
    requires CallsChained([va, vb], c0, calls)
    requires Accepted(service(c0))
    requires forall n | c0 < n <= c0 + DefaultMaxRetries :: !Accepted(service(n))
    ensures va.outcome == Succeeded && vb.outcome == Failed
    ensures forall o :: Count([va, vb], o) == (if va.outcome == o then 1 else 0) + (if vb.outcome == o then 1 else 0)
    ensures ArtifactsAfter(a0, [va, vb]) ==
      a0["voting.csv" := CsvFile(ArtifactHeader, ArtifactRows(AcceptedQuestions(service(c0)), "voting"))]
    ensures calls == c0 + 1 + DefaultMaxRetries
  {
    ScenarioOutcomes(va, vb, service, c0, calls);
    TwoVisits(va, vb, a0);
    assert va.tag == "voting";
    assert ArtifactName("voting") == "voting.csv";
    assert ArtifactOf(va) == CsvFile(ArtifactHeader, ArtifactRows(AcceptedQuestions(service(c0)), "voting"));
    assert Saving(Saving(a0, va), vb) == Saving(a0, va);
  }

  /** The replies alone decide the two outcomes of the worked run. */
  lemma ScenarioOutcomes(va: Visit, vb: Visit, service: nat -> Response, c0: nat, calls: nat)
    requires va.outcome != Skipped && vb.outcome != Skipped
    requires ServedBy(va, service) && ServedBy(vb, service)
    requires CallsChained([va, vb], c0, calls)
    requires Accepted(service(c0))
    requires forall n | c0 < n <= c0 + DefaultMaxRetries :: !Accepted(service(n))
    ensures va.outcome == Succeeded && vb.outcome == Failed
    ensures va.saved == AcceptedQuestions(service(c0))
    ensures calls == c0 + 1 + DefaultMaxRetries
  {
    assert [va, vb][0] == va && [va, vb][1] == vb;
    assert va.first == c0 && vb.first == va.first + va.tries;
    FirstCallAccepted(va, service);
    LaterCallsRefused(vb, c0, service);
  }

  /** An attempted item whose first reply is accepted succeeds on that call. */
  lemma FirstCallAccepted(v: Visit, service: nat -> Response)
    requires ServedBy(v, service) && v.outcome != Skipped
    requires Accepted(service(v.first))
    ensures v.outcome == Succeeded && v.tries == 1
  {
    assert v.first <= v.first < v.first + v.tries;
  }

  /** An attempted item none of whose possible replies is accepted fails. */
  lemma LaterCallsRefused(v: Visit, c0: nat, service: nat -> Response)
    requires ServedBy(v, service) && v.outcome != Skipped && v.first == c0 + 1
    requires forall n | c0 < n <= c0 + DefaultMaxRetries :: !Accepted(service(n))
    ensures v.outcome == Failed
  {
    if v.tries >= 1 {
      assert c0 < v.first + v.tries - 1 <= c0 + DefaultMaxRetries;
    }
  }

  /** The writes of a success on item 0 followed by a failure on item 1. */
  lemma TwoWrites(va: Visit, vb: Visit)
    requires va.index == 0 && va.tag == "voting" && va.outcome == Succeeded
    requires vb.index == 1 && vb.outcome == Failed
    ensures WritesAfter([va, vb]) == [Saved("voting.csv"), Checkpoint(0), Checkpoint(1)]
  {
    WritesStep([va], vb);
    WritesStep([], va);
    assert [] + [va] == [va];
    assert ArtifactName("voting") == "voting.csv";
  }

  /** The counters and the artifacts after exactly two visits. */
  lemma TwoVisits(va: Visit, vb: Visit, a0: map<string, CsvFile>)
    ensures forall o :: Count([va, vb], o) == (if va.outcome == o then 1 else 0) + (if vb.outcome == o then 1 else 0)
    ensures ArtifactsAfter(a0, [va, vb]) == Saving(Saving(a0, va), vb)
  {
    var one, two := [va], [va, vb];
    assert two[..|two| - 1] == one && two[|two| - 1] == vb;
    assert one[..|one| - 1] == [] && one[|one| - 1] == va;
    forall o ensures Count(two, o) == (if va.outcome == o then 1 else 0) + (if vb.outcome == o then 1 else 0) {
      assert Count(one, o) == (if va.outcome == o then 1 else 0);
    }
    assert ArtifactsAfter(a0, one) == Saving(a0, va);
  }
}
