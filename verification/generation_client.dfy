/** The generation client of the paraphrase generator
    (generate_paraphrases.py, lines 126-224): asks the text-generation
    service for a numbered list of questions, cleans the lines of the reply,
    and retries a bounded number of times until a reply holds enough of them. */
module GenerationClient {
  import opened Common
  import opened Strings

  /** Questions asked for, and kept, per tag. */
  const TargetCount: nat := 200

  /** Attempts per tag unless the caller says otherwise. */
  const DefaultMaxRetries: int := 3

  /** What one call to the service gives back: a raised error, or a reply text. */
  datatype Response = Fault | Reply(text: string)

  /** The characters taken off a line after its leading digits. */
  const EnumerationMarks: set<char> := {'.', ' ', ')', '-'}

  const DecimalDigits: set<char> := {'0', '1', '2', '3', '4', '5', '6', '7', '8', '9'}

  // ---------------------------------------------------------------------
  // Cleaning a reply

  /** One line of a reply with its enumeration taken off: strip, drop leading
      digits, drop leading `. )-`, strip again. */
  function CleanLine(line: string): string {
    CleanFrom(line, 0)
  }

  /** The cleaning steps from step `step` on, applied to `s`. */
  function CleanFrom(s: string, step: nat): string
    requires step <= 3
    decreases 3 - step
  {
    if step == 0 then CleanFrom(Strip(s), 1)
    else if step == 1 then CleanFrom(LStripChars(s, DecimalDigits), 2)
    else if step == 2 then CleanFrom(LStripChars(s, EnumerationMarks), 3)
    else Strip(s)
  }

  /** `CleanLine` step by step. */
  lemma CleanLineSteps(line: string)
    ensures CleanLine(line) == Strip(LStripChars(LStripChars(Strip(line), DecimalDigits), EnumerationMarks))
  {
    var a := Strip(line);
    var b := LStripChars(a, DecimalDigits);
    var d := LStripChars(b, EnumerationMarks);
    assert CleanFrom(line, 0) == CleanFrom(a, 1);
    assert CleanFrom(a, 1) == CleanFrom(b, 2);
    assert CleanFrom(b, 2) == CleanFrom(d, 3);
  }

  lemma CleanLineChars(line: string, c: char)
    requires c in CleanLine(line)
    ensures c in line
  {
    var a := Strip(line);
    var b := LStripChars(a, DecimalDigits);
    var d := LStripChars(b, EnumerationMarks);
    CleanLineSteps(line);
    StripSub(d, c);
    LStripCharsSub(b, EnumerationMarks, c);
    LStripCharsSub(a, DecimalDigits, c);
    StripSub(line, c);
  }

  lemma CleanLineEnds(line: string)
    ensures var q := CleanLine(line); q != [] ==> !IsSpace(q[0]) && !IsSpace(q[|q| - 1])
  {
    CleanLineSteps(line);
    StripEnds(LStripChars(LStripChars(Strip(line), DecimalDigits), EnumerationMarks));
  }

  /** The questions of a list of lines: the cleaned lines that are not empty,
      in order. */
  function ParseLines(lines: seq<string>): (qs: seq<string>)
    ensures |qs| <= |lines|
    ensures forall i | 0 <= i < |qs| :: qs[i] != []
  {
    if lines == [] then []
    else if Strip(lines[0]) == "" then ParseLines(lines[1..])
    else
      var q := CleanLine(lines[0]);
      (if q != "" then [q] else []) + ParseLines(lines[1..])
  }

  lemma {:induction false} ParseLinesChars(lines: seq<string>, i: nat, c: char)
    requires i < |ParseLines(lines)| && c in ParseLines(lines)[i]
    ensures exists j | 0 <= j < |lines| :: c in lines[j]
  {
    if lines != [] {
      var rest := ParseLines(lines[1..]);
      if Strip(lines[0]) == "" {
        ParseLinesChars(lines[1..], i, c);
        var j :| 0 <= j < |lines[1..]| && c in lines[1..][j];
        assert c in lines[j + 1];
      } else if CleanLine(lines[0]) != "" && i == 0 {
        CleanLineChars(lines[0], c);
      } else {
        var k := if CleanLine(lines[0]) != "" then i - 1 else i;
        assert ParseLines(lines)[i] == rest[k];
        ParseLinesChars(lines[1..], k, c);
        var j :| 0 <= j < |lines[1..]| && c in lines[1..][j];
        assert c in lines[j + 1];
      }
    }
  }

  /** The questions in a (stripped) reply text, one per line. */
  function ParseQuestions(text: string): (qs: seq<string>)
    ensures |qs| <= |Split(text, '\n')|
    ensures forall i | 0 <= i < |qs| :: qs[i] != []
  {
    ParseLines(Split(text, '\n'))
  }

  /** Every parsed question is one line without surrounding whitespace. */
  lemma ParsedQuestionsClean(text: string, i: nat)
    requires i < |ParseQuestions(text)|
    ensures var q := ParseQuestions(text)[i];
      '\n' !in q && !IsSpace(q[0]) && !IsSpace(q[|q| - 1])
  {
    var lines := Split(text, '\n');
    if '\n' in ParseQuestions(text)[i] {
      ParseLinesChars(lines, i, '\n');
      assert false;
    }
    ParseLinesEnds(lines, i);
  }

  lemma {:induction false} ParseLinesEnds(lines: seq<string>, i: nat)
    requires i < |ParseLines(lines)|
    ensures var q := ParseLines(lines)[i]; !IsSpace(q[0]) && !IsSpace(q[|q| - 1])
  {
    var rest := ParseLines(lines[1..]);
    if Strip(lines[0]) == "" {
      ParseLinesEnds(lines[1..], i);
    } else if CleanLine(lines[0]) != "" && i == 0 {
      CleanLineEnds(lines[0]);
    } else {
      var k := if CleanLine(lines[0]) != "" then i - 1 else i;
      assert ParseLines(lines)[i] == rest[k];
      ParseLinesEnds(lines[1..], k);
    }
  }

  // ---------------------------------------------------------------------
  // The reply format the prompt asks for, and its round trip

  /** A question that can travel on one numbered line: not empty, no line
      break, no surrounding whitespace, and not starting with an enumeration
      mark. It may start with a digit: only the digits before the first
      mark are taken for the line number. */
  predicate WellFormedQuestion(q: string) {
    && q != []
    && '\n' !in q
    && !IsSpace(q[0]) && !IsSpace(q[|q| - 1])
    && q[0] !in EnumerationMarks
  }

  /** `"<n>. <q>"` */
  function NumberedLine(n: nat, q: string): string {
    NatToString(n) + ". " + q
  }

  /** The lines "1. q1", "2. q2", ... numbered from `from`. */
  function NumberedLines(qs: seq<string>, from: nat): (lines: seq<string>)
    ensures |lines| == |qs|
  {
    if qs == [] then [] else [NumberedLine(from, qs[0])] + NumberedLines(qs[1..], from + 1)
  }

  /** A reply in the requested format: one numbered question per line. */
  function Render(qs: seq<string>): string
    requires |qs| >= 1
  {
    Join(NumberedLines(qs, 1), '\n')
  }

  lemma CleanNumberedLine(n: nat, q: string)
    requires WellFormedQuestion(q)
    ensures Strip(NumberedLine(n, q)) != ""
    ensures CleanLine(NumberedLine(n, q)) == q
  {
    var digits := NatToString(n);
    var tail := ". " + q;
    var line := digits + tail;
    assert line == NumberedLine(n, q);
    assert line[0] == digits[0] && line[|line| - 1] == q[|q| - 1];
    assert IsDigit(digits[0]);
    StripKeeps(line);
    forall i | 0 <= i < |digits| ensures digits[i] in DecimalDigits {
      assert IsDigit(digits[i]);
    }
    LStripCharsDropsPrefix(digits, tail, DecimalDigits);
    assert LStripChars(tail, DecimalDigits) == tail;
    LStripCharsDropsPrefix(". ", q, EnumerationMarks);
    assert LStripChars(q, EnumerationMarks) == q;
    StripKeeps(q);
    CleanLineSteps(line);
  }

  /** Cleaning takes off only the leading enumeration: a question that
      itself starts with a number keeps that number, so a parsed question
      can start with a digit. */
  lemma CleanLineKeepsLeadingNumber(n: nat, q: string)
    requires WellFormedQuestion(q) && IsDigit(q[0])
    ensures CleanLine(NumberedLine(n, q)) == q
    ensures IsDigit(CleanLine(NumberedLine(n, q))[0])
  {
    CleanNumberedLine(n, q);
  }

  lemma {:induction false} ParseNumberedLines(qs: seq<string>, from: nat)
    requires forall i | 0 <= i < |qs| :: WellFormedQuestion(qs[i])
    ensures ParseLines(NumberedLines(qs, from)) == qs
  {
    if qs != [] {
      CleanNumberedLine(from, qs[0]);
      ParseNumberedLines(qs[1..], from + 1);
      assert NumberedLines(qs, from)[1..] == NumberedLines(qs[1..], from + 1);
      assert qs == [qs[0]] + qs[1..];
    }
  }

  lemma {:induction false} NumberedLinesShape(qs: seq<string>, from: nat)
    requires forall i | 0 <= i < |qs| :: WellFormedQuestion(qs[i])
    ensures forall i | 0 <= i < |qs| :: '\n' !in NumberedLines(qs, from)[i]
  {
    if qs != [] {
      NumberedLinesShape(qs[1..], from + 1);
      var line := NumberedLine(from, qs[0]);
      var digits := NatToString(from);
      forall i | 1 <= i < |qs| ensures '\n' !in NumberedLines(qs, from)[i] {
        assert NumberedLines(qs, from)[i] == NumberedLines(qs[1..], from + 1)[i - 1];
      }
    }
  }

  /** The parser reads back a reply in the requested format exactly. */
  lemma ParseRender(qs: seq<string>)
    requires |qs| >= 1
    requires forall i | 0 <= i < |qs| :: WellFormedQuestion(qs[i])
    ensures Strip(Render(qs)) == Render(qs)
    ensures ParseQuestions(Strip(Render(qs))) == qs
  {
    var lines := NumberedLines(qs, 1);
    NumberedLinesShape(qs, 1);
    SplitJoin(lines, '\n');
    ParseNumberedLines(qs, 1);
    RenderEnds(qs);
    StripKeeps(Render(qs));
  }

  /** A rendered reply starts with a digit and ends with the last question's
      last character. */
  lemma RenderEnds(qs: seq<string>)
    requires |qs| >= 1
    requires forall i | 0 <= i < |qs| :: WellFormedQuestion(qs[i])
    ensures var r := Render(qs); r != [] && !IsSpace(r[0]) && !IsSpace(r[|r| - 1])
  {
    var lines := NumberedLines(qs, 1);
    LastNumberedLine(qs, 1);
    JoinFirst(lines, '\n');
    JoinLast(lines, '\n');
    assert IsDigit(NatToString(1)[0]);
  }

  lemma {:induction false} JoinFirst(parts: seq<string>, sep: char)
    requires |parts| >= 1 && parts[0] != []
    ensures Join(parts, sep) != [] && Join(parts, sep)[0] == parts[0][0]
  {
  }

  lemma {:induction false} JoinLast(parts: seq<string>, sep: char)
    requires |parts| >= 1 && parts[|parts| - 1] != []
    ensures var j := Join(parts, sep); j != [] && j[|j| - 1] == parts[|parts| - 1][|parts[|parts| - 1]| - 1]
  {
    if |parts| > 1 {
      JoinLast(parts[1..], sep);
    }
  }

  lemma {:induction false} LastNumberedLine(qs: seq<string>, from: nat)
    requires |qs| >= 1 && qs[|qs| - 1] != []
    ensures var lines := NumberedLines(qs, from);
      lines[0] != [] && lines[0][0] == NatToString(from)[0]
      && lines[|lines| - 1] != []
      && lines[|lines| - 1][|lines[|lines| - 1]| - 1] == qs[|qs| - 1][|qs[|qs| - 1]| - 1]
  {
    if |qs| > 1 {
      LastNumberedLine(qs[1..], from + 1);
      assert NumberedLines(qs, from)[1..] == NumberedLines(qs[1..], from + 1);
    }
  }

  // ---------------------------------------------------------------------
  // The retry loop

  /** A reply the loop accepts: not blank after stripping, and holding at
      least `TargetCount` questions. */
  predicate Accepted(r: Response) {
    r.Reply? && Strip(r.text) != "" && |ParseQuestions(Strip(r.text))| >= TargetCount
  }

  /** `generate_questions_with_gpt5`: calls the service (`service(first + k)`
      is the outcome of the `k`-th attempt) until a reply is accepted or
      `maxRetries` attempts are used up. */
  method GenerateQuestions(service: nat -> Response, first: nat, maxRetries: int)
    returns (result: Option<seq<string>>, calls: nat)
    ensures calls <= (if maxRetries > 0 then maxRetries else 0)
    ensures forall n | first <= n < first + calls :: Accepted(service(n)) <==> (result.Some? && n == first + calls - 1)
    ensures result.None? ==> calls == (if maxRetries > 0 then maxRetries else 0)
    ensures result.Some? ==>
      && calls >= 1 && Accepted(service(first + calls - 1))
      && result.value == AcceptedQuestions(service(first + calls - 1)) && |result.value| == TargetCount
  {
    var attempt := 0;
    calls := 0;
    while attempt < maxRetries
      invariant 0 <= attempt && calls == attempt
      invariant maxRetries > 0 ==> attempt < maxRetries
      invariant maxRetries <= 0 ==> attempt == 0
      invariant forall n | first <= n < first + calls :: !Accepted(service(n))
    {
      var response := service(first + attempt);
      calls := attempt + 1;
      assert first + calls - 1 == first + attempt;
      if response.Fault? {
        if attempt < maxRetries - 1 {
          attempt := attempt + 1;
          continue;
        }
        return None, calls;
      }
      var text := Strip(response.text);
      if text == "" {
        assert !Accepted(response);
        if attempt < maxRetries - 1 {
          attempt := attempt + 1;
          continue;
        }
        return None, calls;
      }
      var questions := ParseQuestions(text);
      if |questions| < TargetCount {
        assert !Accepted(response);
        if attempt < maxRetries - 1 {
          attempt := attempt + 1;
          continue;
        }
        return None, calls;
      }
      assert Accepted(response);
      return Some(questions[..TargetCount]), calls;
    }
    return None, calls;
  }

  /** The questions an accepted reply gives: its first `TargetCount`. */
  function AcceptedQuestions(r: Response): seq<string>
    requires Accepted(r)
  {
    ParseQuestions(Strip(r.text))[..TargetCount]
  }

  /** An accepted reply yields exactly `TargetCount` clean questions. */
  lemma AcceptedYieldsTarget(r: Response)
    requires Accepted(r)
    ensures |AcceptedQuestions(r)| == TargetCount
    ensures forall i | 0 <= i < TargetCount :: AcceptedQuestions(r)[i] != [] && '\n' !in AcceptedQuestions(r)[i]
  {
    var all := ParseQuestions(Strip(r.text));
    forall i | 0 <= i < TargetCount ensures '\n' !in all[i] {
      ParsedQuestionsClean(Strip(r.text), i);
    }
  }

  /** A reply in the requested format with at least `TargetCount` questions is
      accepted and gives back its first `TargetCount` questions. */
  lemma RenderedReplyAccepted(qs: seq<string>)
    requires |qs| >= TargetCount
    requires forall i | 0 <= i < |qs| :: WellFormedQuestion(qs[i])
    ensures Accepted(Reply(Render(qs)))
    ensures AcceptedQuestions(Reply(Render(qs))) == qs[..TargetCount]
  {
    ParseRender(qs);
    RenderEnds(qs);
  }
}
