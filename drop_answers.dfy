/**
 * The gold answers of a DROP question: `parse_answer`, the flattening of the
 * validated answers and `get_answers`, which keeps the first occurrence of
 * every parsed answer.
 */
module DropAnswers {
  import opened Wrappers
  import opened DropText
  import DropScoring

  /** The `date` field of an answer record. */
  datatype Date = Date(day: string, month: string, year: string)

  /** One answer record: a number, a date and a list of spans, of which parsing keeps one. */
  datatype AnswerRecord = AnswerRecord(number: string, date: Date, spans: seq<string>)

  /** The column-wise `validated_answers` dictionary: one list per field. */
  datatype ValidatedAnswers = ValidatedAnswers(numbers: seq<string>, dates: seq<Date>, spans: seq<seq<string>>)

  /** A question's answer record together with its validated answers. */
  datatype QA = QA(answer: AnswerRecord, validated: ValidatedAnswers)

  /** The `IndexError` of reading `validated_answers[field][index]` past the end of that list. */
  datatype FlattenError = IndexError(field: string, index: nat)

  // ---------------------------------------------------------------------
  // `parse_answer`
  // ---------------------------------------------------------------------

  /**
   * `parse_answer`: the number when there is one, otherwise the spans when
   * there are some, otherwise the stripped "day month year" of the date,
   * always as a non-empty tuple.
   */
  function ParseAnswer(a: AnswerRecord): (t: seq<string>)
    ensures |t| > 0
    ensures a.number != "" ==> t == [a.number]
    ensures a.number == "" && a.spans != [] ==> t == a.spans
    ensures a.number == "" && a.spans == [] ==> t == [Strip(a.date.day + " " + a.date.month + " " + a.date.year)]
  {
    if a.number != "" then [a.number]
    else if a.spans != [] then a.spans
    else [Strip(a.date.day + " " + a.date.month + " " + a.date.year)]
  }

  /** A record with a number parses to that number, whatever its date and spans. */
  lemma ParseAnswerNumberFirst(a: AnswerRecord, b: AnswerRecord)
    requires a.number != "" && a.number == b.number
    ensures ParseAnswer(a) == ParseAnswer(b)
  {
  }

  // ---------------------------------------------------------------------
  // `_flatten_validated_answers`
  // ---------------------------------------------------------------------

  /**
   * The row-wise view of the validated answers: row `i` takes the `i`-th
   * entry of each list, for every index of the `number` list. Reading
   * `date` before `spans`, the first index past the end of one of them
   * raises.
   */
  function Flatten(v: ValidatedAnswers): (r: Result<seq<AnswerRecord>, FlattenError>)
    ensures r.Ok? <==> |v.numbers| <= |v.dates| && |v.numbers| <= |v.spans|
    ensures r.Ok? ==> |r.value| == |v.numbers|
    ensures r.Ok? ==> forall i :: 0 <= i < |r.value| ==>
      r.value[i].number == v.numbers[i] && r.value[i].date == v.dates[i] && r.value[i].spans == v.spans[i]
    ensures r.Err? ==> r.error.index < |v.numbers|
    ensures r.Err? ==> (if |v.dates| <= |v.spans| then r.error == IndexError("date", |v.dates|) else r.error == IndexError("spans", |v.spans|))
  {
    var n := |v.numbers|;
    if n <= |v.dates| && n <= |v.spans| then
      Ok(seq(n, i requires 0 <= i < n => AnswerRecord(v.numbers[i], v.dates[i], v.spans[i])))
    else if |v.dates| <= |v.spans| then
      Err(IndexError("date", |v.dates|))
    else
      Err(IndexError("spans", |v.spans|))
  }

  /** `_flatten_validated_answers`: the index loop that builds the list of rows. */
  method FlattenValidatedAnswers(v: ValidatedAnswers) returns (r: Result<seq<AnswerRecord>, FlattenError>)
    ensures r == Flatten(v)
  {
    var validAnswers: seq<AnswerRecord> := [];
    for i := 0 to |v.numbers|
      invariant i <= |v.dates| && i <= |v.spans|
      invariant |validAnswers| == i
      invariant forall k :: 0 <= k < i ==> validAnswers[k] == AnswerRecord(v.numbers[k], v.dates[k], v.spans[k])
    {
      if i >= |v.dates| {
        return Err(IndexError("date", i));
      }
      if i >= |v.spans| {
        return Err(IndexError("spans", i));
      }
      validAnswers := validAnswers + [AnswerRecord(v.numbers[i], v.dates[i], v.spans[i])];
    }
    assert validAnswers == Flatten(v).value;
    r := Ok(validAnswers);
  }

  // ---------------------------------------------------------------------
  // Keeping first occurrences
  // ---------------------------------------------------------------------

  /** The elements of `xs` in the order of their first occurrence, each once. */
  function Dedup<T(==)>(xs: seq<T>): seq<T> {
    if |xs| == 0 then []
    else
      var kept := Dedup(xs[..|xs| - 1]);
      if xs[|xs| - 1] in kept then kept else kept + [xs[|xs| - 1]]
  }

  /** One more element of a prefix: it is appended exactly when it is new. */
  lemma DedupStep<T>(xs: seq<T>, i: nat)
    requires i < |xs|
    ensures Dedup(xs[..i + 1]) == if xs[i] in Dedup(xs[..i]) then Dedup(xs[..i]) else Dedup(xs[..i]) + [xs[i]]
  {
    assert xs[..i + 1][..i] == xs[..i];
  }

  /** Something is kept exactly when it occurs. */
  lemma {:induction false} DedupElements<T>(xs: seq<T>)
    ensures forall x :: x in Dedup(xs) <==> x in xs
  {
    if |xs| > 0 {
      var n := |xs| - 1;
      DedupElements(xs[..n]);
      assert xs == xs[..n] + [xs[n]];
    }
  }

  /** Nothing is kept twice. */
  lemma {:induction false} DedupNoDuplicates<T>(xs: seq<T>)
    ensures forall i, j :: 0 <= i < j < |Dedup(xs)| ==> Dedup(xs)[i] != Dedup(xs)[j]
  {
    if |xs| > 0 {
      DedupNoDuplicates(xs[..|xs| - 1]);
    }
  }

  /** The first element always comes first. */
  lemma {:induction false} DedupHead<T>(xs: seq<T>)
    requires |xs| > 0
    ensures |Dedup(xs)| > 0 && Dedup(xs)[0] == xs[0]
  {
    if |xs| > 1 {
      var n := |xs| - 1;
      DedupHead(xs[..n]);
      assert xs[..n][0] == xs[0];
    }
  }

  /** The index of the first occurrence of `x` in `xs`. */
  function First<T(==)>(xs: seq<T>, x: T): (k: nat)
    requires x in xs
    ensures k < |xs| && xs[k] == x
    ensures forall j :: 0 <= j < k ==> xs[j] != x
  {
    if xs[0] == x then 0 else 1 + First(xs[1..], x)
  }

  /** A first occurrence inside a prefix is the first occurrence in the whole sequence. */
  lemma FirstOfPrefix<T>(xs: seq<T>, m: nat, x: T)
    requires m <= |xs| && x in xs[..m]
    ensures First(xs[..m], x) == First(xs, x)
  {
    var k := First(xs[..m], x);
    assert xs[k] == x;
    forall j | 0 <= j < k
      ensures xs[j] != x
    {
      assert xs[..m][j] == xs[j];
    }
  }

  /** The kept elements appear in the order of their first occurrences. */
  lemma {:induction false} DedupOrder<T>(xs: seq<T>)
    ensures forall x :: x in Dedup(xs) ==> x in xs
    ensures forall i, j :: 0 <= i < j < |Dedup(xs)| ==> First(xs, Dedup(xs)[i]) < First(xs, Dedup(xs)[j])
  {
    DedupElements(xs);
    if |xs| > 0 {
      var n := |xs| - 1;
      var kept := Dedup(xs[..n]);
      DedupOrder(xs[..n]);
      DedupElements(xs[..n]);
      forall i, j | 0 <= i < j < |Dedup(xs)|
        ensures First(xs, Dedup(xs)[i]) < First(xs, Dedup(xs)[j])
      {
        FirstOfPrefix(xs, n, kept[i]);
        if j < |kept| {
          FirstOfPrefix(xs, n, kept[j]);
        } else {
          assert Dedup(xs)[j] == xs[n] && xs[n] !in xs[..n];
          assert First(xs, xs[n]) == n;
        }
      }
    }
  }

  // ---------------------------------------------------------------------
  // `get_answers`
  // ---------------------------------------------------------------------

  /** Each candidate record parsed. */
  function ParseAll(candidates: seq<AnswerRecord>): (ts: seq<seq<string>>)
    ensures |ts| == |candidates|
  {
    seq(|candidates|, k requires 0 <= k < |candidates| => ParseAnswer(candidates[k]))
  }

  /** The candidate records: the answer itself, then the validated answers. */
  function Candidates(qa: QA): (c: Result<seq<AnswerRecord>, FlattenError>)
    ensures c.Ok? <==> Flatten(qa.validated).Ok?
    ensures c.Ok? ==> |c.value| > 0 && c.value[0] == qa.answer && c.value[1..] == Flatten(qa.validated).value
    ensures c.Err? ==> c.error == Flatten(qa.validated).error
  {
    match Flatten(qa.validated)
    case Ok(rows) => Ok([qa.answer] + rows)
    case Err(e) => Err(e)
  }

  /** The list `get_answers` returns: the parsed candidates, each kept at its first occurrence. */
  function Answers(qa: QA): Result<seq<seq<string>>, FlattenError> {
    match Candidates(qa)
    case Ok(c) => Ok(Dedup(ParseAll(c)))
    case Err(e) => Err(e)
  }

  /**
   * `get_answers`: parses every candidate, skipping those already in the
   * set of answers seen so far; the flattening error aborts it.
   */
  method GetAnswers(qa: QA) returns (r: Result<seq<seq<string>>, FlattenError>)
    ensures r == Answers(qa)
  {
    var validated := FlattenValidatedAnswers(qa.validated);
    if validated.Err? {
      return Err(validated.error);
    }
    var candidates := [qa.answer] + validated.value;
    ghost var parsed := ParseAll(candidates);
    var answers: seq<seq<string>> := [];
    var answersSet: set<seq<string>> := {};
    for i := 0 to |candidates|
      invariant answers == Dedup(parsed[..i])
      invariant forall t :: t in answersSet <==> t in answers
    {
      var answer := ParseAnswer(candidates[i]);
      assert answer == parsed[i];
      DedupStep(parsed, i);
      if answer in answersSet {
        continue;
      }
      answersSet := answersSet + {answer};
      answers := answers + [answer];
    }
    assert parsed[..|candidates|] == parsed;
    r := Ok(answers);
  }

  /** No answer is listed twice. */
  lemma AnswersNoDuplicates(qa: QA)
    requires Answers(qa).Ok?
    ensures var ts := Answers(qa).value; forall i, j :: 0 <= i < j < |ts| ==> ts[i] != ts[j]
  {
    DedupNoDuplicates(ParseAll(Candidates(qa).value));
  }

  /** The parsed answer record comes first. */
  lemma AnswersHead(qa: QA)
    requires Answers(qa).Ok?
    ensures |Answers(qa).value| > 0 && Answers(qa).value[0] == ParseAnswer(qa.answer)
  {
    DedupHead(ParseAll(Candidates(qa).value));
  }

  /** An answer is listed exactly when some candidate parses to it. */
  lemma AnswersCover(qa: QA)
    requires Answers(qa).Ok?
    ensures var c := Candidates(qa).value;
      forall t :: t in Answers(qa).value <==> exists k :: 0 <= k < |c| && ParseAnswer(c[k]) == t
  {
    var c := Candidates(qa).value;
    var parsed := ParseAll(c);
    DedupElements(parsed);
    forall t | t in parsed
      ensures exists k :: 0 <= k < |c| && ParseAnswer(c[k]) == t
    {
      var k :| 0 <= k < |parsed| && parsed[k] == t;
      assert ParseAnswer(c[k]) == t;
    }
    forall t, k | 0 <= k < |c| && ParseAnswer(c[k]) == t
      ensures t in parsed
    {
      assert parsed[k] == t;
    }
  }

  /** The answers appear in the order in which they first occur among the parsed candidates. */
  lemma AnswersOrder(qa: QA)
    requires Answers(qa).Ok?
    ensures var parsed, ts := ParseAll(Candidates(qa).value), Answers(qa).value;
      && (forall t :: t in ts ==> t in parsed)
      && (forall i, j :: 0 <= i < j < |ts| ==> First(parsed, ts[i]) < First(parsed, ts[j]))
  {
    DedupOrder(ParseAll(Candidates(qa).value));
  }

  /** Every answer is a non-empty tuple, as scoring a document demands. */
  lemma AnswersNonEmpty(qa: QA)
    requires Answers(qa).Ok?
    ensures DropScoring.NonEmptyGolds(Answers(qa).value)
  {
    var parsed := ParseAll(Candidates(qa).value);
    DedupElements(parsed);
    forall k | 0 <= k < |Answers(qa).value|
      ensures |Answers(qa).value[k]| > 0
    {
      var t := Answers(qa).value[k];
      assert t in parsed;
      var m :| 0 <= m < |parsed| && parsed[m] == t;
    }
  }

  /** The flattening error, and only it, makes the whole of `get_answers` fail. */
  lemma AnswersError(qa: QA)
    ensures Answers(qa).Err? <==> (|qa.validated.dates| < |qa.validated.numbers| || |qa.validated.spans| < |qa.validated.numbers|)
  {
  }
}
