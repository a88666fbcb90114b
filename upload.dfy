/**
 * The `/upload` handler once every image has been recognised: the lines of
 * all recognised texts are classified against ExpectedTexts, flattened in
 * upload order and aggregated into one report.
 */
module Upload {
  import opened Wrappers
  import opened Catalog
  import opened Lines
  import opened Matching
  import opened Aggregation

  /** The unit value of the entry the search ranks first for a line (0 when no hit). */
  function HitValue(search: Search, line: string): real
  {
    if search(line) == [] then 0.0 else ExpectedTexts[search(line)[0]].value
  }

  function HitValueSum(search: Search, lines: seq<string>): real
  {
    if lines == [] then 0.0
    else HitValueSum(search, lines[..|lines| - 1]) + HitValue(search, lines[|lines| - 1])
  }

  /** Sum of HitValue over every line of every recognised text. */
  function BatchHitValue(search: Search, texts: seq<string>): real
  {
    if texts == [] then 0.0
    else BatchHitValue(search, texts[..|texts| - 1]) + HitValueSum(search, Split(texts[|texts| - 1]))
  }

  /**
   * A classified line is counted exactly when the search has a hit for it,
   * and then it is credited with the unit value of that very hit: the
   * aggregation's `find` by bucket name cannot land on a different entry.
   */
  lemma MatchedLineContribution(search: Search, line: string)
    ensures Contributes(ExpectedTexts, LineResult(line, MatchTextToBucket(search, line))) <==> search(line) != []
    ensures Contribution(ExpectedTexts, LineResult(line, MatchTextToBucket(search, line))) == HitValue(search, line)
  {
  }

  lemma {:induction false} ClassifiedValueSum(search: Search, lines: seq<string>)
    ensures ValueSum(ExpectedTexts, ClassifyLines(search, lines)) == HitValueSum(search, lines)
  {
    if lines != [] {
      var front := lines[..|lines| - 1];
      var last := lines[|lines| - 1];
      ClassifiedValueSum(search, front);
      var r := ClassifyLines(search, lines);
      assert r[..|r| - 1] == ClassifyLines(search, front);
      MatchedLineContribution(search, last);
    }
  }

  /**
   * The total of the response is the sum, over every line of every
   * recognised text, of the unit value of the line's best hit.
   */
  lemma {:induction false} UploadTotal(search: Search, texts: seq<string>)
    ensures Aggregate(ExpectedTexts, ExtractAll(search, texts)).total == BatchHitValue(search, texts)
  {
    AggregateTotal(ExpectedTexts, ExtractAll(search, texts));
    UploadValueSum(search, texts);
  }

  lemma {:induction false} UploadValueSum(search: Search, texts: seq<string>)
    ensures ValueSum(ExpectedTexts, ExtractAll(search, texts)) == BatchHitValue(search, texts)
  {
    if texts != [] {
      var front := texts[..|texts| - 1];
      var last := texts[|texts| - 1];
      UploadValueSum(search, front);
      ValueSumAppend(ExpectedTexts, ExtractAll(search, front), ClassifyText(search, last));
      ClassifiedValueSum(search, Split(last));
    }
  }

  /**
   * A line misread by the recognizer still counts once its search has a
   * hit; a line with no hit adds nothing.
   */
  lemma MisreadLineScenario(search: Search)
    requires search("You got Black Resurrectlon") == [0]
    requires search("garbage line") == []
    ensures Aggregate(ExpectedTexts, ClassifyLines(search, ["You got Black Resurrectlon", "garbage line"]))
      == Report(map["Black Resurrection Flame" := 1], map["Black Resurrection Flame" := 200.0], 200.0)
  {
    var b := "Black Resurrection Flame";
    var r := ClassifyLines(search, ["You got Black Resurrectlon", "garbage line"]);
    assert r[0].bucket == Some(b) && Find(ExpectedTexts, b) == Some(0);
    assert !Contributes(ExpectedTexts, r[1]);
    assert r[..1][..0] == [] && r[..|r| - 1] == r[..1];
    assert Aggregate(ExpectedTexts, r[..1]) == Bump(EmptyReport, b, 200.0);
  }
}
