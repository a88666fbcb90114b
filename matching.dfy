/**
 * Classification of recognised lines against the catalog
 * (`matchTextToBucket` and the per-image `split`/`map` in server.js).
 *
 * The fuzzy search itself belongs to the Fuse.js library and is not
 * modelled: it is the oracle `search`, which for a text gives the catalog
 * positions of its hits, best hit first, and no hits when nothing is similar
 * enough under the library's threshold. Fuse only ever returns items of the
 * collection it searches, which the type CatalogIndex expresses.
 */
module Matching {
  import opened Wrappers
  import opened Catalog
  import opened Lines

  /** The fuzzy search over ExpectedTexts: hits for a text, best first. */
  type Search = string -> seq<CatalogIndex>

  /** One classified line: `{ line, bucket }`, bucket None standing for `null`. */
  datatype LineResult = LineResult(line: string, bucket: Option<string>)

  /**
   * `matchTextToBucket(text)`: the bucket of the best hit, or None when the
   * search has no hit. The bucket returned is always one that the
   * aggregation's `find` recognises, and it leads back to the very entry the
   * search ranked first.
   */
  function MatchTextToBucket(search: Search, text: string): (r: Option<string>)
    ensures r.None? <==> search(text) == []
    ensures r.Some? ==> r.value != [] && Find(ExpectedTexts, r.value) == Some(search(text)[0] as nat)
  {
    var hits := search(text);
    if |hits| > 0 then
      ExpectedTextsDistinct();
      FindOwnBucket(ExpectedTexts, hits[0]);
      Some(ExpectedTexts[hits[0]].bucket)
    else
      None
  }

  /** `lines.map(line => ({ line, bucket: matchTextToBucket(line) }))`. */
  function ClassifyLines(search: Search, lines: seq<string>): (r: seq<LineResult>)
    ensures |r| == |lines|
    ensures forall i :: 0 <= i < |r| ==>
      r[i].line == lines[i] && r[i].bucket == MatchTextToBucket(search, lines[i])
  {
    seq(|lines|, i requires 0 <= i < |lines| => LineResult(lines[i], MatchTextToBucket(search, lines[i])))
  }

  /**
   * The results for the recognised text of one image: one result per piece
   * of `text.split('\n')`, in order, each with that piece's match.
   */
  function ClassifyText(search: Search, text: string): (r: seq<LineResult>)
    ensures LinesOf(r) == Split(text)
    ensures forall k :: 0 <= k < |r| ==> r[k].bucket == MatchTextToBucket(search, r[k].line)
  {
    ClassifyLines(search, Split(text))
  }

  /** The `line` fields of a sequence of results, in order. */
  function LinesOf(results: seq<LineResult>): (r: seq<string>)
    ensures |r| == |results|
    ensures forall i :: 0 <= i < |r| ==> r[i] == results[i].line
  {
    seq(|results|, i requires 0 <= i < |results| => results[i].line)
  }

  /**
   * Classification keeps every piece of the text, in order: joining the
   * `line` fields back with newlines reproduces the recognised text.
   */
  lemma ClassifyKeepsText(search: Search, text: string)
    ensures |ClassifyText(search, text)| >= 1
    ensures Join(LinesOf(ClassifyText(search, text))) == text
  {
    assert LinesOf(ClassifyText(search, text)) == Split(text);
    JoinSplit(text);
  }

  /** The pieces of every text, text by text, each text's pieces in order. */
  function AllLines(texts: seq<string>): seq<string>
  {
    if texts == [] then [] else AllLines(texts[..|texts| - 1]) + Split(texts[|texts| - 1])
  }

  /**
   * `extractedTexts.flat()`: the results of all images, image by image in
   * upload order, each image's lines in text order. Every line of every
   * image appears, each with its own match, and every non-null bucket is
   * one the catalog lookup finds.
   */
  function ExtractAll(search: Search, texts: seq<string>): (r: seq<LineResult>)
    ensures LinesOf(r) == AllLines(texts)
    ensures forall k :: 0 <= k < |r| ==> r[k].bucket == MatchTextToBucket(search, r[k].line)
    ensures forall k :: 0 <= k < |r| && r[k].bucket.Some? ==> Find(ExpectedTexts, r[k].bucket.value).Some?
  {
    if texts == [] then []
    else
      var front := ExtractAll(search, texts[..|texts| - 1]);
      var last := ClassifyText(search, texts[|texts| - 1]);
      LinesOfAppend(front, last);
      MatchedAppend(search, front, last);
      front + last
  }

  /** Every result carries the match of its own line. */
  predicate Matched(search: Search, results: seq<LineResult>)
  {
    forall k :: 0 <= k < |results| ==> results[k].bucket == MatchTextToBucket(search, results[k].line)
  }

  lemma LinesOfAppend(a: seq<LineResult>, b: seq<LineResult>)
    ensures LinesOf(a + b) == LinesOf(a) + LinesOf(b)
  {
    assert |LinesOf(a + b)| == |LinesOf(a) + LinesOf(b)|;
    forall i | 0 <= i < |a + b|
      ensures LinesOf(a + b)[i] == (LinesOf(a) + LinesOf(b))[i]
    {
      if i >= |a| {
        assert (a + b)[i] == b[i - |a|];
      }
    }
  }

  lemma MatchedAppend(search: Search, a: seq<LineResult>, b: seq<LineResult>)
    requires Matched(search, a) && Matched(search, b)
    ensures Matched(search, a + b)
    ensures forall k :: 0 <= k < |a + b| && (a + b)[k].bucket.Some? ==> Find(ExpectedTexts, (a + b)[k].bucket.value).Some?
  {
    forall k | 0 <= k < |a + b|
      ensures (a + b)[k].bucket == MatchTextToBucket(search, (a + b)[k].line)
    {
      if k >= |a| {
        assert (a + b)[k] == b[k - |a|];
      }
    }
  }
}
