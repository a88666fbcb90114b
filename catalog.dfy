/**
 * The fixed catalog of expected OCR texts (`expectedTexts` in server.js).
 * Each entry pairs the text a loot message starts with, the bucket it is
 * counted under and the unit value of one such item. The values are written
 * as decimal strings in the server and converted with `Number`; here they are
 * exact reals, so every sum over them is exact.
 */
module Catalog {
  import opened Wrappers

  datatype Entry = Entry(text: string, bucket: string, value: real)

  const ExpectedTexts: seq<Entry> := [
    Entry("You got Black Resurrection", "Black Resurrection Flame", 200.0),
    Entry("You got Rainbow Resurrection", "Rainbow Resurrection Flame", 150.0),
    Entry("You got Crimson Resurrection", "Crimson Resurrection Flame", 50.0),
    Entry("You got Unextinguished x2", "Unextinguished Flame x2", 16.0),
    Entry("You got Unextinguished x1", "Unextinguished Flame x1", 8.0),
    Entry("You got Never-extinguishing", "Never-extinguishing Flame", 25.0),
    Entry("You got Black never-extinguishing", "Black Never-extinguishing Flame", 25.0),
    Entry("You got Sparkling Red", "Sparkling Red Potion", 8.0),
    Entry("You got Sparkling Blue", "Sparkling Blue Potion", 1.5),
    Entry("You got Amazingly Positive Chaos", "Amazingly Positive Chaos Scroll 60%", 35.0),
    Entry("You got Large Boss Medal of Honor", "Large Boss Medal of Honor", 10.0),
    Entry("You got Additional 50% EXP", "Additional 50% EXP Coupon", 5.0),
    Entry("You got Small EXP Accumulation", "Small EXP Accumulation Potion", 8.0),
    Entry("You got Suspicious Additional Cube x2", "Suspicious Additional Cube x2", 5.0)
  ]

  /** A position in ExpectedTexts: what the fuzzy matcher can point at. */
  type CatalogIndex = i: nat | i < |ExpectedTexts| witness 0

  /**
   * `catalog.find(obj => obj.bucket === bucket)`, giving the position of the
   * entry found: the FIRST entry whose bucket name equals `bucket`, or None
   * when no entry has that name.
   */
  function Find(catalog: seq<Entry>, bucket: string): (r: Option<nat>)
    ensures r.Some? ==> r.value < |catalog| && catalog[r.value].bucket == bucket
    ensures r.Some? ==> forall j :: 0 <= j < r.value ==> catalog[j].bucket != bucket
    ensures r.None? <==> forall j :: 0 <= j < |catalog| ==> catalog[j].bucket != bucket
  {
    if catalog == [] then None
    else if catalog[0].bucket == bucket then Some(0)
    else match Find(catalog[1..], bucket)
      case None => None
      case Some(i) => Some(i + 1)
  }

  /** Unit value of the entry `find` returns for a bucket the catalog knows. */
  function UnitValue(catalog: seq<Entry>, bucket: string): real
    requires Find(catalog, bucket).Some?
  {
    catalog[Find(catalog, bucket).value].value
  }

  /** No two entries share a bucket name, so lookup by name is unambiguous. */
  predicate DistinctBuckets(catalog: seq<Entry>)
  {
    forall i, j :: 0 <= i < j < |catalog| ==> catalog[i].bucket != catalog[j].bucket
  }

  lemma ExpectedTextsDistinct()
    ensures DistinctBuckets(ExpectedTexts)
  {
    var keys := seq(|ExpectedTexts|, i requires 0 <= i < |ExpectedTexts| => KeyOf(ExpectedTexts[i].bucket));
    assert keys == BucketKeys;
    BucketKeysDistinct();
    forall i, j | 0 <= i < j < |ExpectedTexts|
      ensures ExpectedTexts[i].bucket != ExpectedTexts[j].bucket
    {
      assert keys[i] != keys[j];
    }
  }

  /*
   * KeyOf, BucketKeys and BucketKeysDistinct are proof scaffolding only:
   * comparing 14 short triples is far cheaper for the verifier than
   * comparing 91 pairs of long names character by character, and it keeps
   * the proof of ExpectedTextsDistinct stable across solver seeds.
   */

  /** Length, first and last character of a name (0 and a space for the empty name). */
  function KeyOf(s: string): (int, char, char)
  {
    if s == [] then (0, ' ', ' ') else (|s|, s[0], s[|s| - 1])
  }

  /** KeyOf of the bucket names of ExpectedTexts, in order. */
  const BucketKeys: seq<(int, char, char)> := [
    (24, 'B', 'e'), (26, 'R', 'e'), (26, 'C', 'e'), (23, 'U', '2'), (23, 'U', '1'),
    (25, 'N', 'e'), (31, 'B', 'e'), (20, 'S', 'n'), (21, 'S', 'n'), (35, 'A', '%'),
    (25, 'L', 'r'), (25, 'A', 'n'), (29, 'S', 'n'), (29, 'S', '2')
  ]

  /** The keys already tell the bucket names apart. */
  lemma BucketKeysDistinct()
    ensures forall i, j :: 0 <= i < j < |BucketKeys| ==> BucketKeys[i] != BucketKeys[j]
  {
  }

  /** Every unit value of the catalog is positive. */
  lemma ExpectedTextsPositive()
    ensures forall i :: 0 <= i < |ExpectedTexts| ==> ExpectedTexts[i].value > 0.0
  {
  }

  /**
   * With distinct bucket names, looking an entry's own bucket up again finds
   * that very entry.
   */
  lemma FindOwnBucket(catalog: seq<Entry>, i: nat)
    requires DistinctBuckets(catalog)
    requires i < |catalog|
    ensures Find(catalog, catalog[i].bucket) == Some(i)
  {
  }
}
