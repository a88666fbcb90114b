# LootLens loot aggregation, modelled in Dafny

LootLens is a small web service. It takes uploaded game screenshots and
binarises each image. It runs OCR on the result and splits the recognised
text into lines. Each line is fuzzily matched against a fixed catalog of loot
messages ("You got Black Resurrection", ...). The service then reports, per
catalog bucket, how many items were seen and what they are worth, plus a
grand total.

This project models the parts of `server.js` that are the service's own
logic:

- `catalog.dfy` (module `Catalog`): the constant catalog `expectedTexts`, with
  the 14 entries of `(text, bucket, value)`. It also holds `Find`, the
  first-match lookup `expectedTexts.find(obj => obj.bucket === bucket)`.
  Unit values are exact `real`s (`'1.5'` is `1.5`), not JavaScript doubles,
  so every sum in the model is exact.
- `lines.dfy` (module `Lines`): `text.split('\n')` and its inverse, joining
  with `'\n'`.
- `matching.dfy` (module `Matching`): `matchTextToBucket`, and the per-image
  `split`/`map` that pairs each line with its bucket. It also has the
  flattening of the per-image results. The Fuse.js search is an oracle
  `Search = string -> seq<CatalogIndex>`: the positions of the hits in the
  catalog, best first. The type says that Fuse only returns items of the
  collection it searches.
- `aggregation.dfy` (module `Aggregation`): the `forEach` loop that fills
  `bucketCounts`, `bucketValues` and `totalValue`. There is a pure
  specification, `Aggregate`, a left fold of `Step`. There is an imperative
  method, `AggregateResults`, that updates two maps and an accumulator in a
  loop, and it is proved equal to the fold. The aggregation takes the
  catalog as a parameter; the server always passes `ExpectedTexts`.
- `binarize.dfy` (module `Preprocess`): the `image.scan` callback that
  writes black or white into the RGB bytes of the RGBA buffer, in place, over
  an `array<Byte>`.
- `upload.dfy` (module `Upload`): ties the matcher to the aggregator for a
  whole upload.
- `wrappers.dfy`: the `Option` type that stands for JavaScript `null`.

Points where the model keeps the code's exact behaviour:

- The catalog value of "Black Resurrection Flame" is `200` (server.js:52).
  `MisreadLineScenario` uses that value.
- The aggregation tests `if (bucket)`, so a bucket that is the empty string
  counts as "no bucket", the same as `null`. The model keeps that test
  (`Counted` requires `b != []`). No catalog bucket is empty, so the matcher
  never produces such a bucket.
- The tie-break between equally good matches is whatever Fuse ranks first.
  The oracle's hit list fixes it.

## Model

| member | source | states |
|---|---|---|
| `Catalog.Find` | server.js:132 | `find` gives the first entry whose bucket equals the name: the entry has that bucket, no earlier entry does, and None exactly when no entry has it |
| `Catalog.ExpectedTextsDistinct` | server.js:51-66 | no two catalog entries share a bucket name |
| `Catalog.ExpectedTextsPositive` | server.js:51-66 | every unit value of the catalog is positive |
| `Catalog.FindOwnBucket` | server.js:51-66 | with distinct bucket names, looking up an entry's bucket finds that same entry |
| `Lines.Split` | server.js:112 | `split('\n')` yields at least one piece, and no piece contains a newline |
| `Lines.JoinSplit` | server.js:112 | joining the pieces with `'\n'` gives the text back |
| `Lines.SplitJoin` | server.js:112 | splitting a join of newline-free lines gives those lines back |
| `Matching.MatchTextToBucket` | server.js:69-83 | null exactly when the search has no hit; otherwise a non-empty bucket that `find` maps back to the very entry ranked first |
| `Matching.ClassifyLines` | server.js:113-116 | one result per line, in order, each carrying its own line and that line's match |
| `Matching.ClassifyText` | server.js:112-116 | the results of one image are the pieces of `text.split('\n')`, in order, each with that piece's own match |
| `Matching.ClassifyKeepsText` | server.js:112-116 | the `line` fields of an image's results, joined with `'\n'`, reproduce the recognised text, and there is at least one result |
| `Matching.ExtractAll` | server.js:120-122 | the flattened results hold every line of every image, image by image in upload order (`AllLines`), each with its own line's match; every non-null bucket is one the catalog lookup finds |
| `Aggregation.Step` | server.js:130-138 | one iteration: the result's bucket, when counted, gains 1 in count and its unit value in value; every other bucket is unchanged; the total grows by the result's contribution |
| `Aggregation.Aggregate` | server.js:126-140 | the report after the loop: both maps have the same buckets as keys, and each bucket present has count at least 1 |
| `Aggregation.AggregateResults` | server.js:126-140 | the loop computes the fold `Aggregate`. Each count equals the number of counted results and is at least 1. Values have the same keys, and each value is count times unit value. The total is the sum of the per-line unit values and also the sum of all bucket values |
| `Aggregation.AggregateCounts` | server.js:127-134 | a bucket is a key of `bucketCounts` exactly when some result is counted under it, and its count is that number (so at least 1) |
| `Aggregation.StepKeepsValuesMatchCounts` | server.js:130-138 | one iteration keeps "values has the keys of counts, and each value is count times the unit value of the first matching entry" |
| `Aggregation.AggregateValues` | server.js:132-136 | after the loop, `bucketValues[b]` is `bucketCounts[b]` times the unit value of the first entry of bucket `b` |
| `Aggregation.ValueIsProduct` | server.js:132-136 | when values match counts, as after the loop, `bucketValues[b]` equals `bucketCounts[b]` multiplied by the unit value of bucket `b` |
| `Aggregation.TimesIsProduct` | server.js:136 | adding the unit value n times gives n times the unit value |
| `Aggregation.AggregateTotal` | server.js:136-137 | `totalValue` is the sum of the contributions of all results, and equals the sum of `bucketValues` over all keys |
| `Aggregation.SumValuesAdd` | server.js:136-137 | adding d to one key of the values map, present or not, adds d to the sum of all values |
| `Aggregation.AggregateIgnoresOthers` | server.js:131-133 | results with a null or empty bucket, or a bucket not in the catalog, do not change the report: dropping them gives the same report |
| `Aggregation.Contributing` | server.js:131-133 | the kept results all contribute, each comes from the input, and every contributing result is kept exactly as often as it occurs in the input |
| `Aggregation.AggregateTwiceSameBucket` | server.js:134-137 | two results of one known bucket: count 2, and value and total twice the unit value |
| `Aggregation.StepCommutes` | server.js:130-138 | two iterations give the same report in either order |
| `Aggregation.MoveToEnd` | server.js:130-140 | moving one result to the end of the list leaves the report unchanged |
| `Aggregation.AggregatePermutation` | server.js:130-140 | the report depends only on the multiset of results, not on their order |
| `Aggregation.ValueSumAppend` | server.js:122 | the sum of contributions over concatenated result lists is the sum of the parts |
| `Preprocess.BinaryValue` | server.js:40-41 | the value written to R, G and B is 0 or 255, and 255 exactly when r+g+b > 384 |
| `Preprocess.BrightIsSumAbove384` | server.js:40-41 | `(r+g+b)/3 > 128` is the integer test `r+g+b > 384` |
| `Preprocess.Binarize` | server.js:36-45 | the pass leaves the buffer equal to `Binarized` of the old buffer, and changes no other object |
| `Preprocess.BinarizedPixel` | server.js:36-45 | after the pass each pixel has R = G = B in {0, 255}, 255 exactly when r+g+b > 384, with alpha byte and length unchanged |
| `Preprocess.BinarizedIdempotent` | server.js:36-45 | binarising a binarised buffer changes nothing |
| `Upload.MatchedLineContribution` | server.js:76-82 | a classified line is counted exactly when the search has a hit, and it is credited with the unit value of that hit |
| `Upload.ClassifiedValueSum` | server.js:112-116 | the contributions of classified lines add up to the unit values of their best hits |
| `Upload.UploadValueSum` | server.js:96-122 | over all images, the contributions of the flattened results add up to the best-hit values of every line |
| `Upload.UploadTotal` | server.js:96-140 | the reported total is the sum, over every line of every image, of the unit value of that line's best hit |
| `Upload.MisreadLineScenario` | server.js:52 | a misread line whose best hit is "You got Black Resurrection" and a garbage line give count 1, value 200 and total 200 for "Black Resurrection Flame" |

## Left out

- HTTP plumbing is not modelled: Express routing, static files, the multer upload and the 400/500 responses (server.js:7-19, 85-94, 146-160). They are I/O.
- Fuse.js is not modelled: its scoring, the 0.5 threshold and the ranking of hits (server.js:70-76). They are foreign code with floating-point scores. The oracle `Search` stands for a Fuse index with that threshold, built over `ExpectedTexts`.
- Tesseract OCR, `Jimp.read` and `getBufferAsync` (server.js:98-107) are foreign calls. The model starts from the recognised texts.
- The other preprocessing steps are not modelled (server.js:23-33). These are the resize by the float factors 1.23 and 1.5 with `Math.round`, `contrast(0.69)` and `greyscale()`. They are library calls with floating-point numerics.
- `Promise.all` runs the images concurrently (server.js:96-122). Only the flattened sequence it produces, in upload order, is modelled (`ExtractAll`).
- `console.log` output is left out.
- ocr.js is not part of this model. It is a one-shot script around Tesseract with no logic of its own.
- AggregateResults: sums are exact reals, not IEEE doubles. In the server, `Number` values and `+=` round, so the order-independence shown by `AggregatePermutation` holds for the idealised sums only.
- AggregatePermutation: order-independence covers the keys and values of the two maps and the total, not the key order of the JSON reply. `bucketCounts` and `bucketValues` are plain objects that keep insertion order, so `res.json` (server.js:146-150) lists buckets in the order each first appears, and that order changes when the results are permuted. The maps of the model have no order.
- AggregatePermutation: the lemmas over any catalog match the JavaScript only for bucket names that are not members of `Object.prototype`. For a bucket named `"constructor"`, `bucketCounts[bucket] || 0` would read the inherited function. No bucket of `ExpectedTexts` has such a name.
- Binarize: the test `(r+g+b)/3 > 128` uses exact division. For byte sums up to 765 the double division compares the same way.
- Binarize: `scan` visits pixels row by row, x inside y, at byte offset `(width*y + x) * 4`. The model runs one loop over the pixel index. This visits the same offsets in the same order.
