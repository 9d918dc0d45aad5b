# Sketch-to-code detection pipeline, modelled in Dafny

This project models the deterministic core of a sketch-to-web-page tool. An
object detector finds UI elements (buttons, images, paragraphs, text inputs)
in a hand-drawn sketch. The boxes are put into reading order. A generative
model is then asked for a page, and its reply is parsed defensively. A second,
template-based path turns the detections into a fixed Bootstrap page.

The model has seven modules:

- `StableSort`: the stable sort by key that Python's `sorted` and `list.sort`
  perform, as an insertion sort. It is specified by two facts: the keys are
  non-decreasing, and for every key the elements carrying it keep their input
  order. `StableSortUnique` proves that these two facts determine the result,
  so the model agrees with any stable sort, whatever its algorithm.
- `Sequencer` (`get_sorted_detections` in app.py): record building, `int()`
  truncation of the box coordinates, and the sort on `(box[1], box[0])`.
- `ResponseParser` (the `re.search(r'\{.*\}', ..., re.DOTALL)` step of app.py):
  the greedy span from the first `{` to the last `}`.
- `Synthesis` (`generate_code_from_detections` and the `upload_file` route of
  app.py): the empty short-circuit, span extraction, decoding, the error
  fallback, the route's `.get` defaults, and the whole upload pipeline.
- `Detector` (`get_detections` in detector.py): record building and the stable
  in-place sort by the top edge `y`, done on an array.
- `Generator` (`generate_html` in generator.py): header, one row per
  detection of a known class, footer, built with a loop.
- `Wrappers`: `Option` and `Result`.

External collaborators are inputs. The detector run is
`Sequencer.Inference` (it failed, or it returned lists of raw boxes) or a
sequence of raw boxes. The generative model is a `Synthesis.Provider` (it
failed with a message, or it replied with a text). `json.loads` is a
`Synthesis.Decoder` from text to a JSON object or an error message. Python
floats are Dafny reals.

The written design of the tool and its code disagree in three places. The
model follows the code:

- The design asks for a sort on full-precision centres. The code
  truncates the coordinates with `int()` first and sorts on the truncated
  values (app.py:63, 67). `Sequencer.TruncationDecidesOrder` shows a pair of
  boxes that the two policies order differently.
- The design asks synthesis to fill missing keys with `""` and `[]`.
  The code returns the decoded object unchanged (app.py:133). Only the route
  fills missing keys, with `'Error: No HTML returned.'`,
  `'/* No CSS returned */'` and `[]` (app.py:183-185).
- The design names the keys `markup` and `styles`. The code uses
  `html`, `css` and `editable_elements`, and so does the model.

## Model

| member | source | states |
|---|---|---|
| `Sequencer.MakeDetection` | app.py:59-64 | one record per box: the class name looked up from the class index, the confidence, and the centre and size each cut to an integer by `int()` |
| `Sequencer.Trunc` | app.py:63 | `int()` truncates toward zero: the result lies within 1 of the float, on the zero side |
| `Sequencer.PairLeqTotalOrder` | app.py:67 | the comparison of `(y, x)` key tuples is a total order |
| `Sequencer.ReadingOrder` | app.py:67 | `sorted` on the key `(box[1], box[0])`: a permutation of the records; that it is sorted and stable is `ReadingOrderCorrect`, and that it is the only such list is `ReadingOrderUnique` |
| `Sequencer.ReadingOrderCorrect` | app.py:66-67 | the sorted list is top-to-bottom then left-to-right, a permutation of the records, and records with equal `(y, x)` keep their collection order |
| `Sequencer.ReadingOrderUnique` | app.py:67 | any list in reading order that keeps tied records in collection order is exactly the model's result, so it matches Python's stable `sorted` |
| `Sequencer.ReadingOrderIgnoresCollectionOrder` | app.py:67 | when no two records share a `(y, x)` key, the same records collected in any order come out in the same reading order |
| `Sequencer.GetSortedDetections` | app.py:44-70 | a failed detector run gives `[]`; otherwise the nested loops collect one record per box, and the result is that collection in reading order: sorted, a permutation, stable |
| `Sequencer.ReadingOrderOfTwo` | app.py:67 | two records whose `(y, x)` key strictly decreases come out swapped |
| `Sequencer.TruncationDecidesOrder` | app.py:63-67 | a witness that the order compares truncated centres: a box with raw centre y 10.9 comes before one with 10.2 when both truncate to row 10 and it lies further left |
| `StableSort.Sort` | app.py:67 | the stable sort that `sorted` and `list.sort` perform, as long as its input; that it is sorted, a permutation and stable is `SortCorrect`, and that no other result is is `SortCharacterized` |
| `StableSort.SortCorrect` | app.py:67 | the sort is non-decreasing in its key, a permutation of its input, and keeps each key's elements in input order |
| `StableSort.StableSortUnique` | detector.py:29 | two sequences that are sorted and have the same elements per key, in the same order, are equal |
| `StableSort.SortIgnoresInputOrder` | app.py:67 | without ties on the key, two orderings of the same elements sort to the same sequence |
| `StableSort.SortCharacterized` | app.py:67 | a sequence is a stable sort of the input if and only if it is what the model's sort returns |
| `ResponseParser.FirstIndex` | app.py:122 | the first position of a character, or none exactly when the character does not occur |
| `ResponseParser.LastIndex` | app.py:122 | the last position of a character, or none exactly when the character does not occur |
| `ResponseParser.SearchBraces` | app.py:122 | there is a match exactly when some `{` comes before some `}`; the match runs from the first `{` to the last `}` and contains every other brace match |
| `ResponseParser.ExtractObject` | app.py:122-129 | the extracted text exists exactly when a `{`...`}` match exists, and it starts with `{` and ends with `}` |
| `ResponseParser.ExtractWrapped` | app.py:120-129 | prose or a code fence around one object, with no `{` before it and no `}` after it, extracts exactly that object |
| `ResponseParser.NoOpeningBraceNoObject` | app.py:122-127 | a reply with no `{` yields no object |
| `Synthesis.Artifact` | app.py:141 | the fallback dict has exactly the keys `html`, `css` and `editable_elements`, with `css` empty and the list empty |
| `Synthesis.ErrorHtml` | app.py:138-140 | the error markup starts with the heading and the message in a paragraph; it ends with the raw reply when there was one, and is just heading and message when there was none |
| `Synthesis.GenerateCode` | app.py:72-141 | no detections give the fixed "No UI elements" dict; a reply whose brace span decodes gives the decoded dict unchanged; every other outcome gives a three-key error dict whose html starts with the error heading and the failing step's message (the raised error, the missing-object message or the decode error) and ends with the raw reply when there was one |
| `Synthesis.EmptyDetectionsIgnoreProvider` | app.py:77-79 | with no detections the result does not depend on the model's reply or the decoder, so the model is never consulted |
| `Synthesis.WrappedReplyPassesThrough` | app.py:117-133 | a reply that wraps one decodable object in prose yields that decoded object, with no key added, removed or checked |
| `Synthesis.NoObjectFallback` | app.py:122-141 | a reply without `{` gives the error dict with the "No valid JSON object" message and the raw reply appended |
| `Synthesis.Get` | app.py:183-185 | `dict.get`: a present key gives its stored value, even `null`; a missing key gives the default |
| `Synthesis.ResultPage` | app.py:181-186 | the route shows each present key's value and fills a missing key with its default |
| `Synthesis.DefaultsOnlyForDecodedObjects` | app.py:183-185 | for the placeholder and the error dicts the route never uses a default: css is empty, the list is empty and the html is not the missing-html default |
| `Synthesis.HandleUpload` | app.py:172-186 | a failed detector run renders the "No UI elements" page with empty css and list; otherwise the page shows the generated code for the detections in reading order |
| `Detector.MakeRecord` | detector.py:17-26 | one record per box: its class name, its corners unchanged, and `y` equal to the top edge `y1` of those corners |
| `Detector.CollectedTopEdges` | detector.py:20-25 | every record's `y` is the top edge `y1` of its own box |
| `Detector.RealLeqTotalOrder` | detector.py:29 | the comparison of `y` keys is a total order |
| `Detector.InsertPosition` | detector.py:29 | inserting a record places it after the records whose `y` is not greater and before the greater ones |
| `Detector.InsertAt` | detector.py:29 | one insertion step on the array leaves the prefix equal to `StableSort.Insert` of the old prefix and element and the rest unchanged |
| `Detector.SortByTopEdge` | detector.py:29 | the in-place sort leaves the array equal to the stable sort by `y` of its old contents |
| `Detector.CollectRecords` | detector.py:12-26 | the nested loops append exactly one record per box, result by result |
| `Detector.GetDetections` | detector.py:4-31 | the result is non-decreasing in `y`, a permutation of the collected records, keeps records with equal `y` in collection order, and each `y` is its box's `y1` |
| `Detector.TiesKeepCollectionOrder` | detector.py:29 | a witness that horizontal position never breaks a tie (the general fact is `GetDetections`' key-class clause): two records on the same top edge keep their order even when the second lies further left |
| `Generator.Fragment` | generator.py:20-34 | a detection contributes a non-empty row exactly when its class is `paragraph`, `image`, `text-input` or `button` |
| `Generator.Body` | generator.py:19-34 | the rows of all detections in input order (`Rows` with the class rows); the body is empty exactly when no detection has a known class |
| `Generator.RowsEmpty` | generator.py:19-34 | the appended markup is empty exactly when every detection renders to nothing |
| `Generator.AppendRows` | generator.py:18-34 | the loop appends one rendering per detection, in input order, to the header it starts from |
| `Generator.PageFrame` | generator.py:6-41 | the page begins with the whole fixed header and ends with the whole fixed footer |
| `Generator.GenerateHtml` | generator.py:1-43 | the page is the fixed header, then the rows of the detections in order, then the fixed footer; an empty list gives header and footer only |
| `Generator.BodyAppend` | generator.py:19 | rows follow input order: the rows of two lists joined are the rows of the first followed by those of the second |
| `Generator.BodySingle` | generator.py:20-34 | one detection contributes exactly the row of its class, and nothing for any other class |
| `Generator.BodyReadsOnlyClass` | generator.py:20-33 | only the class is read: detections with the same class names give the same rows whatever their boxes |
| `Generator.BodySkipsUnknown` | generator.py:19-34 | dropping the detections of unknown classes leaves the rows unchanged |

## Left out

- Model loading and inference (app.py:27-33, 51; detector.py:8-10): a foreign library and image I/O. Their output is an input of the model.
- Class index conversion `int(box.cls[0])`: the model takes the class index as a natural number. The `names` lookup is modelled; a detector that reports an unnamed class is excluded by a precondition, as the code would raise there outside any handler.
- Confidence rounding `round(float(...), 2)` (app.py:61): floating point; the model stores the detector's confidence unchanged.
- Floating-point values in general: coordinates are reals, so NaN and infinities are not modelled.
- The Gemini configuration and call (app.py:13-24, 82, 118): an external service, modelled as the `Provider` input.
- The prompt text and `json.dumps` of the detections (app.py:84-115): free text with no checkable meaning beyond carrying the detections.
- The internals of `json.loads` (app.py:130): modelled as the `Decoder` input, which is assumed to return an object for a text that starts with `{`.
- Exceptions raised outside the `try` block (model construction, `json.dumps`) and an exception from reading `response.text`: not modelled.
- Flask routing, upload saving, `secure_filename`, `render_template` and redirects (app.py:145-193), apart from the `.get` defaults.
- main.py and run_detection.py: scripts that only open images, print and write `output.html`.
- All `print` logging.
