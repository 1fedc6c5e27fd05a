# HalalDetector — a verified model of the client's deterministic core

`quran/halal_detector.py` defines the `HalalDetector` client. It sends one
prompt per question to a text-generation endpoint, cleans the raw answer,
decodes it as JSON and shapes the result into records for four public
operations:

- `detect_ingredient` / `detect_food_item`: status, explanation, confidence and
  concerns for a name;
- `batch_detect`: one record per item, in order;
- `get_halal_alternatives`: at most five suggestions;
- `verify_certification`: certification details for a brand's product.

This project models everything the client does once the HTTP request has
completed, in three modules:

- `Text` (`text.dfy`): the Python string operations the client relies on, with
  Python's semantics written out. These are `str.strip()` over the full
  `str.isspace()` code-point list, `replace(pat, "")` as leftmost
  non-overlapping deletion, `split` on one character (with `join` as its
  inverse), `startswith`, `[:n]` slicing and `str(int)` (with the numeral's
  value as its inverse).
- `Json` (`json_value.dfy`): decoded JSON values and `dict.get(key, default)`.
- `HalalDetector` (`halal_detector.dfy`):
  - the response sanitiser `_clean_response`;
  - `_generate_ai_response`, from the request outcome to a mapping;
  - the three `.get`-based mappers;
  - the loop of `batch_detect`, as a method proved against the reference
    function `Collect` over the per-item results;
  - the two readings of `get_halal_alternatives`. The line filter is a
    method with a loop, proved against `KeptLines`.

What the request produced is an input: `Outcome` is either `Transport(message)`
(an exception raised by `requests`) or `Http(code, body)`. `json.loads` is the
parameter `parse`, returning `Parsed(value)` or `Failed` (a `JSONDecodeError`).
Python exceptions that the mappers raise on ill-shaped answers are values of
`Result`:

- `AttributeError`: `.get` on a decoded value that is not a dictionary, or
  `.split` on an explanation that is not a string;
- `TypeError`: slicing an `alternatives` entry that is neither a list nor a
  string.

## Model

| member | source | states |
|---|---|---|
| Text.Strip | quran/halal_detector.py:11 | `strip()` never lengthens its input and leaves no whitespace (any `str.isspace` code point) at either edge |
| Text.StripIsSlice | quran/halal_detector.py:11 | `strip()` returns a contiguous slice `s[i..j]` of its input, and every character dropped before `i` or after `j` is whitespace |
| Text.StripKeeps | quran/halal_detector.py:11 | a string with no whitespace at either edge is returned unchanged by `strip()` |
| Text.StripIdempotent | quran/halal_detector.py:11 | stripping twice is the same as stripping once |
| Text.RemoveAll | quran/halal_detector.py:11 | `replace(pat, "")` never lengthens the text |
| Text.RemoveAllAbsent | quran/halal_detector.py:11 | deleting a pattern that does not occur leaves the text unchanged |
| Text.RemoveAllPresent | quran/halal_detector.py:11 | deleting a non-empty pattern that occurs shortens the text by at least the pattern's length |
| Text.RemoveAllChanges | quran/halal_detector.py:11 | deleting a non-empty pattern changes the text if and only if the pattern occurs in it |
| Text.RemoveEach | quran/halal_detector.py:11 | the chain of `replace` calls, applied in order, never lengthens the text |
| Text.RemoveEachAbsent | quran/halal_detector.py:11 | text in which none of the chained patterns occurs comes through the chain unchanged |
| Text.Split | quran/halal_detector.py:104 | `split('\n')` gives at least one part, no part contains the separator, and joining the parts with the separator gives the text back |
| Text.SplitJoin | quran/halal_detector.py:104 | splitting a joined list of separator-free parts gives the list back |
| Text.SplitWithoutSeparator | quran/halal_detector.py:104 | a text without the separator splits into itself alone |
| Text.NatToDecimal | quran/halal_detector.py:45 | `str(n)` is a non-empty digit string without a leading zero, whose decimal value is `n` |
| Text.IntToDecimal | quran/halal_detector.py:45 | `str(i)` is the digits of `i`, or a minus sign followed by the digits of `-i`; the digits' value is the magnitude, and there is no leading zero except in "0" itself |
| Text.StartsWith | quran/halal_detector.py:107 | `s.startswith(p)` holds exactly when `p` occurs at index 0 of `s` |
| Text.Take | quran/halal_detector.py:100 | `[:n]` is a prefix of length `min(len, n)` |
| HalalDetector.CleanResponse | quran/halal_detector.py:10-11 | the cleaned answer is never longer than the raw answer and has no whitespace at either edge |
| HalalDetector.UrlPatternsContainName | quran/halal_detector.py:11 | helper for `CleanWithoutBoilerplate`: the two URL literals contain the bare name "pollinations" |
| HalalDetector.CleanWithoutBoilerplate | quran/halal_detector.py:11 | an answer containing none of "Powered by Pollinations.AI", "Support our mission" and "pollinations" is only stripped |
| Json.Get | quran/halal_detector.py:64-67 | `fields.get(key, default)` is the stored value when the key is present (even when it is null) and the default only when it is absent |
| HalalDetector.Fallback | quran/halal_detector.py:36-56 | the three failure dict literals, built from a status, an explanation and a concern; their shape is stated by `FallbackIsFallback` |
| HalalDetector.FallbackIsFallback | quran/halal_detector.py:36-41 | each failure mapping has exactly the keys status, explanation, confidence and concerns, with confidence "Low" and a single concern |
| HalalDetector.HttpErrorText | quran/halal_detector.py:45 | the explanation reads "HTTP " followed by `str(code)`: the shortest decimal numeral of the code (no leading zero, a minus sign when negative); it is a single line ending in a digit |
| HalalDetector.GenerateResponse | quran/halal_detector.py:13-56 | `_generate_ai_response` once the request has completed; its four paths are stated by `GenerateOnTransportError`, `GenerateOnHttpError`, `GenerateOnInvalidJson`, `GenerateOnParsed` and summed up by `GenerateFailureShape` |
| HalalDetector.GenerateOnTransportError | quran/halal_detector.py:50-56 | a transport exception becomes status "Error", the exception's message, confidence "Low", concerns ["Network Error"] |
| HalalDetector.GenerateOnHttpError | quran/halal_detector.py:42-48 | any status other than 200 becomes status "Error", "HTTP " followed by `str(code)` (no leading zero), confidence "Low", concerns ["API Error"], whatever the body |
| HalalDetector.GenerateOnInvalidJson | quran/halal_detector.py:31-41 | a 200 body that does not decode after cleaning becomes status "Unknown", with the cleaned text (stripped, no longer than the body) as explanation and concerns ["Invalid JSON response"] |
| HalalDetector.GenerateOnParsed | quran/halal_detector.py:31-34 | a 200 body that decodes after cleaning is returned exactly as decoded |
| HalalDetector.GenerateFailureShape | quran/halal_detector.py:13-56 | every outcome other than a decoded 200 body gives a four-key failure mapping whose status is "Error" exactly when the request itself failed, and "Unknown" otherwise |
| HalalDetector.ShapeDetection | quran/halal_detector.py:63-69 | the record echoes the name and copies each of status, explanation, confidence and concerns when present (even when null), with defaults "Unknown", "No explanation provided", "Low" and []; a non-dictionary raises AttributeError |
| HalalDetector.DetectIngredient | quran/halal_detector.py:58-69 | `detect_ingredient` raises exactly when the cleaned 200 body decodes to something other than an object; otherwise it echoes the ingredient |
| HalalDetector.DetectFoodItem | quran/halal_detector.py:71-82 | `detect_food_item` raises under the same condition and otherwise echoes the food item |
| HalalDetector.IngredientAndFoodItemAgree | quran/halal_detector.py:58-82 | the two mappers fail together and otherwise differ only in the echo key |
| HalalDetector.DetectionOfFallback | quran/halal_detector.py:63-69 | a failure mapping shapes into the record carrying its status, explanation, "Low" and its single concern |
| HalalDetector.DetectOnHttpError | quran/halal_detector.py:42-48 | after a non-200 status the record is Error / "HTTP <code>" / Low / ["API Error"] |
| HalalDetector.DetectOnTransportError | quran/halal_detector.py:50-56 | after a transport exception the record is Error / message / Low / ["Network Error"] |
| HalalDetector.DetectOnInvalidJson | quran/halal_detector.py:35-41 | after an undecodable 200 body the record is Unknown / cleaned text / Low / ["Invalid JSON response"] |
| HalalDetector.SubjectFor | quran/halal_detector.py:87-90 | ingredient mode exactly for the type "ingredient", food-item mode for every other value, always echoing the item |
| HalalDetector.DetectItem | quran/halal_detector.py:87-90 | one iteration's record, when there is one, is about that item in the mode its type selects |
| HalalDetector.CollectKeepsError | quran/halal_detector.py:85-91 | once an iteration has raised, later items do not change what the loop raises |
| HalalDetector.CollectSucceeds | quran/halal_detector.py:85-91 | the append loop completes exactly when no iteration raises, and then holds every iteration's value in order |
| HalalDetector.CollectFailsAtFirstError | quran/halal_detector.py:85-91 | a loop that raised did so at an iteration before which every iteration returned |
| HalalDetector.BatchDetect | quran/halal_detector.py:84-92 | the loop's result is the reference `Collect` over the items' results, in item order |
| HalalDetector.BatchSucceedsIff | quran/halal_detector.py:84-92 | a batch succeeds if and only if every item succeeds |
| HalalDetector.BatchRecords | quran/halal_detector.py:84-92 | a successful batch has one record per item, in item order; record i is the detection of item i, in the mode its type selects |
| HalalDetector.BatchFirstFailure | quran/halal_detector.py:84-92 | a failed batch raises what the first failing item raised |
| HalalDetector.Keep | quran/halal_detector.py:107 | a stripped line is kept exactly when it is non-empty and "Error" does not occur at its start |
| HalalDetector.KeptLines | quran/halal_detector.py:104-108 | the filter never yields more lines than it reads |
| HalalDetector.KeptLinesAppend | quran/halal_detector.py:105-108 | the kept lines of two consecutive runs of lines are the kept lines of each, concatenated in order |
| HalalDetector.KeptLinesSound | quran/halal_detector.py:105-108 | every kept string is the stripped form of some line, non-empty and not starting with "Error" |
| HalalDetector.KeptLinesComplete | quran/halal_detector.py:105-108 | every line whose stripped form is non-empty and does not start with "Error" is kept |
| HalalDetector.FirstFive | quran/halal_detector.py:100 | `[:5]` keeps the first five elements of a list or characters of a string, and raises TypeError on anything else |
| HalalDetector.AlternativesOf | quran/halal_detector.py:94-110 | the answer holds at most five entries, and a response that is not a dictionary gives [] |
| HalalDetector.AlternativesFromResponse | quran/halal_detector.py:99-110 | the method with the line loop computes exactly `AlternativesOf` |
| HalalDetector.GetHalalAlternatives | quran/halal_detector.py:94-110 | `get_halal_alternatives` returns `AlternativesOf` of the mapping built from the outcome: at most five entries |
| HalalDetector.AlternativesFromList | quran/halal_detector.py:99-100 | a list under `alternatives` is returned cut to its first five entries |
| HalalDetector.AlternativesFromExplanation | quran/halal_detector.py:102-110 | without `alternatives`, a string explanation gives the first five kept lines in order |
| HalalDetector.AlternativeFromSomeLine | quran/halal_detector.py:102-110 | every returned alternative is the stripped form of a line of the explanation, non-empty, not starting with "Error", with no edge whitespace |
| HalalDetector.AlternativesOfFallback | quran/halal_detector.py:99-110 | a failure mapping has no `alternatives`, so its explanation's lines are what is returned |
| HalalDetector.SingleLineKept | quran/halal_detector.py:104-110 | a single stripped line that passes the filter is returned as the only alternative |
| HalalDetector.HttpExplanationKept | quran/halal_detector.py:104-108 | "HTTP <code>" is one line that survives stripping and the "Error" filter |
| HalalDetector.AlternativesOnHttpError | quran/halal_detector.py:97-110 | after a non-200 status the one alternative offered is the text "HTTP <code>" |
| HalalDetector.AlternativesTruncateExample | quran/halal_detector.py:100 | a six-entry `alternatives` list loses its sixth entry |
| HalalDetector.ExampleExplanationLines | quran/halal_detector.py:104 | "X\n\nError: bad\nY" splits into the four lines "X", "", "Error: bad", "Y" |
| HalalDetector.ExampleExplanationKept | quran/halal_detector.py:105-108 | of those four lines only "X" and "Y" are kept |
| HalalDetector.AlternativesFromKeptLines | quran/halal_detector.py:102-110 | without `alternatives`, an explanation with at most five kept lines yields exactly those lines, in order |
| HalalDetector.AlternativesExplanationExample | quran/halal_detector.py:102-110 | a mapping whose only entry is the explanation "X\n\nError: bad\nY" yields ["X", "Y"] |
| HalalDetector.ShapeCertification | quran/halal_detector.py:117-124 | brand and product are echoed; has_certification, certifying_body and reliability are copied or defaulted to False, "Unknown" and "Low"; details is copied, else the explanation, else "No details available"; a non-dictionary raises AttributeError |
| HalalDetector.VerifyCertification | quran/halal_detector.py:112-124 | `verify_certification` raises exactly when the cleaned 200 body decodes to a non-object; otherwise it echoes brand and product |
| HalalDetector.CertificationOfFallback | quran/halal_detector.py:117-124 | a failure mapping gives all three defaults and its explanation as details |
| HalalDetector.CertificationOnFailure | quran/halal_detector.py:115-123 | when the request fails or the body does not decode, the record has no certification, body "Unknown", reliability "Low", and the failure explanation as details |

## Left out

- The POST request itself (quran/halal_detector.py:20-29): headers, payload,
  model name and the 30-second timeout. It is network I/O; each operation
  receives its `Outcome` as an argument instead.
- `json.loads` (quran/halal_detector.py:34): a foreign library call, modelled
  as the parameter `parse`. Integers and floats share one `Number` constructor,
  because nothing in the client inspects numbers. A `RecursionError` from
  decoding a deeply nested body would fall through to the outer handler as a
  "Network Error" mapping; the model's `parse` either decodes or fails with a
  `JSONDecodeError`.
- The prompts (quran/halal_detector.py:59, 72, 95, 113): opaque text with no
  effect on the logic modelled here. The inputs they interpolate (`ingredient`,
  `food_name`, `haram_item`, `brand`, `product`) matter only through the echoed
  fields.
- `__init__`, `api_key` and `base_url` (quran/halal_detector.py:6-8): set once and
  never read by the logic, so no class is modelled.
- example.py is not part of this model: it only prints results.
- `batch_detect`'s requests happen one per item. Each item's `Outcome` is given
  in `outcomes`, in item order. Items after one that raised are never requested;
  their outcomes do not affect the result.
- FirstFive: slicing a dictionary raises `TypeError` on Python versions before
  3.12 and `KeyError` from 3.12 on; the model reports `TypeError`.
- GetHalalAlternatives: Python declares the return type `List[str]` but returns
  whatever `alternatives` held, cut to five; the model returns the JSON value
  (an array or a string) rather than a list of strings.
- KeptLines: its own contract only bounds the length; which lines it keeps is
  stated by `KeptLinesSound` and `KeptLinesComplete`.
- Strings are sequences of Dafny `char`, which excludes the surrogate code
  points U+D800 to U+DFFF. `json.loads` can return a lone surrogate (from an
  escape such as `\ud800`) inside an `explanation`; such a string has no
  counterpart in the model. None of the modelled operations treats a
  surrogate differently from another non-whitespace character.
- BatchDetect: Python's default `item_type="ingredient"` (quran/halal_detector.py:84)
  is not modelled as a default; callers pass `itemType` explicitly, and
  passing "ingredient" gives the default behaviour.
