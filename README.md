# Car recognition: a Dafny model of the report page and the prediction endpoint

The system takes a photo of a car. It names the car's model and year, with two confidences, and lists its engine specification.

The back end (`app.py`) works in three steps:
- A classifier supplies a label such as `Audi_A4_Sedan`, a year, and a confidence for each.
- The endpoint looks the key `label_year` up in an engine database and copies that record's entries into an `engine` map. Each copied entry is tagged "CompCars" with confidence 1.0.
- It asks a language model for the remaining fields. It cleans the model's reply, parses it as JSON, and writes each returned entry over the map, tagged "Gemma". A failure of the model's part is recorded in an "llm error" field and is not raised.

The browser page (`static/script.js`) keeps a small state object: the selected file, whether an analysis is in flight, and a scan counter persisted in local storage. It gates the request to `/predict`. For a successful response it fills in the results view:
- the display name;
- the headline confidence, i.e. the mean of the two confidences, to one decimal;
- the headline's colour tier;
- two confidence bars;
- one card per engine entry.

While it draws the cards, the page rewrites displacements given in cubic centimetres as litres, in place.

The model is split into modules by concern:

- `Text`: the string operations both halves rely on. On the page: `replace(/_/g, ' ')`, `split(' ')`, `join(' ')` and ASCII case mapping. In Python: `str.strip`, `str.strip(chars)` and `str.replace(old, new, 1)`.
- `Decimal`: `Number.prototype.toFixed` on exact reals, the text it prints, and a decimal reader. The reader stands for `parseFloat` of that text and for the decimal part of Python's `float(str)`.
- `Dict`: insertion-ordered dictionaries with Python's assignment rule. An existing key is replaced where it stands; a new key is appended.
- `Report`: the pure parts of the page:
  - the display name;
  - the headline and its tier;
  - the bars;
  - the spec catalog;
  - the displacement rule;
  - the content of a spec card.
- `Client`: the page's state as a class `App`, with one method per handler. The engine entries are an array that `DisplayEngineSpecs` updates in place, entry by entry.
- `Server`: the deterministic core of `predict`:
  - the database key and the choice of prompt;
  - the reply clean-up;
  - the two loops that build the engine map, as methods proved against functions;
  - the shape of the returned dictionary;
  - the inversion of the class index.

The classifier's outputs are inputs of the model. So are the language model call, `json.loads`, the response `fetch` delivers and the stored statistics.

## Model

| member | source | states |
|---|---|---|
| Text.ReplaceChar | static/script.js:224 | every underscore becomes a space and every other character stays, position by position |
| Text.ReplaceCharRemoves | static/script.js:224 | after the replacement no underscore is left |
| Text.Split | static/script.js:225 | splitting on a space always yields at least one piece, and no piece contains the separator |
| Text.SplitJoin | static/script.js:225-228 | splitting the joined text of separator-free words gives the words back |
| Text.JoinSplit | static/script.js:225-228 | joining the pieces of a split gives the original text back |
| Text.JoinAvoids | static/script.js:228 | a character that is in no word and is not the separator is not in the joined text |
| Text.ToUpper | static/script.js:227 | upper-casing maps a lower-case ASCII letter to the same letter in upper case, leaves every other character as it is, and never yields a lower-case letter |
| Text.ToLower | static/script.js:227 | lower-casing maps an upper-case ASCII letter to the same letter in lower case, leaves every other character as it is, and never yields an upper-case letter |
| Text.CaseInverse | static/script.js:227 | the two case maps undo each other on the letters they map, and lower-casing after either map is plain lower-casing |
| Text.LowerAll | static/script.js:227 | `toLowerCase` maps each character independently and keeps the length |
| Text.Strip | app.py:243 | the result is a middle slice: everything cut off is in the stripped set, and its first and last characters are not |
| Text.StripStable | app.py:243 | a text whose ends are not in the set is left unchanged |
| Text.StripIdempotent | app.py:243 | stripping twice is stripping once |
| Text.FindFrom | app.py:243 | finds the first occurrence at or after a position; none is reported only when none exists |
| Text.ReplaceFirst | app.py:243 | `replace("json", "", 1)` cuts out the first occurrence only, and leaves a text without one unchanged |
| Decimal.ToFixed | static/script.js:232 | the sign is that of the input; the magnitude is within one half of the absolute value scaled by 10^digits, ties going up |
| Decimal.ToFixedMonotone | static/script.js:232 | of two non-negative numbers, the larger never rounds to a smaller magnitude |
| Decimal.NatText | static/script.js:232 | the digits of a whole number are at least one digit long, and start with 0 only for zero itself |
| Decimal.FixedTextEnds | static/script.js:232 | `toFixed` text starts with a sign or a digit and ends with a digit |
| Decimal.ParseFixedText | static/script.js:210 | reading `toFixed` text back gives exactly the rounded value, sign and number of digits included |
| Dict.Get | app.py:231 | a lookup finds a value exactly when the key is present |
| Dict.Set | app.py:233 | an assignment keeps the size for a present key and adds one for a new key |
| Dict.GetSetSame | app.py:233 | after `d[k] = v`, `d[k]` is `v` |
| Dict.GetSetOther | app.py:233 | `d[k] = v` leaves every other key's value alone |
| Dict.KeysSet | app.py:233 | an existing key keeps its position, and a new key goes last |
| Dict.SetUnique | app.py:233 | assignment keeps the keys distinct |
| Report.Tokens | static/script.js:224-225 | a label always yields at least one token |
| Report.DropYears | static/script.js:226 | the kept tokens are exactly the tokens that are not four-digit years, and there are no more of them than tokens |
| Report.DropYearsAppend | static/script.js:226 | the filter works piecewise, so the surviving tokens keep their order |
| Report.TitleCaseAll | static/script.js:227 | each token is title-cased on its own, and the count is kept |
| Report.TitleCaseFacts | static/script.js:227 | title-casing adds no separator, yields a title-cased word, keeps year-ness and is idempotent |
| Report.TitleCaseKeepsLetters | static/script.js:227 | title-casing changes only the case of letters: lower-casing before and after gives the same text |
| Report.NameWords | static/script.js:224-227 | one word per token that is not a year, in order, with the token's letters up to case; each word is title-cased, not a year, and free of spaces and underscores |
| Report.FormatCarName | static/script.js:222-229 | the display name has no underscore; it is empty when every token was a year, and otherwise splits back on spaces into exactly its words |
| Report.FormatCarNameIdempotent | static/script.js:222-229 | formatting a display name again changes nothing |
| Report.TierOf | static/script.js:239-255 | at least 80 is high, at least 60 and below 80 medium, below 60 low, each as an if-and-only-if |
| Report.TierMonotone | static/script.js:239-255 | a higher confidence never gets a lower tier |
| Report.HeadlineText | static/script.js:189-194 | the headline is a number text followed by a percent sign, and the number reads back as the mean confidence in percent rounded to one decimal |
| Report.BadgeTier | static/script.js:189-210 | the badge is tiered on the headline read back from its one-decimal text, not on the raw mean |
| Report.TenthsReach | static/script.js:189 | for a non-negative mean, the rounded value reaches a whole number exactly when the mean plus 0.05 does |
| Report.BadgeThresholds | static/script.js:189-210 | on the raw mean the badge thresholds are effectively 79.95 and 59.95, each as an if-and-only-if |
| Report.RoundingLiftsTier | static/script.js:189-210 | a raw mean of 79.96 is medium on its own value but gets the high badge |
| Report.BarText | static/script.js:231-237 | a bar text is a number text followed by a percent sign, and the number reads back as the confidence in percent rounded to one decimal |
| Report.LookupDescriptor | static/script.js:261-337 | a catalog key gets its catalog descriptor with a real icon; any other key gets a placeholder descriptor named after the key, with no unit |
| Report.DisplacementLitres | static/script.js:344-347 | a value above 20 is divided by 1000; any other value is kept |
| Report.DisplacementLitresRange | static/script.js:344-347 | cc values up to 20000 come out as at most 20 litres; applying the rule twice equals applying it once exactly for inputs up to 20000 |
| Report.Normalize | static/script.js:337-348 | a numeric displacement gets the litre descriptor and its litre value; every other entry keeps its value and its own descriptor; confidence and source never change |
| Report.ValueText | static/script.js:371-373 | a number's text reads back as the number rounded to one decimal; any other value is shown verbatim |
| Report.UnitText | static/script.js:375 | an empty unit shows nothing; otherwise a space and the unit |
| Report.SourceText | static/script.js:397 | a missing or empty source shows as "Unknown", any other source as itself, and the text is never empty |
| Report.PercentText | static/script.js:376 | the confidence text reads back as the confidence in percent, rounded to a whole number |
| Report.CreateSpecCard | static/script.js:367-400 | the card shows the descriptor's icon and name, the value text, the unit text of the descriptor's unit, the source text of the entry and the whole-percent confidence |
| Report.RenderSpec | static/script.js:336-350 | a numeric displacement is shown as "Displacement" in litres; a displacement given as text is shown verbatim under the same name and unit; another catalog key gets its catalog name, icon and unit; any other key is shown under its own name, with no unit and the placeholder icon; the source text is always the entry's |
| Report.CardNumbers | static/script.js:371-376 | a numeric value text reads back as the value rounded to one decimal, in litres for a displacement; any other value is shown verbatim; the confidence text reads back as a whole percentage |
| Report.RenderAllAt | static/script.js:336-352 | one card per entry, in entry order, each made from its own entry alone |
| Report.NormalizeAllAt | static/script.js:340-347 | the write-back changes entries one by one and keeps their number and order |
| Report.LookupAsWritten | static/script.js:337 | the page's lookup finds own catalog entries, then inherited `Object.prototype` members, and only then falls back |
| Report.RenderSpecAsWritten | static/script.js:336-350 | the page's loop body throws exactly for a key named after an inherited member, and then writes nothing back; otherwise it gives the intended card |
| Report.InheritedNotInCatalog | static/script.js:337-340 | no inherited member name is a catalog key or a displacement key |
| Report.InheritedKeyThrows | static/script.js:380 | an entry named "toString" makes the page's card rendering throw, where the corrected lookup gives the placeholder card |
| Report.RenderGrid | static/script.js:336-352 | the page's loop appends at most one card per entry; it ends early exactly when a card threw, and otherwise has one card per entry |
| Report.RenderGridPrefix | static/script.js:336-352 | the cards appended are the intended cards of the entries before the stop, none of which is an inherited name; the entry it stopped at is one |
| Report.RenderGridWhole | static/script.js:336-352 | when nothing threw, the grid holds every entry's intended card |
| Report.RenderGridClean | static/script.js:336-352 | without inherited names, nothing throws and every entry gets its intended card |
| Report.RenderGridStays | static/script.js:336-352 | once a card has thrown, later entries change nothing |
| Client.AcceptedFile | static/script.js:84-89 | a file is taken exactly when the list is non-empty and its first file has an `image/` type; that first file is the one taken |
| Client.StoredCount | static/script.js:451 | a stored count is used, and a missing one counts as 0 |
| Client.Saved | static/script.js:441-445 | the saved record reads back as the count it saved |
| Client.HeaderOf | static/script.js:178-210 | the header shows the formatted name, the year, the headline text and both bar texts; the badge is high or low exactly at the rounded thresholds |
| Client.ShowEntry | static/script.js:336-351 | the card or exception is the page's rendering of the entry as it was; the entry becomes its normalised form, and stays as it was when the card throws; no other entry changes |
| Client.ShowEntries | static/script.js:336-352 | the loop leaves the cards and the stop of the page's grid; the entries before the stop are normalised in place and the rest untouched; without a stop, every card and every entry is the intended one |
| Client.App.constructor | static/script.js:10-15 | the initial state, then the count loaded from storage when a record is stored |
| Client.App.LoadStoredStats | static/script.js:447-453 | with a stored record the count comes from it; otherwise it stays; nothing else changes |
| Client.App.SaveStats | static/script.js:441-445 | the stored record now reads back as the current count; nothing else changes |
| Client.App.UpdateStats | static/script.js:435-439 | the count goes up by one and is persisted at once |
| Client.App.LoadFile | static/script.js:111-127 | the file becomes the selection and the results are hidden |
| Client.App.HandleFileSelect | static/script.js:84-89 | an accepted first file is loaded; anything else leaves the page as it was, whether or not an analysis is running |
| Client.App.HandleDrop | static/script.js:101-109 | the same rule for the first dropped file |
| Client.App.ClearSelection | static/script.js:129-137 | no file is selected and the results are hidden; the count and the storage stay |
| Client.App.DisplayEngineSpecs | static/script.js:257-365 | the grid holds the cards of the page's loop and reports whether a card threw; the entries are normalised up to the stop; nothing else on the page changes |
| Client.App.ShowHeader | static/script.js:179-210 | the header shows the prediction's name, year, headline, badge and bars; nothing else changes |
| Client.App.DisplayResults | static/script.js:178-220 | the header for the prediction, then the grid; the results are shown only when no card threw; nothing else changes |
| Client.App.StartAnalysis | static/script.js:142-156 | without a selection, or while a run is in flight, nothing is sent; otherwise the run starts and the selected file is sent |
| Client.App.CompleteAnalysis | static/script.js:157-172 | when the response succeeds and no card throws, the results are shown and the scan is counted and persisted; otherwise one error message is added and the count and storage stay; a failed request leaves the header, grid and entries; either way the run ends |
| Client.App.AnalyzeImage | static/script.js:142-173 | a gated run changes nothing at all; otherwise the count grows by one exactly when the response completes, and the outcome is that of the completion |
| Client.TwoClicksOneRequest | static/script.js:143 | a second click while a request is in flight sends nothing |
| Client.NoFileNoRun | static/script.js:143 | without a selected file, analysing changes neither the count nor the errors |
| Client.ScanThenReload | static/script.js:435-453 | after a successful scan the count is one higher, a reloaded page starts from it, and the grid holds the rendered entries |
| Client.FailedScanKeepsCount | static/script.js:158-172 | a non-2xx response leaves the count and the stored record, shows one error and ends the run |
| Client.InheritedKeyScan | static/script.js:163-167 | a successful reply with an engine entry named "toString" is not counted, shows one error, keeps the results hidden and leaves the grid empty |
| Server.DbKey | app.py:89 | the key is the label, one underscore, then the year |
| Server.DbKeyAmbiguous | app.py:219 | labels that contain underscores can collide: "a_b" in year "c" and "a" in year "b_c" share a key |
| Server.DbKeyInjective | app.py:219 | for years without underscores, the key determines both label and year |
| Server.FirstMissing | app.py:100-103 | reports a missing field exactly when one of the read fields is absent; the one it reports is absent and comes no later than any absent field |
| Server.BuildPrompt | app.py:88-160 | the verified template exactly when the key is in the database, carrying that record's displacement, max speed, doors and seats; a KeyError exactly when one of them is missing; otherwise the estimate template; the car text has spaces for underscores |
| Server.PromptCarTextClean | app.py:96 | the car's name in the prompt never shows an underscore |
| Server.CleanReply | app.py:243 | the cleaned reply neither starts nor ends with whitespace |
| Server.CleanReplyFenced | app.py:243 | a reply fenced as a Markdown code block tagged json comes out as the block's trimmed body |
| Server.StripFence | app.py:243 | stripping backticks from a fenced reply leaves the "json" tag and the body |
| Server.DropJsonTag | app.py:243 | the first "json" of a text starting with it is dropped |
| Server.CleanReplyPlain | app.py:243 | a reply that is not fenced and does not mention "json" only loses its surrounding whitespace |
| Server.PyFloat | app.py:251 | numbers are kept, booleans become 1 and 0, a string is accepted exactly when its trimmed text is decimal and then gives the number that text denotes, and null, arrays and objects raise |
| Server.PyFloatReadsFixedText | app.py:251 | `float` of a confidence written as decimal text gives that number |
| Server.LlmEntry | app.py:247-252 | an entry is accepted exactly when it is an object with a "value" and a confidence that `float` accepts; it then carries that value, source "Gemma" and that confidence; otherwise it is one of the three entry errors |
| Server.DbLayer | app.py:231-237 | the database loop's keys are the map's keys together with the record's keys |
| Server.DbLayerGet | app.py:231-237 | after the database loop each database key holds its value tagged "CompCars" with confidence 1.0, and every other key what it held before |
| Server.DbLayerKeys | app.py:231-237 | starting from the empty map, the database loop keeps the database's key order |
| Server.LlmLayer | app.py:247-252 | the model's loop keeps every key of the map and adds only keys the model returned |
| Server.LlmLayerFrame | app.py:247-252 | a key the model did not return keeps what the map held |
| Server.LlmLayerKeys | app.py:247-252 | the model's loop never removes or reorders a key; the old keys stay first, in order |
| Server.LlmLayerOverwrites | app.py:247-252 | when no entry raised, every key the model returned holds the model's entry, overwriting the database's |
| Server.LlmLayerStops | app.py:241-255 | once an entry has raised, later entries are not looked at |
| Server.LlmLayerPartial | app.py:241-255 | when an entry raised, the map is exactly the earlier entries applied, and the error is that entry's |
| Server.LlmStageIsLayer | app.py:241-255 | the inner `try` leaves the map the model's loop makes from the reply's pairs, none when the reply fails or is not an object; a failed call is recorded as that failure |
| Server.LlmStageFrame | app.py:241-255 | only keys of the model's reply can change; a reply that fails before its entries changes nothing |
| Server.OutputKeys | app.py:221-255 | the response's keys start with car, year, confidence and engine; "llm error" is present exactly when the model's part failed |
| Server.Assemble | app.py:192-262 | the response carries the classifier's label, year and confidences and an "llm error" exactly when the model's part failed; it fails as a whole exactly when the database record lacks a field the prompt reads, with the quoted name of the first such field |
| Server.AssembleKeepsDatabase | app.py:231-252 | database entries survive under their own keys, tagged "CompCars", unless the model returned that key; without a record, only the model's keys are present |
| Server.AddDatabaseEntries | app.py:231-237 | the database loop computes the database layer |
| Server.AddModelEntries | app.py:247-252 | the model's loop computes the model layer and stops at the first entry that raises |
| Server.Predict | app.py:219-262 | the endpoint after classification returns exactly the assembled response, or the prompt's error |
| Server.IdxToClass | app.py:29 | the inverted map's indices are exactly the values of `class_to_idx` |
| Server.IdxToClassSound | app.py:29 | every label the inverted map gives has that index in `class_to_idx` |
| Server.IdxToClassInverse | app.py:29 | with distinct indices, inverting recovers every label from its index |
Members without a row are helpers whose meaning the rows above state: the catalog `Report.Catalog` and `Report.Fallback` through `Report.LookupDescriptor`; `Report.TitleCase` through `Report.TitleCaseFacts` and `Report.TitleCaseKeepsLetters`; `Report.DisplacementEntries` through `Report.RenderSpec`; `Text.Join` through `Text.SplitJoin`, `Text.JoinSplit` and `Text.JoinAvoids`; `Server.LlmStage` through `Server.LlmStageIsLayer`; `Report.RenderAll` and `Report.NormalizeAll` through `Report.RenderAllAt` and `Report.NormalizeAllAt`.

## Left out

- Decimal.ToFixed: works on exact reals, not IEEE doubles. Binary representation error is not modelled, nor is the exponent form `toFixed` prints from 1e21 up. The float arithmetic of `(model + year) / 2 * 100` is exact in the model.
- Text.ToUpper, Text.ToLower: only ASCII letters are mapped. JavaScript's `toUpperCase`/`toLowerCase` also map other Unicode letters, including ones that change length.
- `Object.entries` lists integer-like keys first, in ascending order. The model keeps the order of the response body for every key.
- Client.App.LoadFile: the file is selected at once. The `FileReader` preview and `showPreview` (enabling the analyse button, the preview image) are not modelled beyond hiding the results.
- The DOM is not modelled. Neither are the animations, the `setTimeout` delays, `animateCounters`/`animateCounter`, the models counter, `showError`'s styling and removal (errors only accumulate) or `console.error`.
- The upload-area click and the drag-over and drag-leave highlighting are left out. They only open the file picker or change a CSS class.
- `fetch`, `response.json()` and local storage are I/O. The response is a parameter and the storage is a field of `App`. A stored item that `JSON.parse` rejects is not modelled.
- Client.App.AnalyzeImage: the response arrives before anything else happens on the page. Other interleavings are modelled only through `StartAnalysis` and `CompleteAnalysis`.
- A response body that lacks `confidence` or `car` is not modelled: it would make `displayResults` throw. The only rendering error modelled is an engine entry named after an inherited member, under Findings.
- Spec values that are not numbers are held as the text the page shows for them. A confidence that is not a number is not modelled: the page would show "NaN".
- Image decoding and the torch classifier (`predict` lines 195-217) are not modelled: the label, year and confidences are inputs. The HTTP 500 is an `Err` carrying its detail, which for a missing field is `str` of the `KeyError`: the field's name in single quotes.
- `ask_gemma` (an HTTP call) and `json.loads` are function parameters of `Server.Predict`. The prompt template's wording is not modelled, only which template and the values put into it.
- Server.LlmEntry: each exception is a constructor of `LlmError`, not Python's message text.
- Server.PyFloat: reads JSON numbers, booleans and plain decimal text. Python's `float` also accepts exponents, "inf", "nan" and underscores; the model rejects these as a bad confidence.
- The engine database is loaded as a dictionary of dictionaries, and `class_to_idx` maps labels to integers. Records that are not objects, and string indices that `int(v)` converts, are not modelled. So are duplicate JSON keys: the lemmas assume distinct keys.
- The `/`, `/random_test_car` and static-file routes, the CORS set-up and the model loading at start-up are not modelled.

## Findings

| source | as written | input that shows it | evidently intended | confidence | as-written member | corrected member |
|---|---|---|---|---|---|---|
| static/script.js:337 | the catalog lookup falls back only when the found value is falsy, so it also finds members inherited from `Object.prototype` | an engine entry named "toString" (or "constructor", "valueOf"): the found function has no `icon`, and `createSpecCard` throws a TypeError at line 380; the whole analysis then reports failure and the scan is not counted | only the catalog's own entries count, and every other key gets the placeholder card | not executed | Report.RenderSpecAsWritten | Report.LookupDescriptor |

The page in `Client` follows the lookup as written, through `Report.RenderGrid` and `Client.ShowEntry`, so `Client.InheritedKeyScan` shows the failure. The corrected lookup gives the intended card `Report.RenderSpec`, which the as-written loop produces for every other entry (`Report.RenderSpecAsWritten`, `Report.RenderGridClean`).
