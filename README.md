# sec-scan detection pipeline, modelled in Dafny

sec-scan is a command-line tool that looks through text, Markdown, CSV, PDF and DOCX files for personal
information: e-mail addresses, Japanese phone numbers and credit-card numbers. It can also ask a language
model served by Ollama.

This project models the pipeline behind that tool. The stages are:

- listing the files under a path and keeping the supported extensions;
- picking a text extractor by the lowercased extension;
- running a detector on the text:
  - the pattern detector, which checks card numbers with the Luhn sum;
  - the API detector, which parses the model's reply and falls back to the patterns;
  - the hybrid detector, which merges several detectors and removes duplicates;
- shaping each file's result;
- accumulating results across the files of a directory scan;
- the Ollama client's retry loop;
- the scan metrics counters.

The operating system and the libraries are parameters:

- the file system (`FileSystem.Fs`): existence, file/directory tests, the directory walk, reading a file,
  and PDF and DOCX text;
- the e-mail and phone regular expressions (`RegexDetection.Patterns`), constrained to ordered,
  non-overlapping matches inside the line;
- the JSON decoder of the API reply (`ApiDetection.Decoder`);
- the HTTP exchange of the Ollama client (`exchange`, one `Attempt` per try);
- the order in which a directory scan's concurrent tasks finish (`schedule`, any permutation of the listing).

Each layer gets its own module:

- `Wrappers`, `Text`, `Errors` and `Models` are shared.
- `Paths` models `Path::extension`.
- `FileSystem` holds the OS oracle.
- `RegexDetection`, `ApiDetection`, `HybridDetection` and `OllamaApi` model the detectors and the client.
- `Extraction` and `Scanning` model the extractors and the filesystem scanner.
- `Detection` and `ScanApp` model the application services.
- `Progress` and `Metrics` model the utilities.

Where the source mutates state, the model uses classes:

- `ExtractorManager.extractors`;
- `HybridDetector.detectors`;
- the `ScanMetrics` counters;
- the progress bar's step count.

Loops in the source are methods with loop invariants, each proved against a specification function. These
include the Luhn check, the per-line detection loop, the `merge_results` loop, `list_supported_extensions`,
the `scan_path` loops, the joined tasks of `scan_directory` and the retry loop. One loop is the exception:
the first-match loop of `ExtractorManager::extract` is the function `ExtractorManager.Extract`, built on
the recursive search `FirstSupporting`.

`parse_api_response` in `src/infrastructure/repositories/api_detector.rs` calls itself on the extracted
`{...}` slice. The extraction is idempotent, so a slice that does not decode is extracted again unchanged and
the recursion never returns. The model keeps this behaviour: `ParseApiResponse` takes an explicit fuel bound
and returns `None` for "has not returned". `ParseDiverges` proves it never returns on such a slice, whatever
the fuel. `ApiDetection.AsDetector` is therefore only defined for clients whose replies never reach that case.

## Model

| member | source | states |
|---|---|---|
| Text.Lower | src/infrastructure/extractors/extractor_manager.rs:23-27 | lowercasing keeps the length and maps every character by the ASCII lowercase mapping |
| Text.LowerIdempotent | src/infrastructure/extractors/text_extractor.rs:11 | lowercasing twice is lowercasing once, so lowercasing an already lowercased type changes nothing |
| Text.LinesHaveNoLineFeed | src/infrastructure/repositories/regex_detector.rs:102 | no line produced by `lines()` contains a line feed |
| Text.LinesCount | src/infrastructure/repositories/regex_detector.rs:102 | `lines()` yields one line per line feed plus one for an unterminated last line |
| Text.Utf8Append | src/infrastructure/repositories/regex_detector.rs:23-24 | UTF-8 encoding distributes over concatenation, which is what makes byte offsets additive |
| Text.Utf8LenMonotone | src/infrastructure/repositories/regex_detector.rs:23-24 | byte offsets grow with character offsets, so a match's start byte is at most its end byte |
| Text.Utf8Slice | src/infrastructure/repositories/regex_detector.rs:21-24 | the bytes of a matched substring are exactly the bytes between its start and end byte offsets |
| Text.IndexOf | src/infrastructure/repositories/regex_detector.rs:102 | the index found is the first occurrence, or the length when there is none |
| Text.NatToString | src/infrastructure/api/ollama_client.rs:113 | the decimal rendering of a status code is non-empty and made of digits |
| Paths.Segments | src/infrastructure/extractors/extractor_manager.rs:23-24 | a path splits into at least one slash-free piece |
| Paths.SegmentsJoin | src/infrastructure/extractors/extractor_manager.rs:23-24 | the pieces of `a/b` are those of `a` followed by those of `b` |
| Paths.NamedAppend | src/infrastructure/extractors/extractor_manager.rs:23-24 | the normal components of joined piece lists are the joined components |
| Paths.NamedFacts | src/infrastructure/extractors/extractor_manager.rs:23-24 | a normal component is never empty, never `.` and holds no slash |
| Paths.FileName | src/infrastructure/filesystem/scanner.rs:21 | a file name is never empty, `.` or `..`, and holds no slash |
| Paths.LastIndexOf | src/infrastructure/filesystem/scanner.rs:21 | the index found holds the character and none follows it |
| Paths.Extension | src/infrastructure/filesystem/scanner.rs:21 | an extension is the dot-free, slash-free text after the file name's last dot, which is not its first character; a name with a dot after its first character has one |
| Paths.ExtensionOfFile | src/infrastructure/filesystem/scanner.rs:20-27 | a file `stem.ext` in any directory has extension `ext` |
| RegexDetection.DigitsAppend | src/infrastructure/repositories/regex_detector.rs:68-71 | the digits of a concatenation are the digits of each part in order |
| RegexDetection.StripSeparators | src/infrastructure/repositories/regex_detector.rs:51 | the stripped candidate holds no space and no hyphen |
| RegexDetection.StripKeepsDigits | src/infrastructure/repositories/regex_detector.rs:51-54 | stripping separators loses no digit: the check sees the digits of the raw match |
| RegexDetection.IsValidCreditCard | src/infrastructure/repositories/regex_detector.rs:67-93 | the loop accepts exactly when the digit count is 13 to 19 and the Luhn sum is a multiple of ten; fewer than 13 or more than 19 digits are rejected |
| RegexDetection.LuhnSumMatchesStandard | src/infrastructure/repositories/regex_detector.rs:80-90 | the sum by position from the right equals the loop's reversed walk that doubles every second digit |
| RegexDetection.DoubledTermIsDigitSum | src/infrastructure/repositories/regex_detector.rs:82-87 | subtracting 9 from a doubled digit above 9 is the sum of its two decimal digits, as the Luhn formula of ISO/IEC 7812-1 Annex B has it |
| RegexDetection.IgnoresNonDigits | src/infrastructure/repositories/regex_detector.rs:68-71 | a non-digit character anywhere does not change the digits the check sees |
| RegexDetection.Chain | src/infrastructure/repositories/regex_detector.rs:48 | a greedy run of `\d[ -]?` repetitions stays in the line, uses at most the allowed repetitions and is empty exactly when it matched nothing |
| RegexDetection.ChainText | src/infrastructure/repositories/regex_detector.rs:48 | a run holds only digits and separators, starts with a digit and has as many digits as repetitions |
| RegexDetection.CardCandidates | src/infrastructure/repositories/regex_detector.rs:48-50 | the card matches lie inside the line in order without overlap |
| RegexDetection.CandidatesAreMatches | src/infrastructure/repositories/regex_detector.rs:48-50 | each candidate is a leftmost greedy match of 13 to 16 repetitions |
| RegexDetection.CandidateShape | src/infrastructure/repositories/regex_detector.rs:48 | a match's text has 13 to 16 digits and starts with a digit |
| RegexDetection.CandidateDigitsBounded | src/infrastructure/repositories/regex_detector.rs:73-75 | every candidate has 13 to 16 stripped digits, so the `> 19` rejection never fires from detection |
| RegexDetection.KeepValid | src/infrastructure/repositories/regex_detector.rs:50-54 | the kept candidates are some of the candidates, never more |
| RegexDetection.KeepValidExactly | src/infrastructure/repositories/regex_detector.rs:50-62 | a candidate is kept if and only if its stripped form passes the check, and order is kept |
| RegexDetection.DetectEmail | src/infrastructure/repositories/regex_detector.rs:15-27 | pushes one `email` finding per match, in match order |
| RegexDetection.DetectPhoneNumber | src/infrastructure/repositories/regex_detector.rs:30-43 | pushes one `phone_number` finding per match, in match order |
| RegexDetection.DetectCreditCard | src/infrastructure/repositories/regex_detector.rs:46-64 | pushes a `credit_card` finding for exactly the matches that pass the check, with the raw match as value |
| RegexDetection.PushAcceptedCards | src/infrastructure/repositories/regex_detector.rs:50-62 | the loop over the card matches appends the findings of exactly the matches that pass the check, in match order |
| RegexDetection.DetectLine | src/infrastructure/repositories/regex_detector.rs:103-111 | one line's pass appends its emails, then its phones, then its cards to what was found before |
| RegexDetection.Detect | src/infrastructure/repositories/regex_detector.rs:98-114 | `detect` always succeeds, with every line's findings in line order; the empty text gives no findings |
| RegexDetection.EmitPlaced | src/infrastructure/repositories/regex_detector.rs:18-25 | each emitted finding has its kind, the line number `line_idx + 1`, and byte offsets that delimit its value in the line |
| RegexDetection.EmitOrdered | src/infrastructure/repositories/regex_detector.rs:18-25 | findings of ordered matches do not overlap in bytes |
| RegexDetection.CardFindingsOfLine | src/infrastructure/repositories/regex_detector.rs:46-64 | a line's card findings come from card matches that pass the check, in order without overlap |
| RegexDetection.CardEmitValid | src/infrastructure/repositories/regex_detector.rs:55-61 | every card finding's value is a card match whose digits pass the Luhn check |
| RegexDetection.LineFindingsPlaced | src/infrastructure/repositories/regex_detector.rs:102-111 | every finding of a line carries its number, is placed on it, is of one of the three kinds and, if a card, is Luhn-valid |
| RegexDetection.LineFindingsOrdered | src/infrastructure/repositories/regex_detector.rs:102-111 | within a line: all emails, then all phones, then all cards, each kind left to right |
| RegexDetection.FindingsPlaced | src/infrastructure/repositories/regex_detector.rs:102 | each finding of a text refers to one of its lines, numbered from 1, and is placed on it |
| RegexDetection.FindingsOrdered | src/infrastructure/repositories/regex_detector.rs:102-111 | findings come by line, then by kind, then left to right |
| RegexDetection.CardFindingsValid | src/infrastructure/repositories/regex_detector.rs:50-62 | every card finding of a text is Luhn-valid |
| RegexDetection.StripAppend | src/infrastructure/repositories/regex_detector.rs:51 | stripping separators distributes over concatenation |
| RegexDetection.GroupedChain | src/infrastructure/repositories/regex_detector.rs:48 | the card pattern consumes a grouped number `dddd dddd dddd dddd` in sixteen repetitions |
| RegexDetection.GroupedStrip | src/infrastructure/repositories/regex_detector.rs:51 | stripping a grouped number leaves its sixteen digits |
| RegexDetection.GroupedCard | src/infrastructure/repositories/regex_detector.rs:48-62 | a grouped number is one candidate covering it, kept exactly when its digits are Luhn-valid |
| RegexDetection.OnesThenSum | src/infrastructure/repositories/regex_detector.rs:78-90 | the Luhn sum of `n` ones followed by a digit `d` is `d + n + (n + 1) / 2`: the ones at odd positions from the right count twice |
| RegexDetection.Card4111Reported | src/infrastructure/repositories/regex_detector.rs:48-93 | "4111 1111 1111 1111" alone on a line gives exactly one card match, covering the whole line, and it is reported (Luhn sum 30) |
| RegexDetection.Card4112Rejected | src/infrastructure/repositories/regex_detector.rs:48-93 | "4111 1111 1111 1112" gives no card finding (Luhn sum 31) |
| RegexDetection.TrailingSeparatorKept | src/infrastructure/repositories/regex_detector.rs:48-57 | a grouped number followed by a space is matched with the space included in the value |
| RegexDetection.DetectFindingsFacts | src/infrastructure/repositories/regex_detector.rs:98-114 | every finding of `detect` is placed on its line and every card finding is Luhn-valid |
| RegexDetection.AsDetector | src/infrastructure/repositories/regex_detector.rs:116-122 | the pattern detector is named "Regex Detector", is always available and never fails |
| ApiDetection.Find | src/infrastructure/repositories/api_detector.rs:66 | `find('{')`: the first index of the character, or none |
| ApiDetection.RFind | src/infrastructure/repositories/api_detector.rs:66 | `rfind('}')`: the last index of the character, or none |
| ApiDetection.ExtractJsonSpec | src/infrastructure/repositories/api_detector.rs:64-73 | extraction succeeds if and only if some `{` comes before some `}`; the result is the slice from the first `{` to the last `}` inclusive; otherwise the error is "No valid JSON found in response" |
| ApiDetection.ExtractJsonIdempotent | src/infrastructure/repositories/api_detector.rs:64-73 | extracting from an extracted slice returns it unchanged |
| ApiDetection.FromApiInfo | src/infrastructure/repositories/api_detector.rs:40-46 | a decoded entry becomes a finding field for field |
| ApiDetection.FromApiInfos | src/infrastructure/repositories/api_detector.rs:39-47 | decoded entries become findings one for one, in order |
| ApiDetection.ParseDiverges | src/infrastructure/repositories/api_detector.rs:51-59 | a slice that extracts to itself and does not decode never returns, whatever the fuel |
| ApiDetection.EmptyObjectDiverges | src/infrastructure/repositories/api_detector.rs:51-59 | the reply `{}`, which does not decode, never returns, whatever the fuel |
| ApiDetection.ExtractJsonShrinks | src/infrastructure/repositories/api_detector.rs:63-72 | an extracted object is no longer than the reply, and strictly shorter unless it is the reply |
| ApiDetection.ParseRepaired | src/infrastructure/repositories/api_detector.rs:51-59 | the corrected chain always returns Ok; it equals the source's outcome wherever that returns, and is the pattern fallback exactly where the source never returns |
| ApiDetection.ParseMatchesOutcome | src/infrastructure/repositories/api_detector.rs:34-61 | with fuel for two nested calls, every returning case of the parse chain has returned |
| ApiDetection.ParseNeverFails | src/infrastructure/repositories/api_detector.rs:51-59 | the parse never ends in an error: every failure leads to the pattern fallback |
| ApiDetection.FallbackOnlyWithoutJson | src/infrastructure/repositories/api_detector.rs:51-59 | after a failed direct parse, the fallback is used exactly when no `{...}` can be extracted; otherwise the slice's decoding decides |
| ApiDetection.DetectWithRegex | src/infrastructure/repositories/api_detector.rs:76-176 | the duplicated fallback produces exactly the pattern detector's findings |
| ApiDetection.Detect | src/infrastructure/repositories/api_detector.rs:181-187 | a client error is returned as it is; a reply is parsed against the original text |
| ApiDetection.ClientErrorPropagates | src/infrastructure/repositories/api_detector.rs:183 | a client error is never replaced by the pattern fallback |
| ApiDetection.AsDetector | src/infrastructure/repositories/api_detector.rs:179-195 | the API detector is named "API Detector", always available, propagates client errors and otherwise returns the parse outcome |
| HybridDetection.KeysAppend | src/infrastructure/repositories/hybrid_detector.rs:30 | the keys of a concatenation are the union of the keys |
| HybridDetection.DedupKeys | src/infrastructure/repositories/hybrid_detector.rs:27-36 | merging keeps every input key and introduces none |
| HybridDetection.DedupDistinct | src/infrastructure/repositories/hybrid_detector.rs:30-34 | no two merged findings share a key |
| HybridDetection.FirstWithKey | src/infrastructure/repositories/hybrid_detector.rs:31 | an index holding the key |
| HybridDetection.FirstWithKeyIsFirst | src/infrastructure/repositories/hybrid_detector.rs:31 | no finding before that index holds the key, so it is the first occurrence |
| HybridDetection.DedupFirstOccurrences | src/infrastructure/repositories/hybrid_detector.rs:27-38 | each merged finding is the first input finding with its key, `end` included, and merged findings keep input order |
| HybridDetection.DedupOfDistinct | src/infrastructure/repositories/hybrid_detector.rs:27-38 | a list with distinct keys is left unchanged |
| HybridDetection.MergeIdempotent | src/infrastructure/repositories/hybrid_detector.rs:23-39 | merging one already merged list returns it unchanged |
| HybridDetection.DedupPrefix | src/infrastructure/repositories/hybrid_detector.rs:27-36 | what was merged from earlier lists stays at the front when more is merged |
| HybridDetection.EndIgnored | src/infrastructure/repositories/hybrid_detector.rs:30 | a finding differing only in `end` is dropped as a duplicate |
| HybridDetection.ColonCollision | src/infrastructure/repositories/hybrid_detector.rs:30 | findings ("a:b","c") and ("a","b:c") at the same place share a key and only the first survives |
| HybridDetection.DedupSnoc | src/infrastructure/repositories/hybrid_detector.rs:31-34 | one loop step: the finding is kept exactly when its key is new, and the key is then seen |
| HybridDetection.MergeResults | src/infrastructure/repositories/hybrid_detector.rs:23-39 | the loop with its `seen` set returns the first-occurrence merge of all lists |
| HybridDetection.MergeBatch | src/infrastructure/repositories/hybrid_detector.rs:28-35 | the inner loop extends the merge and the seen keys by one detector's findings |
| HybridDetection.AvailableIndicesSpec | src/infrastructure/repositories/hybrid_detector.rs:53-54 | the invoked detectors are exactly the available ones, in registration order |
| HybridDetection.SuccessesStep | src/infrastructure/repositories/hybrid_detector.rs:53-68 | one loop step adds the detector's result, or `name:error`, only when it is available |
| HybridDetection.EmptyFindsNothing | src/infrastructure/repositories/hybrid_detector.rs:45-47 | with no detectors the result is `Ok([])` |
| HybridDetection.OnlyAvailableMatter | src/infrastructure/repositories/hybrid_detector.rs:53-55 | unavailable detectors have no influence on the outcome |
| HybridDetection.SameRuns | src/infrastructure/repositories/hybrid_detector.rs:53-68 | successes and failures depend only on the available detectors |
| HybridDetection.OneSuccessSuffices | src/infrastructure/repositories/hybrid_detector.rs:72-73 | one successful available detector makes the result `Ok`, containing all its keys, whatever the failures |
| HybridDetection.SuccessIncluded | src/infrastructure/repositories/hybrid_detector.rs:56-60 | a successful available detector's result is among the merged lists |
| HybridDetection.FlattenKeys | src/infrastructure/repositories/hybrid_detector.rs:27-28 | every list's keys are keys of the concatenation |
| HybridDetection.AllFailed | src/infrastructure/repositories/hybrid_detector.rs:74-76 | when every available detector fails and there is one, the error is "All detectors failed: " and the `name:message` list joined by ", " |
| HybridDetection.NoSuccesses | src/infrastructure/repositories/hybrid_detector.rs:72 | with every available detector failing there are no successes |
| HybridDetection.FailuresCount | src/infrastructure/repositories/hybrid_detector.rs:62-66 | then there is one failure per available detector |
| HybridDetection.NoneAvailable | src/infrastructure/repositories/hybrid_detector.rs:77-80 | with nothing available the result is `Ok([])` |
| HybridDetection.NothingRuns | src/infrastructure/repositories/hybrid_detector.rs:53-54 | with nothing available no detector runs |
| HybridDetection.FlattenPair | src/infrastructure/repositories/hybrid_detector.rs:27-28 | two lists are concatenated in order |
| HybridDetection.FirstRegisteredWins | src/infrastructure/repositories/hybrid_detector.rs:27-36 | the first detector's merged findings come first, and later findings never repeat one of its keys |
| HybridDetection.HybridDetector.constructor | src/infrastructure/repositories/hybrid_detector.rs:12-16 | no detectors |
| HybridDetection.HybridDetector.AddDetector | src/infrastructure/repositories/hybrid_detector.rs:18-20 | appends, keeping registration order |
| HybridDetection.HybridDetector.IsAvailable | src/infrastructure/repositories/hybrid_detector.rs:87-90 | available if and only if some registered detector is; never with none |
| HybridDetection.HybridDetector.Detect | src/infrastructure/repositories/hybrid_detector.rs:44-81 | the loop's result is the three-branch outcome, and it invokes exactly the available detectors |
| HybridDetection.AnyOf | src/infrastructure/repositories/hybrid_detector.rs:89 | `any` is true if and only if some detector is available |
| HybridDetection.AsDetector | src/infrastructure/repositories/hybrid_detector.rs:83-90 | the hybrid detector is named "Hybrid Detector", available as `is_available` says, and detects the outcome |
| OllamaApi.New | src/infrastructure/api/ollama_client.rs:54-61 | URL and model as given; the timeout defaults to 60000 ms |
| OllamaApi.CreatePersonalInfoPrompt | src/infrastructure/api/ollama_client.rs:64-71 | the prompt is the fixed instructions followed by the text unchanged |
| OllamaApi.PromptInjective | src/infrastructure/api/ollama_client.rs:64-71 | the text can be read back from the prompt |
| OllamaApi.MakeRequest | src/infrastructure/api/ollama_client.rs:84-88 | the request carries the configured model, the prompt for the text and `format = "json"` |
| OllamaApi.FailureMessage | src/infrastructure/api/ollama_client.rs:108-118 | transport, status and body failures leave their own message in `last_error` |
| OllamaApi.FailureKindsDistinct | src/infrastructure/api/ollama_client.rs:108-118 | the message tells which kind of failure it was |
| OllamaApi.FailureTag | src/infrastructure/api/ollama_client.rs:109-117 | the messages differ in fixed positions: a body failure starts with 'F', a transport failure has 'q' at index 6 |
| OllamaApi.Call | src/infrastructure/api/ollama_client.rs:76-129 | 1 to 3 attempts with one sleep between consecutive attempts; success returns the first successful attempt's response with no attempt after it; exhaustion gives exactly 3 attempts and `ApiError` of the last message ("Unknown API error" is unreachable) |
| Extraction.SupportsIgnoresCase | src/infrastructure/extractors/text_extractor.rs:11 | `supports` does not depend on case |
| Extraction.SupportsExactly | src/infrastructure/extractors/text_extractor.rs:10-13 | plain text supports exactly txt, md, csv, json, xml, html, log; PDF exactly pdf; DOCX exactly docx (lowercased) |
| Extraction.SupportsDisjoint | src/infrastructure/extractors/text_extractor.rs:12 | no file type is supported by two different extractors |
| Extraction.PlainTextRejectsDocuments | src/infrastructure/extractors/text_extractor.rs:12 | plain text does not take pdf or docx in any case |
| Extraction.ExtractWith | src/infrastructure/extractors/text_extractor.rs:15-18 | a plain-text failure is an I/O error carrying the read failure, success is the file content; a PDF failure is a PDF extraction error and a PDF success is the library's text |
| Extraction.FirstSupporting | src/infrastructure/extractors/extractor_manager.rs:30-34 | the index found supports the type and none before it does; none means no extractor does |
| Extraction.SupportedAmongSpec | src/infrastructure/extractors/extractor_manager.rs:41-53 | a listed extension is a candidate some extractor supports, and every such candidate is listed |
| Extraction.SupportedAmongDistinct | src/infrastructure/extractors/extractor_manager.rs:44-50 | the listing has no duplicates |
| Extraction.SupportedAmongAll | src/infrastructure/extractors/extractor_manager.rs:41-53 | when every candidate is supported the listing is the candidates |
| Extraction.ExtractorManager.constructor | src/infrastructure/extractors/extractor_manager.rs:11-15 | no extractors |
| Extraction.ExtractorManager.Register | src/infrastructure/extractors/extractor_manager.rs:17-19 | appends, keeping registration order |
| Extraction.ExtractorManager.Extract | src/infrastructure/extractors/extractor_manager.rs:21-38 | the first registered extractor supporting the lowercased extension (or "") decides and its result is returned as it is; with none, "No extractor found for file type: <ext>" |
| Extraction.ExtractorManager.ListSupportedExtensions | src/infrastructure/extractors/extractor_manager.rs:41-53 | the nested loops with `break` list the supported candidates in candidate order |
| Extraction.ExtractIgnoresCase | src/infrastructure/extractors/extractor_manager.rs:23-27 | paths whose extensions agree up to case are extracted alike |
| Extraction.StandardListing | src/infrastructure/extractors/extractor_manager.rs:44 | with plain text, PDF and DOCX registered all five candidates are listed |
| Extraction.StandardDispatch | src/infrastructure/extractors/extractor_manager.rs:30-34 | with that registration each type goes to the one extractor claiming it, and other types to none |
| Scanning.SupportedFilesStep | src/infrastructure/filesystem/scanner.rs:57-62 | one walk entry is kept exactly when it is a regular file with a supported extension |
| Scanning.SupportedFilesSpec | src/infrastructure/filesystem/scanner.rs:57-62 | the kept entries are exactly the walk's supported regular files, never more than the walk |
| Scanning.ListingSpec | src/infrastructure/filesystem/scanner.rs:31-76 | a missing path is a NotFound error "Path not found: "; a file gives itself if supported, else nothing; a directory gives exactly the supported regular files of the walk |
| Scanning.TextOnlyTypesNeverListed | src/infrastructure/filesystem/scanner.rs:23 | json, xml, html and log files are readable as plain text but never listed |
| Scanning.TextOnlyTypesNotScanned | src/infrastructure/filesystem/scanner.rs:23 | those four types are plain-text types missing from the scanner's list |
| Scanning.ListedFilesHaveExtractor | src/infrastructure/filesystem/scanner.rs:23 | every listed file has an extractor under the standard registration |
| Scanning.CollectSupported | src/infrastructure/filesystem/scanner.rs:57-62 | the walk loop collects exactly the supported regular files in walk order |
| Scanning.CopyWithProgress | src/infrastructure/filesystem/scanner.rs:65-73 | the copy loop keeps length and order and advances the bar once per file |
| Scanning.FileSystemScanner.ScanPath | src/infrastructure/filesystem/scanner.rs:31-76 | `scan_path` returns the listing |
| Scanning.FileSystemScanner.ProcessFile | src/infrastructure/filesystem/scanner.rs:78-103 | a missing file is a NotFound error "File not found: "; otherwise the path with the extracted text, or the extraction error as it is |
| Detection.DetectPersonalInformation | src/application/detect.rs:19-21 | exactly the wrapped detector's answer |
| Detection.DetectInFile | src/application/detect.rs:23-30 | success exactly when the detector succeeds, with the file's path and the findings unchanged; otherwise the detector's error |
| Detection.PatternFileResult | src/application/detect.rs:23-30 | with the pattern detector every file gets a result whose findings are placed on the file's lines |
| Detection.HybridFileResultDistinct | src/application/detect.rs:23-30 | with the hybrid detector a file's findings have distinct keys |
| ScanApp.Indices | src/application/scan.rs:50 | the listing positions 0 to n-1 |
| ScanApp.ScheduleBounds | src/application/scan.rs:50-90 | a finishing order runs every task once, so it has as many entries as files, all in range |
| ScanApp.Contribution | src/application/scan.rs:63-85 | a task adds at most one result, exactly when it succeeded |
| ScanApp.SucceededInStep | src/application/scan.rs:63-85 | one finished task appends its contribution |
| ScanApp.SucceededInAppend | src/application/scan.rs:50-90 | the results of consecutive groups of tasks are concatenated |
| ScanApp.RemoveMatching | src/application/scan.rs:50-90 | removing one occurrence of the same task from two orders of the same tasks leaves orders of the same tasks |
| ScanApp.SucceededInSplit | src/application/scan.rs:50-90 | each task's contribution sits between those of earlier and later tasks |
| ScanApp.SucceededInPermutation | src/application/scan.rs:50-90 | the results, as a multiset, are the same whatever order its tasks finish in |
| ScanApp.SucceededInListingOrder | src/application/scan.rs:50-90 | finishing in listing order gives the successful results in listing order |
| ScanApp.SucceededSpec | src/application/scan.rs:63-85 | at most one result per file, and a result is there exactly when some file's task produced it |
| ScanApp.ScanUseCase.constructor | src/application/scan.rs:17-27 | at most four tasks at a time unless told otherwise |
| ScanApp.ScanUseCase.Outcomes | src/application/scan.rs:50-87 | one outcome per listed file, by position |
| ScanApp.ScanUseCase.ScanDirectory | src/application/scan.rs:30-100 | a listing error fails the scan; otherwise the results, as a multiset, are those of exactly the files where extraction and detection succeeded, at most one per listed file, and the bar advanced once per listed file |
| ScanApp.ScanUseCase.RunTasks | src/application/scan.rs:50-91 | running its tasks in a given order collects their successful results in that order and updates the bar once per task on every path |
| ScanApp.ScanUseCase.ScanFile | src/application/scan.rs:103-115 | a `process_file` error is returned; otherwise `detect_in_file` of the extracted file; each task of `scan_directory` computes the same for its file |
| Progress.ProgressBar.constructor | src/utils/progress.rs:8-19 | a bar for the given total with no step done |
| Progress.ProgressBar.Update | src/utils/progress.rs:21-23 | one more step, nothing else changes |
| Progress.ProgressBar.Finish | src/utils/progress.rs:25-27 | marks the bar finished, keeping its steps |
| Metrics.WrappingAdd | src/utils/metrics.rs:28 | `fetch_add` on a 64-bit counter: the exact sum below 2^64, otherwise the sum less a multiple of 2^64 |
| Metrics.AsMillis | src/utils/metrics.rs:43 | the whole milliseconds of a duration, the part below a millisecond dropped |
| Metrics.TruncatedMillis | src/utils/metrics.rs:43 | `as u64` keeps a millisecond count below 2^64 unchanged and always fits 64 bits |
| Metrics.FromMillis | src/utils/metrics.rs:63 | a duration from whole milliseconds is well formed |
| Metrics.MillisRoundTrip | src/utils/metrics.rs:61-63 | milliseconds turned into a duration and back are unchanged |
| Metrics.AverageMillis | src/utils/metrics.rs:66-73 | none exactly when there are no files; otherwise the floor of total over files |
| Metrics.AverageUnique | src/utils/metrics.rs:71 | the integer-division average is the only whole number between the two bounds |
| Metrics.ScanMetrics.constructor | src/utils/metrics.rs:16-24 | every counter at zero |
| Metrics.ScanMetrics.IncrementFileCount | src/utils/metrics.rs:27-29 | the file count goes up by one (wrapping), the other counters are unchanged |
| Metrics.ScanMetrics.IncrementErrorCount | src/utils/metrics.rs:32-34 | the error count goes up by one (wrapping), the other counters are unchanged |
| Metrics.ScanMetrics.AddDetectionCount | src/utils/metrics.rs:37-39 | the detection count goes up by `count` (wrapping), the other counters are unchanged |
| Metrics.ScanMetrics.AddProcessingTime | src/utils/metrics.rs:42-44 | the duration's whole milliseconds, truncated to 64 bits, are added (wrapping), the other counters are unchanged |
| Metrics.ScanMetrics.TotalFiles | src/utils/metrics.rs:50-52 | the current file count |
| Metrics.ScanMetrics.TotalErrors | src/utils/metrics.rs:54-56 | the current error count |
| Metrics.ScanMetrics.TotalDetections | src/utils/metrics.rs:58-60 | the current detection count |
| Metrics.ScanMetrics.TotalProcessingTime | src/utils/metrics.rs:62-64 | a duration of exactly the counted milliseconds |
| Metrics.ScanMetrics.AverageTimePerFile | src/utils/metrics.rs:66-73 | none exactly when no file was counted; otherwise a duration whose milliseconds times the file count is within one file-count of the total processing time, from below |

## Findings

| source | as written | input that shows it | evidently intended | confidence | as-written member | corrected member |
|---|---|---|---|---|---|---|
| src/infrastructure/repositories/api_detector.rs:51-59 | when a reply does not decode, `parse_api_response` calls itself on the extracted `{...}` slice; a slice that does not decode extracts to itself, so the call repeats forever and the stack overflows | the reply `{}`: `personal_information` has no serde default (api_detector.rs:19-22), so it does not decode | a slice that does not decode goes to the pattern fallback, as the `or_else` arm does for every other failure | not executed | ApiDetection.EmptyObjectDiverges | ApiDetection.ParseRepaired |

The detector model (`ApiDetection.Detect`, `ApiDetection.AsDetector`) keeps the recursion as written.
`ParseRepaired` states what the fix would give and is not used by the rest of the model.

## Left out

- Concurrency in `scan_directory` is not modelled: the semaphore, the mutex, `join_all`, and the errors from `Arc::try_unwrap` and `into_inner`. Its tasks run one after another, in an order chosen by a scheduler parameter. Results are compared as multisets. `maxConcurrency > 0` is required because with no permits no task could start.
- I/O, the directory walk, PDF and DOCX text, HTTP, the JSON decoding of replies and the model's responses are all parameters, not models. This includes the walk's link following and depth limit, `tokio::time::sleep` (counted, not timed) and `println!`/`eprintln!` logging.
- The PDF extractor's "Invalid file path" check is left out. Paths are strings here, so it never fires. The DOCX XML handling (zip, regexes, `</w:p>`) is inside the `docxText` parameter.
- `Paths.Extension` follows `std::path` for `/` separators only. Windows separators and prefixes are not modelled.
- `Text.Lower` lowercases ASCII letters only. The extension lists are ASCII, so membership tests agree with `to_lowercase`. The text of the "No extractor found" message can differ for non-ASCII extensions.
- `RegexDetection.IsDigit` treats only ASCII digits as `\d` and `to_digit(10)`. Unicode decimal digits matched by `\d` are not modelled.
- Line numbers and byte offsets are unbounded naturals. The source's `as u32` casts would wrap past 2^32.
- The regular expressions for e-mail addresses and phone numbers are not modelled. They are parameters, constrained to ordered, non-overlapping matches inside the line.
- `ApiDetection.ParseApiResponse` takes a fuel bound because the source's recursion can fail to terminate.
- `ApiDetection.AsDetector` is therefore defined only for clients whose replies never reach the non-terminating case (`AlwaysReturns`).
- `OllamaApi.Call` models the HTTP exchange as an attempt oracle, with the exchange's timeout inside it. The elapsed-time log is left out.
- `get_url`, `get_model` and the streaming response type of the Ollama client have no behaviour to state.
- `Metrics.ScanMetrics`: the start instant, `elapsed` and the `Display` output are a clock and printing, and are not modelled.
- Progress display (the indicatif template and rendering) is not modelled. The bar is only a count of `update` calls.
- The progress bar that `process_file` creates and advances is not modelled, because nothing observes it.
- The output formatters, configuration loading, the command-line interface and `main` are not part of this model. That includes the detector registration order in `main`. `HybridDetection.FirstRegisteredWins` states what that order decides.
- The error type's `Display` is modelled only as far as the hybrid detector's failure messages use it. The messages of library errors (I/O, HTTP, JSON) are abstract strings.
