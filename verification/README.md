# Rise content extractor, modelled in Dafny

This project models `RiseContentExtractor`, the part of a browser-based PDF
generator that reads an unzipped Articulate Rise course. The extractor works in
stages:

- It sorts the files of the chosen folder into HTML, JSON and media buckets and
  finds the root `index.html`.
- It keeps the HTML pages whose text carries a Rise marker.
- From each kept page it pulls a title, a description, content blocks,
  interactions, assessments, media references, metadata and a whitespace-normal
  text body.
- It sorts the lessons by the first number in their paths.
- It lays the lessons out as a printable job aid: a cover, a table of contents
  and one section per lesson.

The source does this with JavaScript regular expressions, so the model has a
small backtracking matcher (`Regex`) for exactly the pattern shapes the
extractor uses:

- case-insensitive literal text;
- one character of a class;
- a greedy or lazy run of one class, optionally captured;
- a back-reference.

The `g`-flag `exec` loop is `Scanner.FindAll`. The "one pattern per kind, kinds
in a fixed order" tables become `Scanner.ScanTable`. Everything else is pure
functions over `string`, plus the loops of `analyzeCourseStructure` as methods
(`Classify.ClassifyFiles`, `Course.AnalyzePages`, `Course.AnalyzeCourseStructure`).

Modules:

- `Options`: the `Option` type.
- `Text`: ASCII case mapping, JavaScript whitespace, `trim`, whitespace
  collapsing, tag stripping and `cleanText`.
- `Scanner`: matches, the exec loop, pattern tables and replace-with-nothing.
- `Regex`: the matcher, leftmost search and the pattern building blocks.
- `Classify`: the bucket loop and `isMediaFile`.
- `Markers`: the Rise gate `isRiseContent`.
- `Fields`: `extractTitle`, `extractDescription` and `extractMetadata`.
- `Blocks`: the four table-driven extractors.
- `Sanitize`: `cleanContentForPDF`.
- `Naming`: `compareFileNames`.
- `Sorting`: collecting per-file results, and a stable insertion sort.
- `Course`: `analyzeLessonContent` and `analyzeCourseStructure`.
- `Structure`: `generatePDFStructure`.

## Model

| member | source | states |
|---|---|---|
| Text.Trim | rise-content-extractor.js:377 | `trim` cuts only whitespace, from both ends, and what is left neither starts nor ends with whitespace |
| Text.CollapseShape | rise-content-extractor.js:377 | replacing every whitespace run by one space leaves no two whitespace characters in a row and no whitespace other than a plain space; the result is empty exactly when the input is, and starts or ends with whitespace exactly when the input does |
| Text.CollapseSpaceRun | rise-content-extractor.js:377 | a maximal whitespace run, followed by the end or by a non-space character, becomes exactly one plain space in front of the collapsed rest |
| Text.CollapseAppend | rise-content-extractor.js:377 | text split after a non-space character collapses piece by piece: nothing is inserted or dropped at the seam, so with the previous row every run is replaced in place and every non-space character stays where it was |
| Text.CollapseKeepsNonSpace | rise-content-extractor.js:377 | collapsing whitespace keeps every other character, in order |
| Text.StripTags | rise-content-extractor.js:377 | removing every `<…>` span leaves no `<` before a later `>`, adds no character and never lengthens the text |
| Text.StripTagsDropsFirstTag | rise-content-extractor.js:377 | for `a + "<" + t + ">" + b` with no `<` in `a` and no `>` in `t`, the text `a` is kept as it is, the tag is dropped, and stripping goes on in `b` |
| Text.StripTagsOfTagFree | rise-content-extractor.js:377 | text with no `<` before a later `>` (in particular text without `<`) is returned unchanged |
| Text.CleanText | rise-content-extractor.js:376-378 | the cleaned text has no tag left, only single plain spaces, and no whitespace at either end |
| Text.CleanTextOfClean | rise-content-extractor.js:376-378 | text already in that clean form is returned unchanged |
| Text.CleanTextIdempotent | rise-content-extractor.js:376-378 | cleaning twice gives the same text as cleaning once |
| Text.NormalizeSpace | rise-content-extractor.js:335 | the final whitespace pass leaves single plain spaces only, none at either end |
| Text.NormalizeSpaceOfNormalized | rise-content-extractor.js:335 | text already in that form is returned unchanged |
| Scanner.FindAll | rise-content-extractor.js:207-214 | the matches of a global exec loop lie inside the text, in increasing order, without overlapping |
| Scanner.FindAllIsScan | rise-content-extractor.js:207-214 | each match is what the pattern finds from where the previous match ended, starting at 0, and the loop stops at the first failure |
| Scanner.ScanIsUnique | rise-content-extractor.js:207-214 | exactly one sequence of matches has that exec-loop shape, so `FindAll` is the exec loop's result |
| Scanner.ScanTable | rise-content-extractor.js:206-215 | every record carries the kind of the pattern that found it, all records of an earlier pattern come before those of a later one, and one pattern's records are in text order |
| Scanner.ScanTableSlots | rise-content-extractor.js:206-215 | the records of pattern i are exactly the matches that pattern's own exec loop finds |
| Scanner.ScanTableCount | rise-content-extractor.js:206-215 | the number of records is the sum of the patterns' match counts |
| Scanner.EmitOfKind | rise-content-extractor.js:206-215 | the records of one kind in an extractor's output are exactly the records that kind's pattern produces alone, in order |
| Scanner.EmitFollowsTable | rise-content-extractor.js:206-215 | record kinds appear in table order |
| Scanner.RemoveAll | rise-content-extractor.js:311 | a global replace by the empty string never lengthens the text and leaves text without a match unchanged |
| Regex.Search | rise-content-extractor.js:152 | `match`/`exec` returns the leftmost match: it starts at or after the search position, and the pattern matches at no earlier position; no match means it matches nowhere |
| Regex.SearchAdvances | rise-content-extractor.js:207-214 | a pattern opening with literal text never matches the empty string, so the exec loop always moves forward |
| Regex.MatchAtFramed | rise-content-extractor.js:200 | a match of a pattern that opens and closes with literal text begins with the opening text and ends with the closing text, in any letter case |
| Regex.FindAllFound | rise-content-extractor.js:207-214 | every match the exec loop reports is the pattern's match at that position |
| Regex.FirstCapture | rise-content-extractor.js:152-156 | `content.match(re)` and its first group: absent exactly when the pattern matches nowhere; otherwise the group of the leftmost match, and a piece of the text |
| Regex.NoMatchWithoutAngle | rise-content-extractor.js:311-331 | a pattern that opens with `<` finds nothing in text without `<` |
| Fields.StripExtension | rise-content-extractor.js:166 | removes a final `.ext` whose extension is non-empty and has no `/` or `.`; a name without one is kept whole |
| Fields.DashesToSpaces | rise-content-extractor.js:166 | every `-` and `_` becomes a space and nothing else changes |
| Fields.CapitalizeWords | rise-content-extractor.js:166 | the first character of every word is upper-cased and nothing else changes |
| Fields.FileNameTitleShape | rise-content-extractor.js:166 | the fallback title has the base name's length and no `-` or `_`; no word starts with a lower-case letter; it equals the base name with `-`/`_` turned into spaces, ignoring case |
| Fields.CapitalizeIdempotent | rise-content-extractor.js:166 | capitalising words twice is the same as once |
| Fields.IntroToSafetyTitle | rise-content-extractor.js:166 | `intro-to-safety.html` falls back to the title `Intro To Safety` |
| Fields.ExtractTitle | rise-content-extractor.js:149-167 | the title is the cleaned capture of the first candidate pattern whose capture is non-blank and does not mention `rise`; the file-name title is used when no candidate qualifies |
| Fields.FirstAcceptableUnique | rise-content-extractor.js:159-163 | at most one candidate is the first acceptable one |
| Fields.ExtractDescription | rise-content-extractor.js:174-188 | the description is clean; it is the cleaned capture of the first candidate that is non-blank, or empty when none is |
| Fields.AssignAllLastWins | rise-content-extractor.js:351-359 | after a run of assignments, a key is present exactly when it was there before or was assigned; it holds the last value assigned to it, or its old value when none was |
| Fields.ExtractMetadata | rise-content-extractor.js:345-362 | the key `__proto__` is never stored |
| Fields.MetadataLastWriteWins | rise-content-extractor.js:345-362 | a key is present when some meta tag or `data-*` attribute names it; the last `data-*` value wins, and otherwise the last meta value does |
| Fields.DataKeysArePrefixed | rise-content-extractor.js:356-359 | every key stored by the attribute pass starts with `data-` |
| Classify.IsMediaFile | rise-content-extractor.js:380-383 | true exactly when the name ends with one of the nine media extensions |
| Classify.KindOf | rise-content-extractor.js:39-49 | a file is HTML exactly when its lower-cased name ends in `.html` or `.htm`; JSON when it ends in `.json` and is not HTML; media when it has a media extension and is neither |
| Classify.KindIgnoresCase | rise-content-extractor.js:39 | names equal up to letter case land in the same bucket |
| Classify.ClassifyFiles | rise-content-extractor.js:38-55 | the loop counts every file; each bucket holds the files of its kind in input order with their paths; the main index is the last root-level `index.html` |
| Classify.BucketsPartition | rise-content-extractor.js:43-49 | the three buckets and the unclassified files together count every file exactly once |
| Classify.InOwnBucket | rise-content-extractor.js:43-49 | every file is in the bucket of its kind |
| Classify.BucketMembers | rise-content-extractor.js:40-49 | every bucket entry is an input file of that kind, paired with its relative path or, failing that, its name |
| Classify.MainIndexIsHtml | rise-content-extractor.js:52 | a root-level `index.html` is an HTML file |
| Classify.MainIndexIsLast | rise-content-extractor.js:51-54 | there is a main index exactly when some file qualifies, and it is the last such file |
| Classify.MainIndexInHtmlBucket | rise-content-extractor.js:43-54 | the main index is always one of the HTML bucket's entries |
| Markers.AnyMarker | rise-content-extractor.js:140 | true exactly when some marker occurs in the text |
| Markers.IsRiseContent | rise-content-extractor.js:138-141 | a page is Rise content exactly when its lower-cased text contains one of the nine markers |
| Markers.GateIgnoresCase | rise-content-extractor.js:139 | pages equal up to letter case get the same verdict |
| Markers.GateFindsAnyCase | rise-content-extractor.js:138-141 | a page passes exactly when some marker is written in it, in any letter case |
| Blocks.ExtractContentBlocks | rise-content-extractor.js:195-218 | one block per match of the four patterns; every block's text is clean; text blocks come first, then image, video and audio |
| Blocks.BlocksOfKind | rise-content-extractor.js:199-215 | the blocks of one kind are exactly that kind's pattern's matches, in text order |
| Blocks.BlocksAreDivs | rise-content-extractor.js:199-212 | every block's raw HTML opens with `<div` and closes with `</div>` |
| Blocks.ExtractInteractions | rise-content-extractor.js:225-246 | one interaction per match, with clean text; buttons come first, then accordions, tabs and popups |
| Blocks.InteractionsOfKind | rise-content-extractor.js:228-242 | the interactions of one kind are exactly that kind's pattern's matches, in text order |
| Blocks.ExtractAssessments | rise-content-extractor.js:253-273 | one assessment per match, with clean text; quizzes come first, then questions and knowledge checks |
| Blocks.AssessmentsOfKind | rise-content-extractor.js:256-269 | the assessments of one kind are exactly that kind's pattern's matches, in text order |
| Blocks.ExtractMediaReferences | rise-content-extractor.js:280-301 | one reference per match; images come first, then videos and audio |
| Blocks.MediaOfKind | rise-content-extractor.js:283-297 | the references of one kind are exactly that kind's pattern's matches, in text order |
| Blocks.MediaAreTags | rise-content-extractor.js:283-295 | every reference's element opens with `<img`, `<video` or `<audio`, matching its kind, and closes with `>` |
| Sanitize.RemovePatterns | rise-content-extractor.js:311-331 | a series of remove-every-match passes never lengthens the text |
| Sanitize.BodyOrWhole | rise-content-extractor.js:319-323 | the inside of the leftmost `<body …>…</body>` when there is one, otherwise the whole text; either way a piece of the text |
| Sanitize.BodyOfPlainText | rise-content-extractor.js:319-323 | text without `<` is kept whole |
| Sanitize.CleanContentForPDF | rise-content-extractor.js:308-338 | the cleaned body has single plain spaces only, none at either end |
| Sanitize.RemovePatternsPlain | rise-content-extractor.js:311-331 | removal passes whose patterns open with `<` leave text without `<` unchanged |
| Sanitize.PlainTextIsOnlyNormalized | rise-content-extractor.js:308-338 | text without markup only has its whitespace normalized |
| Sanitize.CleanContentOfPlainNormalized | rise-content-extractor.js:308-338 | text without markup whose whitespace is already normal is returned unchanged |
| Naming.FirstDigit | rise-content-extractor.js:387 | the position of the first digit, with no digit before it, or none when there is no digit |
| Naming.FirstNumeral | rise-content-extractor.js:387-388 | the first digit run is present exactly when the path has a digit; it is the slice that starts at the first digit and runs up to the end or the next non-digit, so it is the longest such run |
| Naming.NumberAt | rise-content-extractor.js:387-391 | a path whose first digit is at `k`, with a run of `m` digits there, carries the number those `m` digits spell |
| Naming.DecimalValue | rise-content-extractor.js:391 | a string of `n` digits reads as a number below 10^n |
| Naming.DecimalValueAppend | rise-content-extractor.js:391 | reading digits in two parts: the left part's value is shifted by the length of the right part and the right part's value added |
| Naming.LeadingZeroIgnored | rise-content-extractor.js:391 | a leading zero does not change the number, so `lesson-02` and `lesson-2` compare equal |
| Naming.LexCompare | rise-content-extractor.js:394 | the text comparison returns -1, 0 or 1, and 0 exactly for equal texts |
| Naming.LexCompareMeansLess | rise-content-extractor.js:394 | the text comparison is negative exactly when the first text is a proper prefix of the second or is smaller at the first difference |
| Naming.CompareFileNames | rise-content-extractor.js:385-395 | with numbers in both paths the result is the difference of the first numbers; otherwise it is -1, 0 or 1, and 0 exactly for equal paths |
| Naming.CompareAntisymmetric | rise-content-extractor.js:385-395 | swapping the paths negates the result |
| Naming.LexCommonPrefix | rise-content-extractor.js:394 | a shared prefix does not change the text comparison |
| Naming.OrdersTextWithoutDigits | rise-content-extractor.js:394 | when a path has no number, the comparison is negative exactly when the paths are in text order |
| Naming.NumbersCompareAsNumbers | rise-content-extractor.js:385-395 | `lesson-2.html` sorts before `lesson-10.html`, the reverse of their text order |
| Naming.CompareNotTransitive | rise-content-extractor.js:385-395 | `b1` < `a2` < `ab` < `b1`: when some paths lack numbers, the comparison is not a consistent order |
| Sorting.CollectMembers | rise-content-extractor.js:58-69 | an element is collected exactly when some input contributes it |
| Sorting.SortBy | rise-content-extractor.js:72 | the sorted lessons are a permutation of the unsorted ones |
| Sorting.InsertSorted | rise-content-extractor.js:72 | under a comparator that is a difference of keys, inserting into a key-sorted list keeps it key-sorted |
| Sorting.SortOrdersByKey | rise-content-extractor.js:72 | under a comparator that is a difference of keys, the sort orders by key |
| Course.AnalyzeLessonContent | rise-content-extractor.js:83-131 | the lesson keeps the entry's file, path and name; it is Rise content exactly when a marker occurs; a non-Rise page keeps every extracted field empty; a Rise page's title, description, blocks, interactions, assessments, media, body text and metadata are what the eight extractors return for its text; description and block, interaction and assessment texts are clean; the body text is whitespace-normal; blocks follow the table order; no `__proto__` metadata key |
| Course.AnalyzedMembers | rise-content-extractor.js:58-69 | the lessons before sorting are exactly the analyses of the readable HTML pages that pass the gate, and there are no more of them than HTML files |
| Course.AnalyzePages | rise-content-extractor.js:58-69 | the analysis loop yields, in bucket order, the lesson of every readable HTML page that passes the gate and nothing else, matching the reference definition `Analyzed` |
| Course.AnalyzedRise | rise-content-extractor.js:64-66 | every lesson the loop keeps passed the Rise gate |
| Course.AnalyzeCourseStructure | rise-content-extractor.js:27-75 | counts and buckets as the classification loop defines them; the lessons are a permutation of the analysed readable Rise pages; every lesson is Rise content; when every path has a number, the lessons are in nondecreasing number order |
| Structure.OrDefault | rise-content-extractor.js:405-406 | a present, non-empty option is used; a missing or empty one gives the default |
| Structure.BlockTypes | rise-content-extractor.js:417 | one `type` string per block, in block order |
| Structure.GeneratePDFStructure | rise-content-extractor.js:403-440 | the title and author are the options when present and non-empty, otherwise `Rise Course Job Aid` and `Course Author`; the date is the one supplied; there is one entry and one section per lesson; entry i is on page i + 2 with the lesson's title and its blocks' type names in block order; section i has the lesson's title, description, body text, interactions, assessments and media and the fixed reflection prompt |
| Structure.TocMatchesSections | rise-content-extractor.js:412-436 | each entry names the section beside it, and pages run consecutively from page 2 |
| Structure.TocListsBlockKinds | rise-content-extractor.js:417 | an analysed lesson's entry lists text blocks first, then image, video and audio blocks |

## Left out

- Reading files (`readFileAsText`) and `async`/`await` are not modelled. A file's text is an input field, and `None` stands for a read that fails. The `try`/`catch` around analysis then skips that file. The `console.warn` it prints is not modelled.
- The `courseStructure: {}` field of the analysis is always empty in the source and is not modelled.
- `generated` is a parameter. The source formats the current date with `toLocaleDateString`.
- Structure.GeneratePDFStructure: the `blocks.length > 0 ? … : []` choice is modelled as mapping the blocks, which gives `[]` for no blocks either way.
- Naming.LexCompare: `localeCompare` is modelled as character-code order returning -1, 0 or 1. Locale collation rules are not modelled.
- Naming.DecimalValue: `parseInt` of a digit run is an unbounded natural number. The source's doubles lose precision beyond 2^53.
- Sorting.SortBy: `Array.prototype.sort` is modelled as a stable insertion sort. The contract promises a permutation always, and number order only when every path has a number. With some paths lacking numbers, the comparator is not a consistent order (`Naming.CompareNotTransitive`), so the engine's result is implementation-defined.
- Case mapping is ASCII only. `toLowerCase`/`toUpperCase` of other letters is not modelled. For the `i` flag this is exact, because every pattern literal is ASCII.
- Strings are sequences of Unicode characters, not UTF-16 code units. Text outside the Basic Multilingual Plane counts as one character here.
- Scanner.FindAll: the exec loop stops at a match that does not advance. JavaScript would loop forever there, but no pattern of the extractor can match the empty string (`Regex.SearchAdvances`).
- Fields.ExtractMetadata: assigning to `__proto__` on a plain object stores nothing in JavaScript, so the model skips that key.
- The regular-expression engine covers only the constructs the extractor's patterns use. It is not a general JavaScript regex engine.
- The CommonJS export shim at the end of the file is not modelled.
