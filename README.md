# Job-search assistant backend: matching, analysis normalisation, PDF clean-up

This project models, in Dafny, the three pieces of the job-search assistant's
backend that hold its logic:

- **Job matching** (`backend/services/jobMatchService.js`). `calculateJobMatches`
  scores every job in the catalog against the user's preferences and the stored
  résumé analysis:
  - +3 when the job title names the preferred role, or otherwise the suggested title;
  - +2 for each analysis skill found in the description and requirements;
  - +2 for a location match;
  - +1 when the posted salary fits the preferred range.

  The reasons are recorded in rule order. The scored jobs are sorted stably by
  descending score, and the first ten are returned.
- **Salary parsing** (`checkSalaryMatch` in the same file). It finds the figures in
  a free-text salary with the pattern `\d+,?\d*`, drops the commas, and compares
  the single figure, or the band the figures span, with the preferred range.
- **Analysis normalisation** (`analyzeResumeWithGemini` and `extractSkillsFallback`
  in `backend/services/geminiService.js`):
  - The AI service's answer is stripped of Markdown fences and trimmed.
  - It is parsed.
  - It is validated field by field: skills, title, seniority and summary.
  - Every failure ends in one of the fixed fallback records.
- **PDF text clean-up** (`extractTextFromPDF` in `backend/utils/pdfParser.js`).
  It has the guards around the PDF library call. Every whitespace run becomes one
  space, and the text is trimmed.

## Layout

The modules follow the program:

- `Wrappers` holds `Option` and `Result`. They stand for `undefined` and for thrown errors.
- `Strings` holds ASCII `trim`, case mapping and `includes`.
- `Sequences` holds `filter` and subsequences.
- `Json` holds the values `JSON.parse` yields and the property accesses on them.
- `PdfParser`, `Gemini`, `SalaryMatch` and `JobMatch` model the services.
- `JobMatchProperties` states what the matcher promises about a scored job and about the returned list.

`calculateJobMatches` works by mutation, and the model keeps that form:

- `JobMatch.ScoreJob` accumulates the score and the reason list rule by rule, with a loop over the skills.
- `JobMatch.SortInPlace` sorts an `array` in place.

Each of these methods is proved against a specification function: `Score`,
`SortByScore` and `TopMatches`. The other services are chains of expressions, and
they are modelled as functions.

`JobMatch.SortInPlace` is an insertion sort. JavaScript's `Array.prototype.sort`
uses another algorithm, but it is stable, and `JobMatch.SortUnique` proves a
stable descending sort has only one possible result. So any stable sort returns
what the model returns.

Two behaviours of the code are easy to miss:

- Validation trims a string `suggestedTitle` or `summary` and keeps it, so a
  whitespace-only string becomes `""` rather than the default
  (`Gemini.BlankTitleBecomesEmpty`).
- Validation slices `skills` to five entries first and filters after, so fewer
  than five can remain while usable entries follow (`Gemini.SliceBeforeFilter`).

## Model

| member | source | states |
|---|---|---|
| `Strings.Lower` | backend/services/jobMatchService.js:12-14 | `toLowerCase` keeps the length, leaves no upper-case letter, and changes each character only within its case pair |
| `Strings.Upper` | backend/services/geminiService.js:133-135 | `toUpperCase` keeps the length, leaves no lower-case letter, and changes each character only within its case pair |
| `Strings.Contains` | backend/services/jobMatchService.js:16-19 | `includes` holds exactly when the pattern occurs at some position of the text |
| `Strings.Trim` | backend/utils/pdfParser.js:19 | `trim()` leaves no whitespace at either end, and the result is empty exactly when the input is blank |
| `Strings.TrimOfTrimmed` | backend/services/geminiService.js:64 | trimming is idempotent: a trimmed string is unchanged |
| `Strings.NotContainsOfTrim` | backend/services/geminiService.js:61-64 | trimming cannot create an occurrence of a substring |
| `Sequences.Filter` | backend/services/geminiService.js:134-136 | `filter` keeps exactly the elements satisfying the predicate, in their original order |
| `Sequences.FilterMultiplicity` | backend/services/geminiService.js:85 | `filter` keeps each passing element as many times as it occurs, and no failing one |
| `PdfParser.ExtractTextFromPdf` | backend/utils/pdfParser.js:1-30 | a missing buffer, a library error or a blank text all fail with a message starting with "Failed to parse PDF: "; success happens exactly when the library returns non-blank text; the returned text is non-empty, trimmed, single-spaced, has no newline, has the library text's words and is exactly those words joined by single spaces; the page count is passed through |
| `PdfParser.CollapseSpaces` | backend/utils/pdfParser.js:17 | `.replace(/\s+/g, ' ')` keeps the words of the text, yields an empty string only from an empty one, and its first and its last character are whitespace exactly when the input's are |
| `PdfParser.WordsTrim` | backend/utils/pdfParser.js:19 | trimming keeps the words of a text |
| `PdfParser.SpacedIsUnwords` | backend/utils/pdfParser.js:16-19 | a trimmed, single-spaced text without newlines is its words joined by single spaces |
| `PdfParser.CollapseNewlines` | backend/utils/pdfParser.js:18 | `.replace(/\n+/g, '\n')` never lengthens the text, keeps its first character and every other non-newline character in order, has a newline exactly when the input has one, and leaves no two newlines in a row |
| `PdfParser.CollapseNewlinesLines` | backend/utils/pdfParser.js:18 | the newline replace keeps the lines (the maximal runs without a newline) and whether the text ends with a newline; with `CollapseNewlines`' own contract this fixes the result |
| `PdfParser.CollapseSpacesSpacing` | backend/utils/pdfParser.js:17 | after the first replace, the only whitespace is single spaces, and no newline is left |
| `PdfParser.NewlineReplaceIsNoOp` | backend/utils/pdfParser.js:18 | the second replace, `.replace(/\n+/g, '\n')`, returns a newline-free text unchanged, so it never changes anything |
| `PdfParser.CollapseSpacesKeepsVisible` | backend/utils/pdfParser.js:17 | collapsing whitespace keeps every non-whitespace character, in order |
| `PdfParser.TrimKeepsVisible` | backend/utils/pdfParser.js:19 | trimming removes only whitespace |
| `PdfParser.TrimKeepsSpacing` | backend/utils/pdfParser.js:19 | trimming keeps a text single-spaced and newline-free |
| `PdfParser.CleanTextProperties` | backend/utils/pdfParser.js:16-19 | the cleaned text is trimmed, single-spaced, newline-free, has the input's visible characters in order and the input's words, is exactly those words joined by single spaces, and is empty exactly when the input is blank |
| `Gemini.ExtractSkillsFallback` | backend/services/geminiService.js:126-139 | at most five skills; each is a vocabulary entry the text mentions, ignoring case; they come in vocabulary order; they are the first mentioned entries: no mentioned entry is skipped in favour of a later one; with fewer than five, every mentioned entry is included |
| `Gemini.FallbackSkillsNonEmpty` | backend/services/geminiService.js:127-131 | no fallback skill is empty |
| `Gemini.RemoveAll` | backend/services/geminiService.js:62-63 | a global `replace` with `''` never lengthens the text and only keeps characters of it |
| `Gemini.RemoveAllKeepsOthers` | backend/services/geminiService.js:62-63 | every character that does not occur in the pattern is kept, in order |
| `Gemini.RemoveAllAbsent` | backend/services/geminiService.js:62-63 | a text without an occurrence of the pattern is returned unchanged |
| `Gemini.RemoveAllFirst` | backend/services/geminiService.js:62-63 | the first occurrence of the pattern is dropped, the text before it is kept as it is, and the replace goes on after it; with `RemoveAllAbsent` this fixes the result for every text |
| `Gemini.CleanResponse` | backend/services/geminiService.js:61-64 | after the fence removal and trim, no "```" is left and there is no whitespace at either end |
| `Gemini.CleanResponseOfUnfenced` | backend/services/geminiService.js:61-64 | a response with no "```" in it is only trimmed |
| `Gemini.CleanResponseOfFenced` | backend/services/geminiService.js:61-64 | a response wrapped as "```json" … "```", with no other backtick, is cleaned to its trimmed body |
| `Gemini.NoFenceLeft` | backend/services/geminiService.js:63 | removing every "```" cannot create a new one out of the remaining backticks |
| `Gemini.CleanResponseIdempotent` | backend/services/geminiService.js:61-64 | cleaning a cleaned response changes nothing |
| `Gemini.ResponseText` | backend/services/geminiService.js:54-58 | the answer is the value at `candidates[0].content.parts[0].text` when that value is a non-empty string, and there is none exactly when it is missing, not a string, or empty |
| `Gemini.ResponseTextOfReply` | backend/services/geminiService.js:54-58 | a body `{candidates: [{content: {parts: [{text: s}]}}]}` with a non-empty `s` yields the text `s` |
| `Gemini.ValidSkills` | backend/services/geminiService.js:84-85 | at most five skills, all non-empty strings, forming an order-preserving subsequence of the first five entries; each non-empty string among those five is kept as many times as it occurs there, and nothing else is kept |
| `Gemini.ValidSkillsOfStrings` | backend/services/geminiService.js:85 | when every entry is a non-empty string, exactly the first five are kept, in order |
| `Gemini.SliceBeforeFilter` | backend/services/geminiService.js:85 | after an empty first entry, at most four skills remain, however many usable entries follow |
| `Gemini.ValidateSkills` | backend/services/geminiService.js:84-86 | skills are at most five and non-empty; an array gives exactly `ValidSkills` of its entries; a value that is not an array is replaced by the keyword fallback |
| `Gemini.ValidSeniority` | backend/services/geminiService.js:90-92 | one of the five level names passes through unchanged; anything else becomes "mid" |
| `Gemini.ValidText` | backend/services/geminiService.js:87-89 | a string is returned trimmed; anything else is replaced by the default, which is returned as it is |
| `Gemini.DefaultsTrimmed` | backend/services/geminiService.js:76-95 | "Professional", the parse-failure summary and the summary substituted by validation have no surrounding whitespace, so validation returns them unchanged |
| `Gemini.BlankTitleBecomesEmpty` | backend/services/geminiService.js:87-89 | a whitespace-only title string is trimmed to "", not replaced by "Professional" |
| `Gemini.Validate` | backend/services/geminiService.js:83-98 | validation fails (throws) exactly when the parsed value is `null`; otherwise its result has at most five non-empty skills and a trimmed title and summary |
| `Gemini.ValidateFields` | backend/services/geminiService.js:83-96 | field by field: array skills become `ValidSkills` of the array, a subsequence of it, other values the fallback; title and summary go through `ValidText` with their own defaults; seniority goes through `ValidSeniority` |
| `Gemini.ParseFailureObjectIsValid` | backend/services/geminiService.js:74-96 | the record built when parsing fails passes validation unchanged: fallback skills, "Professional", mid and its own summary |
| `Gemini.AnalyzeResume` | backend/services/geminiService.js:5-111 | the analysis always has at most five non-empty skills; a missing key, a blank résumé or an unusable response gives the service-failure record |
| `Gemini.AnalyzeUnusable` | backend/services/geminiService.js:100-110 | a missing key, a blank résumé or a response without a text gives fallback skills, "Professional", mid and the long summary |
| `Gemini.AnalyzeParseFailure` | backend/services/geminiService.js:67-80 | a text that does not parse gives the parse-failure record with its own summary |
| `Gemini.AnalyzeParsedNull` | backend/services/geminiService.js:84 | a text that parses to `null` gives the service-failure record, because reading `.skills` from `null` throws |
| `Gemini.AnalyzeParsedValue` | backend/services/geminiService.js:66-98 | a text that parses to any other value gives what validation makes of that value |
| `Gemini.FallbackSummariesDistinct` | backend/services/geminiService.js:78-108 | the three fallback summaries are pairwise different |
| `SalaryMatch.SalaryTokens` | backend/services/jobMatchService.js:86 | every match of `\d+,?\d*` starts with a digit and holds only digits and at most one comma |
| `SalaryMatch.TokensSkip` | backend/services/jobMatchService.js:86 | text without a digit yields no match and does not change the matches after it |
| `SalaryMatch.TokensOfDigitRun` | backend/services/jobMatchService.js:86 | a digit run followed by neither a digit nor a comma is matched whole, as one figure, and the scan goes on after it; with `TokensSkip` and `TokensOfCommaNumber` this characterises the scan |
| `SalaryMatch.TokensOfCommaNumber` | backend/services/jobMatchService.js:86 | a digit run, a comma and a digit run not followed by a digit are matched as one figure, and the scan goes on after it |
| `SalaryMatch.NoDigitNoTokens` | backend/services/jobMatchService.js:86-87 | the pattern finds nothing exactly when the text has no digit |
| `SalaryMatch.TokensCoverDigits` | backend/services/jobMatchService.js:86-90 | with the commas dropped, the matches hold every digit of the text, in order: none is lost or made up |
| `SalaryMatch.RemoveCommas` | backend/services/jobMatchService.js:90 | `replace(/,/g, '')` leaves no comma, keeps only characters of the text, and returns a comma-free text unchanged |
| `SalaryMatch.RemoveCommasCounts` | backend/services/jobMatchService.js:90 | dropping the commas keeps every other character as many times as it occurs |
| `SalaryMatch.DigitsValue` | backend/services/jobMatchService.js:90 | `parseInt` of a digit run of length n is below 10^n, and at least 10^(n-1) when it has no leading zero |
| `SalaryMatch.DigitsValueOfDigit` | backend/services/jobMatchService.js:90 | one digit is worth its own value |
| `SalaryMatch.DigitsValueConcat` | backend/services/jobMatchService.js:90 | place value: the value of `a + b` is the value of `a` times 10 to the length of `b`, plus the value of `b`, which with `DigitsValueOfDigit` fixes the value of every digit run |
| `SalaryMatch.SeqMin` | backend/services/jobMatchService.js:97 | `Math.min` returns a member no larger than any other |
| `SalaryMatch.SeqMax` | backend/services/jobMatchService.js:98 | `Math.max` returns a member no smaller than any other |
| `SalaryMatch.CheckSalaryMatch` | backend/services/jobMatchService.js:82-105 | a salary with no digit never matches; a single figure matches exactly when it lies in the range |
| `SalaryMatch.SalaryMatchIsOverlap` | backend/services/jobMatchService.js:92-101 | for a valid range, a salary matches exactly when some amount lies both in the range and between its smallest and largest figure |
| `SalaryMatch.ExampleBand` | backend/services/jobMatchService.js:85-90 | "$70,000 - $90,000" is read as the figures 70000 and 90000 |
| `JobMatch.MatchTitle` | backend/services/jobMatchService.js:11-22 | the title rule's score and reason texts are those of `TitleReasons` |
| `JobMatch.MatchSkills` | backend/services/jobMatchService.js:25-36 | the skills loop adds the weights and texts of `SkillReasons`, in skill order, to what was accumulated |
| `JobMatch.MatchLocation` | backend/services/jobMatchService.js:39-48 | the location rule adds the weight and the text of `LocationReasons` to what was accumulated |
| `JobMatch.MatchSalary` | backend/services/jobMatchService.js:51-61 | the salary rule adds the weight and the text of `SalaryReasons` to what was accumulated |
| `JobMatch.ScoreJob` | backend/services/jobMatchService.js:7-67 | the step-by-step score and reason list equal `Score`: the job, the sum of the weights of the reasons, and their texts in rule order |
| `JobMatch.ScoreJobs` | backend/services/jobMatchService.js:7-67 | `jobs.map` gives a fresh array holding the score of every job, in catalog order |
| `JobMatch.InsertSorted` | backend/services/jobMatchService.js:72 | inserting into a list sorted by descending score keeps it sorted |
| `JobMatch.SortByScore` | backend/services/jobMatchService.js:72 | the sort orders by non-increasing `matchScore` and is a permutation of its input |
| `JobMatch.SortStable` | backend/services/jobMatchService.js:72 | jobs with equal scores keep their relative order |
| `JobMatch.SortUnique` | backend/services/jobMatchService.js:72 | two sequences sorted by descending score with the same equal-score groups, in the same order, are equal |
| `JobMatch.StableSortIsSortByScore` | backend/services/jobMatchService.js:72 | any stable descending sort of the scored jobs gives the model's result |
| `JobMatch.InsertAt` | backend/services/jobMatchService.js:72 | one insertion step places the next job after the jobs scoring at least as much and leaves the unsorted part alone |
| `JobMatch.SortInPlace` | backend/services/jobMatchService.js:72 | the in-place sort leaves the array holding the stable descending sort of its old contents |
| `JobMatch.CalculateJobMatches` | backend/services/jobMatchService.js:1-79 | a value that is not an array gives the empty list; otherwise the result is the first ten of the stably sorted scored jobs |
| `JobMatchProperties.TextInjective` | backend/services/jobMatchService.js:17-57 | two reasons have the same text only if they are the same reason |
| `JobMatchProperties.ScoreIsSumOfReasons` | backend/services/jobMatchService.js:8-67 | the score is the sum of the points the reason texts stand for (3 for a title, 2 for a skill or the location, 1 for the salary), and the job record passes through unchanged |
| `JobMatchProperties.ReasonsInOrder` | backend/services/jobMatchService.js:8-61 | reasons are listed title first, then skills, location and salary |
| `JobMatchProperties.TitleRules` | backend/services/jobMatchService.js:11-22 | there is at most one title reason; when the title names the preferred role only "Title matches preferred role" appears, and first; an empty role or suggested title never matches; when the role does not match and the title names the non-empty suggested title, "Title matches AI-suggested role" appears first; a suggested-title reason means the preferred role did not match |
| `JobMatchProperties.SkillReasonsOfMatching` | backend/services/jobMatchService.js:25-36 | there is one skill reason per non-empty skill found in the text, ignoring case, in skill order, with duplicates counted and no cap |
| `JobMatchProperties.ScoreBreakdown` | backend/services/jobMatchService.js:8-61 | the score is 3 × (title reasons) + 2 × (matching skills) + 2 × (location reasons) + (salary reasons), and never more than 6 + 2 × (number of skills) |
| `JobMatchProperties.LocationRules` | backend/services/jobMatchService.js:39-48 | no preferred location, no point; with a preferred location, a point exactly when the job location contains it, ignoring case, or either location is remote |
| `JobMatchProperties.SalaryRules` | backend/services/jobMatchService.js:51-61 | no point without a range with both bounds non-zero, or without a digit in the salary; otherwise, for a valid range (minimum at most maximum), a point exactly when the range overlaps the posted figures |
| `JobMatchProperties.TopMatchesProperties` | backend/services/jobMatchService.js:71-73 | the result has min(10, number of jobs) entries, sorted by descending score; each is a scored catalog job; no job left out scores more than one kept; jobs with equal scores appear in catalog order |

## Left out

- The HTTP request to the AI service, with its URL, prompt, timeout and headers (backend/services/geminiService.js:15-52). It is network I/O: the configured key becomes a `bool` parameter and the response body an `Option<JsonValue>`.
- `JSON.parse` (backend/services/geminiService.js:68), a library parser. It is a function parameter that returns `None` when it throws. JSON numbers are integers in the model, so floating-point values are not modelled.
- The `pdf-parse` library call (backend/utils/pdfParser.js:8-9). It is a function parameter returning the text and the page count. The `info` field it passes through is not modelled.
- `extractSkillsFallback1` (backend/services/geminiService.js:112-125). It is dead code and is never called.
- Logging (`console.error`) and the `async`/`await` plumbing. They have no effect on the results.
- Controllers, routes, persistence, authentication, uploads and the reading of the job catalog. They are I/O around the core.
- Character classes and case mapping: `\s`, `trim()`, `toLowerCase` and `toUpperCase` are modelled on ASCII only. Unicode whitespace and non-ASCII case mapping are dropped.
- Field types: job fields, preferences, the analysis skills and the résumé text are typed strings, and a missing field is the empty string. In the source, a non-string field makes `toLowerCase` throw, a non-string `job.salary` makes `.match` throw (backend/services/jobMatchService.js:87), and a `null` entry in `jobs` makes `job.title` throw (backend/services/jobMatchService.js:12). `calculateJobMatches` catches each of these errors and returns `[]`, and none of these paths is modelled.
- `calculateJobMatches` catch-all: the model has no other source of exceptions, so only the not-an-array path returns `[]`.
- `parseInt` is exact on naturals here. The source loses precision on figures beyond 2^53.
- Salary bounds are integers. Truthiness of other JavaScript values (strings, `NaN`) is not modelled.
- Filter: its own contract states membership and order only. How many times each element is kept is `Sequences.FilterMultiplicity`, a lemma, so that every use of `Filter` does not carry a multiset fact into its proofs.
- Sorting: `Array.prototype.sort` is replaced by a stable insertion sort. `JobMatch.StableSortIsSortByScore` shows any stable sort agrees with it.
