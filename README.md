# TechForWord statistics counter — a Dafny model

The page script `public/techforword-stats.js` shows four animated counters:
courses, students, webinars and "insiders". It does this in five steps:

1. It checks that the page has the four counter elements.
2. It requests four endpoints. Every failed request is turned into `{data: null}`.
3. It reads `data.meta.total` from three of the bodies. From the course-detail body it reads `data.course.lecture_sections`.
4. It derives the webinar count from those sections. A section counts when it has lectures and its lower-cased name contains none of ten administrative keywords. The webinar count is the sum of the lecture counts of those sections.
5. It starts one counter animation per metric and tallies how many started.

This project models that pipeline in Dafny and proves what it promises.

Modules:

- `JsValues` (`js_values.dfy`) holds the parts of JavaScript the script relies on:
  - parsed JSON values;
  - `undefined`;
  - truthiness (`null`, `false`, `0` and `""` are falsy);
  - optional-chained access `a?.b?.c`;
  - the `||` default;
  - a `Completion` type for expressions that throw a TypeError.
- `Webinars` (`webinars.dfy`) is the classifier `calculateWebinarsCount`.
  - It is written the way the source computes it: a filter whose callback may throw, followed by a sum.
  - Beside it is an independent reference total: the sum, over all sections, of what each section contributes.
  - The lemmas tie the two together and prove the inclusion rule, the bounds, order independence and the worked examples.
- `Extraction` (`extraction.dfy`) covers three steps:
  - turning each request into a settled outcome (a failed fetch becomes `{data: null}`);
  - `extractData`;
  - deriving a count (`total || 0`) and the section list (`lecture_sections || []`).
- `Animation` (`animation.dfy`) covers three pieces:
  - `validateElements`, as a method with a loop that grows the list of missing ids;
  - the guard of `safeCountUp`;
  - the tally of started counters.
- `Stats` (`stats.dfy`) is `initStats`, written as one function of its inputs. The inputs are:
  - the set of element ids in the document;
  - the four settled outcomes, in request order: courses, enrollments, course detail, users;
  - for each counter, whether the counter library's `start()` succeeds.

  The result is one of three outcomes:
  - a stop because elements are missing;
  - an abort, when a TypeError reaches the outer `catch`;
  - the four metrics, the four started flags and `successCount`.

## Behaviour that is easy to misread

- `successCount` counts the counter animations that started. It does not count the requests that succeeded. If all four requests fail, every metric is 0. Every counter is still handed the number 0, so failed requests do not lower the tally. It is the number of counters the library started, 4 when the library starts them all (`Stats.AllRequestsFailed`).
- A failed request is caught before `Promise.allSettled` sees it. It becomes a fulfilled `{data: null}`, so `extractData` passes it through and does not use its fallback. The metric still ends at 0 because `data` is `null` (`Extraction.FailedFetchGivesZero`).
- `extractData` falls back for any falsy value: `null`, `false`, `0` and `""`. Null alone is not the only case.
- Some inputs make the classifier throw: a `null` section, a name that is neither a string nor `null`, or a truthy `lecture_sections` that is not an array. The TypeError reaches the outer `catch` and no counter is started. The run aborts as a whole; the webinar metric alone does not drop to 0 (`Stats.InitStats`).
- The debug messages are built even when debugging is off, because template-literal arguments are evaluated before `log` is called. Turning a parsed JSON object into a string throws a TypeError when the object has its own `toString` key. That key hides the inherited method behind a value that cannot be called. So the run also aborts when a section's `id` is such an object (the listing at lines 155-168), or when one of the three counts is (the messages at lines 238-240). `JsValues.Printable` states which values convert.

## Model

| member | source | states |
|---|---|---|
| `JsValues.Member` | public/techforword-stats.js:233-236 | `v?.key` is defined only when `v` is an object that has the key, and then it is that key's value |
| `JsValues.OrElse` | public/techforword-stats.js:233-236 | `v || fallback` is `v` when `v` is truthy and the fallback otherwise; a truthy fallback gives a truthy result |
| `JsValues.DefinedPathThroughObjects` | public/techforword-stats.js:233-236 | an optional chain is defined only if every value on the way is an object with the next key |
| `JsValues.UndefinedAbsorbs` | public/techforword-stats.js:233-236 | once a chain reaches `undefined`, every longer chain is `undefined` |
| `Webinars.Lower` | public/techforword-stats.js:134 | lower-casing keeps the length and maps each character on its own |
| `Webinars.ContainsIffOccurs` | public/techforword-stats.js:138-140 | `includes` holds exactly when the needle occurs at some index of the name |
| `Webinars.AnyKeywordInIff` | public/techforword-stats.js:138-140 | the left-to-right `some` scan holds exactly when some keyword of the list occurs in the name |
| `Webinars.SectionName` | public/techforword-stats.js:134 | reading the name throws exactly for a `null` section, or for a name that is neither a string nor `null` |
| `Webinars.KeepSection` | public/techforword-stats.js:133-143 | the filter callback throws exactly when the section's name cannot be read, and keeps a section only if it has lectures |
| `Webinars.LectureCount` | public/techforword-stats.js:135 | a section has lectures only if it is an object whose `lectures` field is present and truthy |
| `Webinars.InclusionRule` | public/techforword-stats.js:119-143 | a section is kept iff it can be read, has at least one lecture, and its lower-cased name contains none of the ten keywords |
| `Webinars.EmptyNameMatchesNoKeyword` | public/techforword-stats.js:134-140 | the empty name matches none of the ten keywords |
| `Webinars.NamelessSectionIncluded` | public/techforword-stats.js:134-135 | a section with no name or a `null` name is kept exactly when it has lectures |
| `Webinars.NoLecturesFieldExcluded` | public/techforword-stats.js:135 | a section without a `lectures` field is never kept |
| `Webinars.CaseInsensitive` | public/techforword-stats.js:134 | renaming a section to a name with the same lower-case form does not change its verdict |
| `Webinars.Contribution` | public/techforword-stats.js:145-146 | a section adds at most its own lecture count, and adds something exactly when it is kept |
| `Webinars.FilterThrowsIff` | public/techforword-stats.js:133-143 | the filter throws exactly when the callback throws on some section, that is, when some section is not well formed |
| `Webinars.FilterKeepsWebinars` | public/techforword-stats.js:133-147 | when the filter returns, a section is kept iff it is in the input and is a webinar section, no more sections come out than went in, and the kept lecture sum is the reference total |
| `Webinars.FilterMatchesReference` | public/techforword-stats.js:133-147 | the filter throws iff some section cannot be read; otherwise it keeps exactly the webinar sections, no more sections than it was given, and their lecture sum equals the reference total |
| `Webinars.CalculateWebinarsCount` | public/techforword-stats.js:117-181 | a value that is not an array throws; over an array the call throws iff some section cannot be read by the filter callback or has an `id` that cannot be listed, and otherwise returns the reference total |
| `Webinars.TotalBoundedByLectures` | public/techforword-stats.js:145-147 | the reference total never exceeds the number of lectures across all sections |
| `Webinars.CountBounds` | public/techforword-stats.js:145-147 | the count of an empty list is 0, and no count exceeds the total number of lectures |
| `Webinars.TotalWithout` | public/techforword-stats.js:145-147 | removing one section from the list lowers the total by exactly that section's contribution |
| `Webinars.TotalPermutationInvariant` | public/techforword-stats.js:133-147 | two lists with the same sections in any order have the same reference total |
| `Webinars.CountPermutationInvariant` | public/techforword-stats.js:133-147 | permuting the section list does not change what `calculateWebinarsCount` returns or whether it throws |
| `Webinars.AbsentCharNotContained` | public/techforword-stats.js:138-140 | a keyword with a character the name lacks does not occur in the name |
| `Webinars.NamedSectionVerdict` | public/techforword-stats.js:133-143 | a section with a string name and n lectures is kept iff n > 0 and its lower-cased name matches no keyword |
| `Webinars.CaseInsensitiveExamples` | public/techforword-stats.js:119-143 | "WELCOME Session" is excluded and "Live Webinar 1" is included |
| `Webinars.FilterSkips` | public/techforword-stats.js:133-143 | a section the callback rejects is dropped and the rest is filtered as before |
| `Webinars.FilterKeeps` | public/techforword-stats.js:133-143 | a section the callback keeps is placed in front of what is kept of the rest |
| `Webinars.CountOfFiltered` | public/techforword-stats.js:133-181 | when every id can be listed, the count is the lecture sum of the sections the filter keeps |
| `Webinars.FilterKeepsMiddle` | public/techforword-stats.js:133-143 | of three readable sections where only the middle one is kept, the filter returns just that one, in place |
| `Webinars.OnlyMiddleKept` | public/techforword-stats.js:117-181 | of three sections with listable ids where only the middle one is kept, the count is the middle one's lecture count |
| `Webinars.UnprintableIdThrows` | public/techforword-stats.js:155-168 | a section whose `id` object has its own `toString` key makes the call throw, whatever its name and lectures |
| `Webinars.IntroModuleArchivedExample` | public/techforword-stats.js:119-147 | Intro (2 lectures), Module 1 (3), Archived Q&A (1) gives 3 |
| `Extraction.Settle` | public/techforword-stats.js:208-217 | a request never settles as rejected; a failed one settles as `{data: null}`, a successful one as its body |
| `Extraction.ExtractData` | public/techforword-stats.js:108-115 | `extractData` returns either the fallback or the fulfilled value, and the latter only when it is truthy; a fulfilled truthy value is always returned; a truthy fallback always gives a truthy result |
| `Extraction.UnusableOutcomeGivesFallback` | public/techforword-stats.js:108-115 | a rejected outcome or a falsy value yields the fallback unchanged |
| `Extraction.DeriveCount` | public/techforword-stats.js:233-236 | a derived count is the truthy value found at `data.meta.total` whenever there is one, and the number 0 otherwise |
| `Extraction.DeriveSections` | public/techforword-stats.js:235 | the derived section value is the truthy value found at `data.course.lecture_sections` whenever there is one, and `[]` otherwise; it is always truthy |
| `Extraction.CountZeroWhenMissing` | public/techforword-stats.js:233-236 | if `data`, `meta` or `total` is missing, or a value on the way is not an object, the count is 0 |
| `Extraction.CountZeroWhenFalsy` | public/techforword-stats.js:233-236 | a falsy total derives to 0 |
| `Extraction.SectionsEmptyWhenMissing` | public/techforword-stats.js:235 | if `data`, `course` or `lecture_sections` is missing, or a value on the way is not an object, the section list is `[]` |
| `Extraction.FallbacksDeriveToZero` | public/techforword-stats.js:220-236 | the count fallback derives to 0, and the course fallback derives to no sections and a webinar count of 0 |
| `Extraction.FailedFetchGivesZero` | public/techforword-stats.js:211-236 | a failed request passes through `extractData` as `{data: null}`, and its count and webinar count derive to 0 |
| `Extraction.CountBody` | public/techforword-stats.js:220-225 | the count endpoint's body shape has its total at `data.meta.total` |
| `Extraction.CourseBody` | public/techforword-stats.js:226-228 | the course endpoint's body shape has its sections at `data.course.lecture_sections` |
| `Extraction.WellFormedCountBody` | public/techforword-stats.js:220-236 | a fetched body holding a number at `data.meta.total`, whatever other fields it has, yields exactly that number |
| `Extraction.WellFormedCourseBody` | public/techforword-stats.js:226-235 | a fetched body holding an array at `data.course.lecture_sections`, whatever other fields it has, yields exactly that section list |
| `Animation.MissingAmongMembers` | public/techforword-stats.js:72-82 | an id is reported missing iff it is checked and absent; the report is empty iff every id is present |
| `Animation.MissingAmongSnoc` | public/techforword-stats.js:73-77 | checking one more id appends it to the report exactly when it is absent |
| `Animation.MissingCountersInOrder` | public/techforword-stats.js:65-77 | the missing counters are listed in the fixed order courses, students, webinars, insiders |
| `Animation.ValidateElements` | public/techforword-stats.js:64-85 | the loop collects exactly the missing ids in order; the result is false iff some counter element is absent |
| `Animation.SafeCountUp` | public/techforword-stats.js:87-106 | a counter starts only with its element present, a numeric value and the library's `start()` succeeding, and then it always starts |
| `Animation.CountTrueBounds` | public/techforword-stats.js:253-254 | the tally is at most the number of flags; it is full iff every flag is set, and 0 iff none is |
| `Stats.StartCounters` | public/techforword-stats.js:246-251 | the four `safeCountUp` calls give four flags, each set iff that counter's element is present, its value is a number and the library starts it |
| `Stats.DeriveMetrics` | public/techforword-stats.js:218-243 | the metrics are the three counts derived from their bodies and the classifier's result on the course-detail sections; deriving them throws iff a count cannot be printed or the classifier throws |
| `Stats.InitStats` | public/techforword-stats.js:184-262 | a run stops iff some counter element is missing, and then it reports exactly the missing ids; with all elements present it aborts iff deriving the metrics throws; otherwise its metrics are the derived ones, its flags are the four `safeCountUp` results and `successCount` is the number of flags set (at most 4, 4 iff all started, 0 iff none did) |
| `Stats.FailedCourseRequestNeverAborts` | public/techforword-stats.js:211-261 | a failed course-detail request gives a webinar metric of 0 and never aborts the run by itself: the run then aborts iff a count cannot be printed |
| `Stats.FailedRequestReadsZero` | public/techforword-stats.js:208-243 | the metric derived from a failed request reads 0, and every other metric is the value derived from its own request |
| `Stats.NothingMissing` | public/techforword-stats.js:199-204 | with all four elements present, validation reports nothing missing |
| `Stats.NumericCountersStart` | public/techforword-stats.js:246-251 | with all elements present and every metric a number, exactly the counters the library starts are started |
| `Stats.RunWithNumericMetrics` | public/techforword-stats.js:199-258 | with all elements present and numeric metrics, the run animates with exactly those metrics and its tally is the number of counters the library started |
| `Stats.AllFailedMetrics` | public/techforword-stats.js:208-243 | with all four requests failed, every metric is 0 |
| `Stats.AllRequestsFailed` | public/techforword-stats.js:208-258 | with all four requests failed, every metric is 0 and `successCount` is the number of counters the library started, not the number of requests that succeeded |
| `Stats.MetricsInRequestOrder` | public/techforword-stats.js:218-243 | the four outcomes are read back in the order courses, enrollments, course detail, users |
| `Stats.FetchedBodiesMetrics` | public/techforword-stats.js:218-243 | bodies holding numeric totals and an array of readable sections give exactly those totals and the reference total of the sections |
| `Stats.WellFormedRequests` | public/techforword-stats.js:217-258 | with well-formed bodies, the run animates with each body's total and the reference webinar total |
| `Stats.EmptySectionList` | public/techforword-stats.js:226-243 | an empty `lecture_sections` gives a webinar metric of 0, without error |

## Left out

- `index.js` is not part of this model. It is an Express route that forwards one request and returns its JSON.
- `fetch`, `res.json()`, `Promise.allSettled` and the concurrency of the four requests are not modelled. Their result is a parameter: each request is given as a parsed body or a failure, or directly as a settled outcome.
- The dynamic import of the counter library and the `window` globals are not modelled. A failed import would end in the outer `catch` before validation.
- `new CountUp(...).start()` is a foreign call. Whether it throws is a parameter for each counter.
- What `log` and `showDebugStatus` write to the console and the debug element is not modelled, and neither is the text of any message. Building a message is modelled only where it can throw: the section ids in the listing at lines 155-168, and the three counts at lines 238-240. The other interpolated values are strings, booleans, numbers, names already read by the filter, or the same counts again, and `JSON.stringify` of a parsed body does not throw. The counter library is assumed to throw an `Error` object: if it threw `null` or `undefined`, reading `error.message` at line 103 would throw inside the `catch` and end the run in the outer `catch` at line 259, which a `libraryStarts` flag cannot express.
- Auto-initialisation on DOM readiness and `window.TechForWordStats` are left out.
- `Webinars.Lower`: does not model Unicode lower-casing, because only ASCII letters are mapped. Names are compared as sequences of characters.
- `Webinars.LectureCount`: treats a `lectures` value other than an array or a string as having no lectures. In JavaScript an object with its own `length` key is read through that key, and what happens depends on its value. A number greater than 0 is kept and added to the total. `true` compares as 1, so the section is kept and adds 1. A string that compares greater than 0 is kept and concatenated into the total, and so is an array whose text is a numeral above 0 (`[2]` is kept and turns a total of 0 into `"02"`). A value whose conversion to a primitive throws makes the comparison with 0 throw: an object with its own `toString` key, or an array holding one (the rule `JsValues.Printable` states). Any other value, such as `{length: {}}`, `null` or `false`, compares false with 0, so the section is dropped as it is here. None of these read-through cases is modelled. A string `lectures` is counted in characters here, while JavaScript's `length` counts UTF-16 code units: a character outside the Basic Multilingual Plane, such as an emoji, counts 2 in JavaScript and 1 here.
- `Animation.SafeCountUp`: does not model the `isNaN` check, because JSON numbers are integers here and are never NaN.
- Numbers are unbounded integers. Fractional totals and floating-point rounding are not modelled.
