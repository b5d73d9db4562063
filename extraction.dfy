/**
 * From a fetch to a metric: each fetch either yields a parsed body or fails
 * and is replaced by `{data: null}`; `extractData` turns a settled outcome
 * into a value or the caller's fallback; optional-chained field access then
 * derives a count (`data.meta.total || 0`) or a section list
 * (`data.course.lecture_sections || []`).
 */
module Extraction {
  import opened JsValues
  import Webinars

  /** What one request produces before settling: a parsed body, or any error on the way. */
  datatype FetchResult = Responded(body: Json) | FetchFailed

  /** One entry of `Promise.allSettled`'s result. */
  datatype Settled = Fulfilled(value: Json) | Rejected

  /** The body substituted for a request that failed: `{data: null}`. */
  const FailedBody: Json := JObj(map["data" := JNull])

  /** `fetch(url).then((res) => res.json()).catch(() => ({data: null}))`, once settled. */
  function Settle(f: FetchResult): (r: Settled)
    ensures r.Fulfilled?
    ensures f.FetchFailed? ==> r.value == FailedBody
    ensures f.Responded? ==> r.value == f.body
  {
    match f
    case Responded(body) => Fulfilled(body)
    case FetchFailed => Fulfilled(FailedBody)
  }

  /**
   * `extractData(result, fallback)`: never invents a value; it passes on a
   * fulfilled truthy value and otherwise returns the fallback.
   */
  function ExtractData(result: Settled, fallback: Json): (r: Json)
    ensures r == fallback || (result.Fulfilled? && r == result.value && Truthy(r))
    ensures result.Fulfilled? && Truthy(result.value) ==> r == result.value
    ensures Truthy(fallback) ==> Truthy(r)
  {
    if result.Fulfilled? && Truthy(result.value) then result.value else fallback
  }

  const TotalPath: seq<string> := ["data", "meta", "total"]
  const SectionsPath: seq<string> := ["data", "course", "lecture_sections"]

  /** The fallback for the three count sources: `{data: {meta: {total: 0}}}`. */
  const CountFallback: Json := CountBody(0)

  /** The fallback for the course source: `{data: {course: {lecture_sections: []}}}`. */
  const CourseFallback: Json := CourseBody([])

  /** `x?.data?.meta?.total || 0`: a truthy total, or the number 0. */
  function DeriveCount(x: Json): (r: Json)
    ensures r == JNum(0) || Truthy(r)
    ensures Truthy(r) ==> Path(Some(x), TotalPath) == Some(r)
    ensures TruthyOrUndefined(Path(Some(x), TotalPath)) ==> Some(r) == Path(Some(x), TotalPath)
  {
    OrElse(Path(Some(x), TotalPath), JNum(0))
  }

  /** `x?.data?.course?.lecture_sections || []`: a truthy section value, or the empty list. */
  function DeriveSections(x: Json): (r: Json)
    ensures r == JArr([]) || Path(Some(x), SectionsPath) == Some(r)
    ensures TruthyOrUndefined(Path(Some(x), SectionsPath)) ==> Some(r) == Path(Some(x), SectionsPath)
    ensures Truthy(r)
  {
    OrElse(Path(Some(x), SectionsPath), JArr([]))
  }

  /** Some key along the path is missing, or some value on the way is not an object. */
  predicate BrokenAt(x: Json, keys: seq<string>, k: nat)
    requires k < |keys|
  {
    var prefix := Path(Some(x), keys[..k]);
    prefix.None? || !prefix.value.JObj? || keys[k] !in prefix.value.fields
  }

  /** Whenever `data`, `meta` or `total` is missing (or not an object on the way), the count is 0. */
  lemma CountZeroWhenMissing(x: Json, k: nat)
    requires k < 3 && BrokenAt(x, TotalPath, k)
    ensures DeriveCount(x) == JNum(0)
  {
    if Path(Some(x), TotalPath).Some? {
      DefinedPathThroughObjects(Some(x), TotalPath, k);
    }
  }

  /** A falsy total (`null`, `false`, `0`, `""`) also derives to 0. */
  lemma CountZeroWhenFalsy(x: Json)
    requires Path(Some(x), TotalPath).Some? && !Truthy(Path(Some(x), TotalPath).value)
    ensures DeriveCount(x) == JNum(0)
  {
  }

  /** Whenever `data`, `course` or `lecture_sections` is missing, the section list is `[]`. */
  lemma SectionsEmptyWhenMissing(x: Json, k: nat)
    requires k < 3 && BrokenAt(x, SectionsPath, k)
    ensures DeriveSections(x) == JArr([])
  {
    if Path(Some(x), SectionsPath).Some? {
      DefinedPathThroughObjects(Some(x), SectionsPath, k);
    }
  }

  /** The count fallback itself derives to 0, and the course fallback to no sections. */
  lemma FallbacksDeriveToZero()
    ensures DeriveCount(CountFallback) == JNum(0)
    ensures DeriveSections(CourseFallback) == JArr([])
    ensures Webinars.CalculateWebinarsCount(DeriveSections(CourseFallback)) == Returns(0)
  {
  }

  /**
   * A failed fetch becomes `{data: null}`, which is truthy and so passes
   * through `extractData`; its `data` is `null`, so the count is 0 and the
   * webinar count is 0.
   */
  lemma FailedFetchGivesZero(fallback: Json)
    ensures ExtractData(Settle(FetchFailed), fallback) == FailedBody
    ensures DeriveCount(ExtractData(Settle(FetchFailed), fallback)) == JNum(0)
    ensures Webinars.CalculateWebinarsCount(DeriveSections(ExtractData(Settle(FetchFailed), fallback))) == Returns(0)
  {
    CountZeroWhenMissing(FailedBody, 1);
    SectionsEmptyWhenMissing(FailedBody, 1);
  }

  /** A rejected outcome, or a falsy body, yields the fallback. */
  lemma UnusableOutcomeGivesFallback(result: Settled, fallback: Json)
    requires result.Rejected? || !Truthy(result.value)
    ensures ExtractData(result, fallback) == fallback
  {
  }

  /** The body a count endpoint returns: `{data: {meta: {total: n}}}`. */
  function CountBody(n: int): (r: Json)
    ensures Path(Some(r), TotalPath) == Some(JNum(n))
  {
    JObj(map["data" := JObj(map["meta" := JObj(map["total" := JNum(n)])])])
  }

  /** The body the course endpoint returns: `{data: {course: {lecture_sections: sections}}}`. */
  function CourseBody(sections: seq<Json>): (r: Json)
    ensures Path(Some(r), SectionsPath) == Some(JArr(sections))
  {
    JObj(map["data" := JObj(map["course" := JObj(map["lecture_sections" := JArr(sections)])])])
  }

  /**
   * A fetched body that holds a number at `data.meta.total`, whatever other
   * fields it carries, yields exactly that number (0 included).
   */
  lemma WellFormedCountBody(body: Json, n: int, fallback: Json)
    requires Path(Some(body), TotalPath) == Some(JNum(n))
    ensures DeriveCount(ExtractData(Settle(Responded(body)), fallback)) == JNum(n)
  {
    DefinedPathThroughObjects(Some(body), TotalPath, 0);
    assert TotalPath[..0] == [];
  }

  /**
   * A fetched body that holds an array at `data.course.lecture_sections`,
   * whatever other fields it carries, yields exactly that section list.
   */
  lemma WellFormedCourseBody(body: Json, sections: seq<Json>, fallback: Json)
    requires Path(Some(body), SectionsPath) == Some(JArr(sections))
    ensures DeriveSections(ExtractData(Settle(Responded(body)), fallback)) == JArr(sections)
  {
    DefinedPathThroughObjects(Some(body), SectionsPath, 0);
    assert SectionsPath[..0] == [];
  }
}
