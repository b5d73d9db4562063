/**
 * `initStats`: validate the counter elements, settle the four requests,
 * derive the four metrics, classify the course sections, start the four
 * counters and tally how many started. The network, the counter library and
 * the document are parameters: the settled outcomes of the four requests,
 * whether the library's `start()` succeeds for each counter, and the set of
 * element ids the document holds.
 */
module Stats {
  import opened JsValues
  import opened Extraction
  import opened Webinars
  import opened Animation

  /** The four values handed to the counters. Counts read from a body may be any truthy JSON value. */
  datatype Metrics = Metrics(courses: Json, students: Json, webinars: nat, insiders: Json)

  /** What one run of `initStats` ends with. */
  datatype RunOutcome =
    | MissingElements(missing: seq<string>)                      // stopped before any request
    | Aborted                                                     // a TypeError reached the outer `catch`
    | Animated(metrics: Metrics, started: seq<bool>, successCount: nat)

  /** The value handed to counter `i`, in the order of `ElementIds`. */
  function CounterValue(m: Metrics, i: nat): Json
    requires i < 4
  {
    if i == 0 then m.courses
    else if i == 1 then m.students
    else if i == 2 then JNum(m.webinars)
    else m.insiders
  }

  /**
   * The four `safeCountUp` calls, in the order courses, students, webinars,
   * insiders: a counter starts only if its element is present, its value is
   * a number and the library starts it.
   */
  function StartCounters(document: set<string>, m: Metrics, libraryStarts: seq<bool>): (started: seq<bool>)
    requires |libraryStarts| == 4
    ensures |started| == 4
    ensures forall i :: 0 <= i < 4 ==> started[i] ==> libraryStarts[i] && CounterValue(m, i).JNum?
    ensures forall i :: 0 <= i < 4 ==> started[i] ==> ElementIds[i] in document
    ensures forall i :: 0 <= i < 4 ==>
              ElementIds[i] in document && CounterValue(m, i).JNum? && libraryStarts[i] ==> started[i]
  {
    seq(4, i requires 0 <= i < 4 => SafeCountUp(ElementIds[i] in document, CounterValue(m, i), libraryStarts[i]))
  }

  /**
   * `x?.data?.meta?.total || 0` for the body of count request `k`: 0 courses,
   * 1 enrollments (the insiders count), 3 users (the students count).
   */
  function DerivedCount(results: seq<Settled>, k: nat): Json
    requires |results| == 4 && k < 4 && k != 2
  {
    DeriveCount(ExtractData(results[k], CountFallback))
  }

  /** The classifier applied to the sections of the course-detail body (request 2). */
  function DerivedWebinars(results: seq<Settled>): Completion<nat>
    requires |results| == 4
  {
    CalculateWebinarsCount(DeriveSections(ExtractData(results[2], CourseFallback)))
  }

  /** The three counts are logged through template literals, which throw for a value that cannot be printed. */
  predicate CountsPrintable(results: seq<Settled>)
    requires |results| == 4
  {
    Printable(DerivedCount(results, 0)) && Printable(DerivedCount(results, 1)) && Printable(DerivedCount(results, 3))
  }

  /**
   * The four metrics, or the TypeError that logging an unprintable count or
   * classifying the sections throws.
   */
  function DeriveMetrics(results: seq<Settled>): (r: Completion<Metrics>)
    requires |results| == 4
    ensures r.Throws? <==> !CountsPrintable(results) || DerivedWebinars(results).Throws?
    ensures r.Returns? ==> && r.value.courses == DerivedCount(results, 0)
                           && r.value.insiders == DerivedCount(results, 1)
                           && r.value.students == DerivedCount(results, 3)
                           && DerivedWebinars(results) == Returns(r.value.webinars)
  {
    if !CountsPrintable(results) then Throws
    else
      match DerivedWebinars(results)
      case Throws => Throws
      case Returns(webinars) =>
        Returns(Metrics(DerivedCount(results, 0), DerivedCount(results, 3), webinars, DerivedCount(results, 1)))
  }

  /**
   * `initStats()`. The request order is 0 courses, 1 enrollments (the
   * insiders count), 2 course detail (the sections), 3 users (the students
   * count). A TypeError while deriving the metrics reaches the outer `catch`.
   */
  function InitStats(document: set<string>, results: seq<Settled>, libraryStarts: seq<bool>): (r: RunOutcome)
    requires |results| == 4 && |libraryStarts| == 4
    ensures r.MissingElements? <==> exists id :: id in ElementIds && id !in document
    ensures r.MissingElements? ==> r.missing == MissingAmong(ElementIds, document)
    ensures r.Aborted? <==> AllCountersPresent(document) && DeriveMetrics(results).Throws?
    ensures r.Animated? ==> DeriveMetrics(results) == Returns(r.metrics)
    ensures r.Animated? ==> r.started == StartCounters(document, r.metrics, libraryStarts)
    ensures r.Animated? ==> r.successCount == CountTrue(r.started)
    ensures r.Animated? ==> r.successCount <= 4
    ensures r.Animated? ==> (r.successCount == 4 <==> forall i :: 0 <= i < 4 ==> r.started[i])
    ensures r.Animated? ==> (r.successCount == 0 <==> forall i :: 0 <= i < 4 ==> !r.started[i])
  {
    MissingAmongMembers(ElementIds, document);
    var missing := MissingAmong(ElementIds, document);
    if missing != [] then
      assert missing[0] in missing;
      MissingElements(missing)
    else
      match DeriveMetrics(results)
      case Throws => Aborted
      case Returns(metrics) =>
        var started := StartCounters(document, metrics, libraryStarts);
        CountTrueBounds(started);
        Animated(metrics, started, CountTrue(started))
  }

  /** The value run `r` derived from request `k`, in the request order. */
  function MetricOfRequest(m: Metrics, k: nat): Json
    requires k < 4
  {
    if k == 0 then m.courses
    else if k == 1 then m.insiders
    else if k == 2 then JNum(m.webinars)
    else m.students
  }

  /** A document holding all four counter elements. */
  predicate AllCountersPresent(document: set<string>) {
    forall id :: id in ElementIds ==> id in document
  }

  /**
   * A failed course-detail request never makes the run abort by itself: its
   * sections derive to `[]` and the webinar count to 0, so only an unprintable
   * count can still abort the run.
   */
  lemma FailedCourseRequestNeverAborts(document: set<string>, results: seq<Settled>, libraryStarts: seq<bool>)
    requires |results| == 4 && |libraryStarts| == 4
    requires AllCountersPresent(document)
    requires results[2] == Settle(FetchFailed)
    ensures InitStats(document, results, libraryStarts).Aborted? <==> !CountsPrintable(results)
    ensures InitStats(document, results, libraryStarts).Animated? ==>
              InitStats(document, results, libraryStarts).metrics.webinars == 0
  {
    FailedFetchGivesZero(CourseFallback);
  }

  /** A request that failed makes its own metric read 0 and leaves the others alone. */
  lemma FailedRequestReadsZero(document: set<string>, results: seq<Settled>, libraryStarts: seq<bool>, k: nat)
    requires |results| == 4 && |libraryStarts| == 4 && k < 4
    requires results[k] == Settle(FetchFailed)
    ensures InitStats(document, results, libraryStarts).Animated? ==>
              MetricOfRequest(InitStats(document, results, libraryStarts).metrics, k) == JNum(0)
    ensures InitStats(document, results, libraryStarts).Animated? ==>
              forall j :: 0 <= j < 4 && j != 2 && j != k ==>
                MetricOfRequest(InitStats(document, results, libraryStarts).metrics, j) == DerivedCount(results, j)
    ensures InitStats(document, results, libraryStarts).Animated? && k != 2 ==>
              DerivedWebinars(results) == Returns(InitStats(document, results, libraryStarts).metrics.webinars)
  {
    FailedFetchGivesZero(if k == 2 then CourseFallback else CountFallback);
  }

  /** With every counter element present, nothing is reported missing. */
  lemma NothingMissing(document: set<string>)
    requires AllCountersPresent(document)
    ensures MissingAmong(ElementIds, document) == []
  {
    MissingAmongMembers(ElementIds, document);
  }

  /** With every element present and every value a number, exactly the counters the library starts are started. */
  lemma NumericCountersStart(document: set<string>, m: Metrics, libraryStarts: seq<bool>)
    requires |libraryStarts| == 4
    requires AllCountersPresent(document)
    requires m.courses.JNum? && m.students.JNum? && m.insiders.JNum?
    ensures StartCounters(document, m, libraryStarts) == libraryStarts
  {
    var started := StartCounters(document, m, libraryStarts);
    forall i | 0 <= i < 4
      ensures started[i] == libraryStarts[i]
    {
      assert ElementIds[i] in ElementIds;
    }
  }

  /**
   * When every counter element is present and the metrics derive to numbers,
   * the run animates with exactly those metrics and starts the counters the
   * library starts.
   */
  lemma RunWithNumericMetrics(document: set<string>, results: seq<Settled>, libraryStarts: seq<bool>, m: Metrics)
    requires |results| == 4 && |libraryStarts| == 4
    requires AllCountersPresent(document)
    requires DeriveMetrics(results) == Returns(m)
    requires m.courses.JNum? && m.students.JNum? && m.insiders.JNum?
    ensures InitStats(document, results, libraryStarts) == Animated(m, libraryStarts, CountTrue(libraryStarts))
  {
    NothingMissing(document);
    NumericCountersStart(document, m, libraryStarts);
  }

  /** With every request failed, every metric is 0. */
  lemma AllFailedMetrics()
    ensures DeriveMetrics(seq(4, _ => Settle(FetchFailed))) == Returns(Metrics(JNum(0), JNum(0), 0, JNum(0)))
  {
    FailedFetchGivesZero(CountFallback);
    FailedFetchGivesZero(CourseFallback);
  }

  /**
   * With every request failed, every metric is 0; every counter is then
   * handed a number, so the tally counts the counters the library started,
   * not the requests that succeeded.
   */
  lemma AllRequestsFailed(document: set<string>, libraryStarts: seq<bool>)
    requires |libraryStarts| == 4
    requires AllCountersPresent(document)
    ensures InitStats(document, seq(4, _ => Settle(FetchFailed)), libraryStarts) ==
              Animated(Metrics(JNum(0), JNum(0), 0, JNum(0)), libraryStarts, CountTrue(libraryStarts))
  {
    AllFailedMetrics();
    RunWithNumericMetrics(document, seq(4, _ => Settle(FetchFailed)), libraryStarts,
                          Metrics(JNum(0), JNum(0), 0, JNum(0)));
  }

  /** The four outcomes listed in request order are read back by position. */
  lemma ResultsInRequestOrder(courses: Settled, enrollments: Settled, course: Settled, users: Settled)
    ensures DerivedCount([courses, enrollments, course, users], 0) == DeriveCount(ExtractData(courses, CountFallback))
    ensures DerivedCount([courses, enrollments, course, users], 1) == DeriveCount(ExtractData(enrollments, CountFallback))
    ensures DerivedCount([courses, enrollments, course, users], 3) == DeriveCount(ExtractData(users, CountFallback))
    ensures DerivedWebinars([courses, enrollments, course, users]) ==
              CalculateWebinarsCount(DeriveSections(ExtractData(course, CourseFallback)))
  {
  }

  /** Metrics read back from four outcomes in request order, when the three counts derive to numbers. */
  lemma MetricsInRequestOrder(courses: Settled, enrollments: Settled, course: Settled, users: Settled,
                              c: int, e: int, w: nat, u: int)
    requires DeriveCount(ExtractData(courses, CountFallback)) == JNum(c)
    requires DeriveCount(ExtractData(enrollments, CountFallback)) == JNum(e)
    requires CalculateWebinarsCount(DeriveSections(ExtractData(course, CourseFallback))) == Returns(w)
    requires DeriveCount(ExtractData(users, CountFallback)) == JNum(u)
    ensures DeriveMetrics([courses, enrollments, course, users]) == Returns(Metrics(JNum(c), JNum(u), w, JNum(e)))
  {
    ResultsInRequestOrder(courses, enrollments, course, users);
  }

  /** A fetched body holding an array of readable sections classifies to their reference total. */
  lemma FetchedSectionsCount(body: Json, sections: seq<Json>)
    requires Path(Some(body), SectionsPath) == Some(JArr(sections))
    requires forall i :: 0 <= i < |sections| ==> ReadableSection(sections[i])
    ensures CalculateWebinarsCount(DeriveSections(ExtractData(Settle(Responded(body)), CourseFallback))) ==
              Returns(WebinarTotal(sections))
  {
    WellFormedCourseBody(body, sections, CourseFallback);
  }

  /**
   * Fetched bodies that hold numbers at `data.meta.total` and an array of
   * readable sections at `data.course.lecture_sections` give exactly those
   * totals and the reference total of the sections.
   */
  lemma FetchedBodiesMetrics(courses: Json, enrollments: Json, course: Json, users: Json,
                             c: int, e: int, sections: seq<Json>, u: int)
    requires Path(Some(courses), TotalPath) == Some(JNum(c))
    requires Path(Some(enrollments), TotalPath) == Some(JNum(e))
    requires Path(Some(course), SectionsPath) == Some(JArr(sections))
    requires Path(Some(users), TotalPath) == Some(JNum(u))
    requires forall i :: 0 <= i < |sections| ==> ReadableSection(sections[i])
    ensures DeriveMetrics([Settle(Responded(courses)), Settle(Responded(enrollments)),
                           Settle(Responded(course)), Settle(Responded(users))]) ==
              Returns(Metrics(JNum(c), JNum(u), WebinarTotal(sections), JNum(e)))
  {
    WellFormedCountBody(courses, c, CountFallback);
    WellFormedCountBody(enrollments, e, CountFallback);
    WellFormedCountBody(users, u, CountFallback);
    FetchedSectionsCount(course, sections);
    MetricsInRequestOrder(Settle(Responded(courses)), Settle(Responded(enrollments)),
                          Settle(Responded(course)), Settle(Responded(users)), c, e, WebinarTotal(sections), u);
  }

  /**
   * With well-formed bodies from every request, the run animates with each
   * body's total and the reference total of the sections, and the tally is
   * the number of counters the library started.
   */
  lemma WellFormedRequests(document: set<string>, courses: int, insiders: int, sections: seq<Json>, students: int,
                           libraryStarts: seq<bool>)
    requires |libraryStarts| == 4
    requires AllCountersPresent(document)
    requires forall i :: 0 <= i < |sections| ==> ReadableSection(sections[i])
    ensures InitStats(document,
                      [Settle(Responded(CountBody(courses))), Settle(Responded(CountBody(insiders))),
                       Settle(Responded(CourseBody(sections))), Settle(Responded(CountBody(students)))],
                      libraryStarts) ==
            Animated(Metrics(JNum(courses), JNum(students), WebinarTotal(sections), JNum(insiders)),
                     libraryStarts, CountTrue(libraryStarts))
  {
    FetchedBodiesMetrics(CountBody(courses), CountBody(insiders), CourseBody(sections), CountBody(students),
                         courses, insiders, sections, students);
    RunWithNumericMetrics(document,
                          [Settle(Responded(CountBody(courses))), Settle(Responded(CountBody(insiders))),
                           Settle(Responded(CourseBody(sections))), Settle(Responded(CountBody(students)))],
                          libraryStarts,
                          Metrics(JNum(courses), JNum(students), WebinarTotal(sections), JNum(insiders)));
  }

  /**
   * A course body with an empty section list gives a webinar count of 0
   * without error; the run then aborts only on an unprintable count.
   */
  lemma EmptySectionList(document: set<string>, results: seq<Settled>, libraryStarts: seq<bool>)
    requires |results| == 4 && |libraryStarts| == 4
    requires AllCountersPresent(document)
    requires results[2] == Settle(Responded(CourseBody([])))
    ensures DerivedWebinars(results) == Returns(0)
    ensures InitStats(document, results, libraryStarts).Animated? <==> CountsPrintable(results)
    ensures InitStats(document, results, libraryStarts).Animated? ==>
              InitStats(document, results, libraryStarts).metrics.webinars == 0
  {
    WellFormedCourseBody(CourseBody([]), [], CourseFallback);
  }
}
