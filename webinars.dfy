/**
 * The webinar classifier: `calculateWebinarsCount` keeps the lecture sections
 * that have lectures and whose lower-cased name contains none of ten
 * administrative keywords, then sums their lecture counts.
 */
module Webinars {
  import opened JsValues

  /** The section-name keywords that mark a section as not being a webinar. */
  const Keywords: seq<string> := [
    "welcome",
    "intro",
    "getting started",
    "overview",
    "archived",
    "challenges",
    "guest expert sessions",
    "quick wins",
    "roundtables",
    "growth paths"
  ]

  // ---------------------------------------------------------------------
  // Strings: ASCII lower-casing and `String.prototype.includes`
  // ---------------------------------------------------------------------

  function LowerChar(c: char): char {
    if 'A' <= c <= 'Z' then (c as int + 32) as char else c
  }

  /** `s.toLowerCase()`, restricted to ASCII letters: each character is mapped on its own. */
  function Lower(s: string): (r: string)
    ensures |r| == |s|
    ensures forall i :: 0 <= i < |s| ==> r[i] == LowerChar(s[i])
  {
    seq(|s|, i requires 0 <= i < |s| => LowerChar(s[i]))
  }

  /** `haystack.includes(needle)`: the needle is a prefix of some suffix. */
  predicate Contains(haystack: string, needle: string)
    decreases |haystack|
  {
    needle <= haystack || (haystack != [] && Contains(haystack[1..], needle))
  }

  /** The needle occurs in the haystack starting at index `i`. */
  ghost predicate OccursAt(haystack: string, needle: string, i: int) {
    0 <= i && i + |needle| <= |haystack| && haystack[i..i + |needle|] == needle
  }

  /** An occurrence in the tail is an occurrence one place further on in the whole. */
  lemma OccursInTail(haystack: string, needle: string, j: int)
    requires haystack != [] && OccursAt(haystack[1..], needle, j)
    ensures OccursAt(haystack, needle, j + 1)
  {
    assert haystack[j + 1..j + 1 + |needle|] == haystack[1..][j..j + |needle|];
  }

  /** An occurrence past the first index is an occurrence one place earlier in the tail. */
  lemma OccursPastHead(haystack: string, needle: string, i: int)
    requires i > 0 && OccursAt(haystack, needle, i)
    ensures OccursAt(haystack[1..], needle, i - 1)
  {
    assert haystack[1..][i - 1..i - 1 + |needle|] == haystack[i..i + |needle|];
  }

  /** `includes` finds the needle exactly when it occurs at some index. */
  lemma {:induction false} ContainsIffOccurs(haystack: string, needle: string)
    ensures Contains(haystack, needle) <==> exists i :: OccursAt(haystack, needle, i)
    decreases |haystack|
  {
    if needle <= haystack {
      assert OccursAt(haystack, needle, 0);
    } else if haystack != [] {
      ContainsIffOccurs(haystack[1..], needle);
      if exists j :: OccursAt(haystack[1..], needle, j) {
        var j :| OccursAt(haystack[1..], needle, j);
        OccursInTail(haystack, needle, j);
      }
      if exists i :: OccursAt(haystack, needle, i) {
        var i :| OccursAt(haystack, needle, i);
        if i > 0 {
          OccursPastHead(haystack, needle, i);
        }
      }
    }
  }

  /** `keywords.some((keyword) => name.includes(keyword))`, scanning left to right. */
  predicate AnyKeywordIn(name: string, keywords: seq<string>)
    decreases |keywords|
  {
    keywords != [] && (Contains(name, keywords[0]) || AnyKeywordIn(name, keywords[1..]))
  }

  /** The left-to-right scan agrees with "some keyword of the list occurs in the name". */
  lemma {:induction false} AnyKeywordInIff(name: string, keywords: seq<string>)
    ensures AnyKeywordIn(name, keywords) <==> exists k :: k in keywords && Contains(name, k)
    decreases |keywords|
  {
    if keywords != [] {
      AnyKeywordInIff(name, keywords[1..]);
      assert keywords[0] in keywords;
      assert forall k :: k in keywords <==> k == keywords[0] || k in keywords[1..];
    }
  }

  // ---------------------------------------------------------------------
  // One section
  // ---------------------------------------------------------------------

  /**
   * `section.name?.toLowerCase() || ""`. Reading `.name` of a `null` section,
   * or calling `toLowerCase` on a name that is neither a string nor nullish,
   * throws a TypeError. Sections that are other primitives have no `name`.
   */
  function SectionName(section: Json): (r: Completion<string>)
    ensures r.Throws? <==> section.JNull? || (section.JObj? && "name" in section.fields
                                                && !section.fields["name"].JNull? && !section.fields["name"].JStr?)
  {
    match section
    case JNull => Throws
    case JObj(fields) =>
      if "name" !in fields then Returns("")
      else (match fields["name"]
            case JNull => Returns("")
            case JStr(s) => Returns(Lower(s))
            case _ => Throws)
    case _ => Returns("")
  }

  /**
   * `section.lectures?.length`, for the values a parsed body can hold there:
   * an array or a string has a length, anything else contributes nothing.
   */
  function LectureCount(section: Json): (r: nat)
    ensures r > 0 ==> section.JObj? && "lectures" in section.fields && Truthy(section.fields["lectures"])
  {
    match section
    case JObj(fields) =>
      if "lectures" !in fields then 0
      else (match fields["lectures"]
            case JArr(items) => |items|
            case JStr(s) => |s|
            case _ => 0)
    case _ => 0
  }

  /** The filter callback: `hasLectures && !isNonWebinarSection`, or the TypeError it throws. */
  function KeepSection(section: Json): (r: Completion<bool>)
    ensures r.Returns? <==> SectionName(section).Returns?
    ensures r == Returns(true) ==> LectureCount(section) > 0
  {
    match SectionName(section)
    case Throws => Throws
    case Returns(name) => Returns(LectureCount(section) > 0 && !AnyKeywordIn(name, Keywords))
  }

  /** The filter callback keeps this section. */
  predicate IsWebinarSection(section: Json) {
    KeepSection(section) == Returns(true)
  }

  /** The filter callback can be evaluated on this section without throwing. */
  predicate WellFormedSection(section: Json) {
    SectionName(section).Returns?
  }

  /**
   * The inclusion rule: a section is kept exactly when it can be read, has at
   * least one lecture, and its lower-cased name contains none of the keywords.
   */
  lemma InclusionRule(section: Json)
    ensures IsWebinarSection(section) <==>
              && WellFormedSection(section)
              && LectureCount(section) > 0
              && forall k :: k in Keywords ==> !Contains(SectionName(section).value, k)
  {
    if WellFormedSection(section) {
      AnyKeywordInIff(SectionName(section).value, Keywords);
    }
  }

  /** The empty name contains no keyword. */
  lemma EmptyNameMatchesNoKeyword()
    ensures !AnyKeywordIn("", Keywords)
  {
    forall k | k in Keywords
      ensures !Contains("", k)
    {
      assert |k| > 0;
      assert !(k <= "");
    }
    AnyKeywordInIff("", Keywords);
  }

  /** A section with no name, or a `null` name, is kept whenever it has lectures. */
  lemma NamelessSectionIncluded(section: Json)
    requires section.JObj?
    requires "name" !in section.fields || section.fields["name"] == JNull
    ensures IsWebinarSection(section) <==> LectureCount(section) > 0
  {
    EmptyNameMatchesNoKeyword();
  }

  /** A section without a `lectures` field is never kept. */
  lemma NoLecturesFieldExcluded(section: Json)
    requires section.JObj? && "lectures" !in section.fields
    ensures !IsWebinarSection(section)
  {
  }

  /** Matching ignores case: names equal up to ASCII case get the same verdict. */
  lemma {:induction false} CaseInsensitive(section: Json, name: string)
    requires section.JObj? && "name" in section.fields && section.fields["name"].JStr?
    requires Lower(name) == Lower(section.fields["name"].s)
    ensures KeepSection(section.(fields := section.fields["name" := JStr(name)])) == KeepSection(section)
  {
    var renamed := section.(fields := section.fields["name" := JStr(name)]);
    assert SectionName(renamed) == SectionName(section);
    assert LectureCount(renamed) == LectureCount(section);
  }

  // ---------------------------------------------------------------------
  // The section list: filter, then reduce
  // ---------------------------------------------------------------------

  /** `webinars.filter(...)`: the kept sections in their original order, or the TypeError. */
  function FilterWebinarSections(sections: seq<Json>): Completion<seq<Json>>
    decreases |sections|
  {
    if sections == [] then Returns([])
    else
      match KeepSection(sections[0])
      case Throws => Throws
      case Returns(keep) =>
        match FilterWebinarSections(sections[1..])
        case Throws => Throws
        case Returns(rest) => Returns(if keep then [sections[0]] + rest else rest)
  }

  /** `sections.reduce((total, s) => total + (s.lectures?.length || 0), 0)`. */
  function SumLectureCounts(sections: seq<Json>): nat
    decreases |sections|
  {
    if sections == [] then 0 else LectureCount(sections[0]) + SumLectureCounts(sections[1..])
  }

  /**
   * The debug listing of every section interpolates `section.id` into a
   * template literal; the listing runs whether or not debugging is on.
   */
  predicate IdPrintable(section: Json) {
    PrintableOrUndefined(Member(Some(section), "id"))
  }

  /** The classifier gets through this section: its callback reads it and its id can be listed. */
  predicate ReadableSection(section: Json) {
    WellFormedSection(section) && IdPrintable(section)
  }

  // ---------------------------------------------------------------------
  // Reference definition and its properties
  // ---------------------------------------------------------------------

  /** What one section adds to the webinar count. */
  function Contribution(section: Json): (r: nat)
    ensures r <= LectureCount(section)
    ensures r > 0 <==> IsWebinarSection(section)
  {
    if IsWebinarSection(section) then LectureCount(section) else 0
  }

  /** The webinar count as a sum over all sections, each adding its contribution. */
  function WebinarTotal(sections: seq<Json>): nat
    decreases |sections|
  {
    if sections == [] then 0 else Contribution(sections[0]) + WebinarTotal(sections[1..])
  }

  /** The lecture sum of a list with one more section in front grows by that section's count. */
  lemma SumCons(section: Json, rest: seq<Json>)
    ensures SumLectureCounts([section] + rest) == LectureCount(section) + SumLectureCounts(rest)
  {
    assert ([section] + rest)[1..] == rest;
  }

  /** The filter throws exactly when the callback throws on some section. */
  lemma {:induction false} FilterThrowsIff(sections: seq<Json>)
    ensures FilterWebinarSections(sections).Throws? <==>
              exists i :: 0 <= i < |sections| && !WellFormedSection(sections[i])
    decreases |sections|
  {
    if sections != [] {
      var tail := sections[1..];
      FilterThrowsIff(tail);
      if exists j :: 0 <= j < |tail| && !WellFormedSection(tail[j]) {
        var j :| 0 <= j < |tail| && !WellFormedSection(tail[j]);
        assert sections[j + 1] == tail[j];
      }
      if exists i :: 0 <= i < |sections| && !WellFormedSection(sections[i]) {
        var i :| 0 <= i < |sections| && !WellFormedSection(sections[i]);
        if i > 0 {
          assert tail[i - 1] == sections[i];
        }
      }
    }
  }

  /**
   * When the filter returns, it keeps exactly the webinar sections, no more
   * than it was given, and their lecture sum is the reference total.
   */
  lemma {:induction false} FilterKeepsWebinars(sections: seq<Json>)
    requires FilterWebinarSections(sections).Returns?
    ensures forall x :: x in FilterWebinarSections(sections).value <==> x in sections && IsWebinarSection(x)
    ensures |FilterWebinarSections(sections).value| <= |sections|
    ensures SumLectureCounts(FilterWebinarSections(sections).value) == WebinarTotal(sections)
    decreases |sections|
  {
    if sections != [] {
      var head, tail := sections[0], sections[1..];
      FilterKeepsWebinars(tail);
      assert forall x :: x in sections <==> x == head || x in tail;
      if IsWebinarSection(head) {
        SumCons(head, FilterWebinarSections(tail).value);
      }
    }
  }

  /**
   * The filter keeps exactly the webinar sections, throws exactly when some
   * section cannot be read, and the sum of what it keeps is the reference total.
   */
  lemma FilterMatchesReference(sections: seq<Json>)
    ensures FilterWebinarSections(sections).Throws? <==>
              exists i :: 0 <= i < |sections| && !WellFormedSection(sections[i])
    ensures FilterWebinarSections(sections).Returns? ==>
              forall x :: x in FilterWebinarSections(sections).value <==> x in sections && IsWebinarSection(x)
    ensures FilterWebinarSections(sections).Returns? ==>
              |FilterWebinarSections(sections).value| <= |sections|
    ensures FilterWebinarSections(sections).Returns? ==>
              SumLectureCounts(FilterWebinarSections(sections).value) == WebinarTotal(sections)
  {
    FilterThrowsIff(sections);
    if FilterWebinarSections(sections).Returns? {
      FilterKeepsWebinars(sections);
    }
  }

  /**
   * `calculateWebinarsCount(webinars)`: filter, sum, then list every section
   * for debugging. A value that is not an array has no `filter` method, so
   * calling it throws; otherwise the call throws exactly when some section
   * cannot be read, and returns the lectures of the webinar sections.
   */
  function CalculateWebinarsCount(webinars: Json): (r: Completion<nat>)
    ensures !webinars.JArr? ==> r.Throws?
    ensures webinars.JArr? ==>
              (r.Throws? <==> exists i :: 0 <= i < |webinars.items| && !ReadableSection(webinars.items[i]))
    ensures r.Returns? ==> webinars.JArr? && r.value == WebinarTotal(webinars.items)
  {
    match webinars
    case JArr(sections) =>
      FilterMatchesReference(sections);
      (match FilterWebinarSections(sections)
       case Throws => Throws
       case Returns(kept) =>
         if forall i :: 0 <= i < |sections| ==> IdPrintable(sections[i]) then Returns(SumLectureCounts(kept))
         else Throws)
    case _ => Throws
  }

  /** The webinar count never exceeds the total number of lectures. */
  lemma {:induction false} TotalBoundedByLectures(sections: seq<Json>)
    ensures WebinarTotal(sections) <= SumLectureCounts(sections)
    decreases |sections|
  {
    if sections != [] {
      TotalBoundedByLectures(sections[1..]);
    }
  }

  /** The count is 0 for an empty section list and never exceeds the total number of lectures. */
  lemma CountBounds(sections: seq<Json>)
    ensures CalculateWebinarsCount(JArr([])) == Returns(0)
    ensures CalculateWebinarsCount(JArr(sections)).Returns? ==>
              CalculateWebinarsCount(JArr(sections)).value <= SumLectureCounts(sections)
  {
    TotalBoundedByLectures(sections);
  }

  /** Removing one section takes away exactly its contribution. */
  lemma {:induction false} TotalWithout(sections: seq<Json>, i: nat)
    requires i < |sections|
    ensures WebinarTotal(sections) == Contribution(sections[i]) + WebinarTotal(sections[..i] + sections[i + 1..])
    decreases |sections|
  {
    if i == 0 {
      assert sections[..0] + sections[1..] == sections[1..];
    } else {
      var tail := sections[1..];
      TotalWithout(tail, i - 1);
      assert tail[i - 1] == sections[i];
      var removed := sections[..i] + sections[i + 1..];
      assert removed[0] == sections[0];
      assert removed[1..] == tail[..i - 1] + tail[i..];
    }
  }

  /** Removing the element at `j` removes one occurrence of it from the multiset. */
  lemma MultisetWithout(b: seq<Json>, j: nat)
    requires j < |b|
    ensures multiset(b[..j] + b[j + 1..]) == multiset(b) - multiset{b[j]}
  {
    assert b == b[..j] + [b[j]] + b[j + 1..];
    assert multiset(b) == multiset(b[..j]) + multiset{b[j]} + multiset(b[j + 1..]);
  }

  /** Taking the same element out of two permutations of each other leaves permutations of each other. */
  lemma PermutationsWithout(a: seq<Json>, b: seq<Json>, j: nat)
    requires multiset(a) == multiset(b) && a != [] && j < |b| && b[j] == a[0]
    ensures multiset(a[1..]) == multiset(b[..j] + b[j + 1..])
  {
    MultisetWithout(a, 0);
    assert a[..0] + a[1..] == a[1..];
    MultisetWithout(b, j);
  }

  /** Permuting the section list does not change the reference total. */
  lemma {:induction false} TotalPermutationInvariant(a: seq<Json>, b: seq<Json>)
    requires multiset(a) == multiset(b)
    ensures WebinarTotal(a) == WebinarTotal(b)
    decreases |a|
  {
    if a == [] {
      assert |b| == |multiset(b)| == 0;
    } else {
      assert a[0] in multiset(b);
      var j :| 0 <= j < |b| && b[j] == a[0];
      PermutationsWithout(a, b, j);
      TotalPermutationInvariant(a[1..], b[..j] + b[j + 1..]);
      TotalWithout(b, j);
    }
  }

  /** A section that cannot be read in one list is also found in any permutation of it. */
  lemma UnreadableInPermutation(a: seq<Json>, b: seq<Json>, i: nat)
    requires multiset(a) == multiset(b) && i < |a| && !ReadableSection(a[i])
    ensures exists j :: 0 <= j < |b| && !ReadableSection(b[j])
  {
    assert a[i] in multiset(a);
    assert a[i] in multiset(b);
    var j :| 0 <= j < |b| && b[j] == a[i];
  }

  /** Permuting the section list does not change what the classifier returns. */
  lemma CountPermutationInvariant(a: seq<Json>, b: seq<Json>)
    requires multiset(a) == multiset(b)
    ensures CalculateWebinarsCount(JArr(a)) == CalculateWebinarsCount(JArr(b))
  {
    TotalPermutationInvariant(a, b);
    if exists i :: 0 <= i < |a| && !ReadableSection(a[i]) {
      var i :| 0 <= i < |a| && !ReadableSection(a[i]);
      UnreadableInPermutation(a, b, i);
    }
    if exists j :: 0 <= j < |b| && !ReadableSection(b[j]) {
      var j :| 0 <= j < |b| && !ReadableSection(b[j]);
      UnreadableInPermutation(b, a, j);
    }
  }

  // ---------------------------------------------------------------------
  // Worked examples
  // ---------------------------------------------------------------------

  /** A section object with a string name and `count` lectures. */
  function NamedSection(name: string, count: nat): (r: Json)
    ensures LectureCount(r) == count
    ensures IdPrintable(r)
  {
    JObj(map["name" := JStr(name), "lectures" := JArr(seq(count, _ => JObj(map[])))])
  }

  /** A needle with a character the haystack lacks does not occur in it. */
  lemma {:induction false} AbsentCharNotContained(haystack: string, needle: string, c: char)
    requires c in needle && c !in haystack
    ensures !Contains(haystack, needle)
    decreases |haystack|
  {
    if haystack != [] {
      AbsentCharNotContained(haystack[1..], needle, c);
    }
  }

  /** A name that lacks, for every keyword, one of that keyword's characters matches no keyword. */
  lemma NoKeywordWhenCharsAbsent(name: string, witnesses: seq<char>)
    requires |witnesses| == |Keywords|
    requires forall i :: 0 <= i < |Keywords| ==> witnesses[i] in Keywords[i] && witnesses[i] !in name
    ensures !AnyKeywordIn(name, Keywords)
  {
    forall k | k in Keywords
      ensures !Contains(name, k)
    {
      var i :| 0 <= i < |Keywords| && Keywords[i] == k;
      AbsentCharNotContained(name, k, witnesses[i]);
    }
    AnyKeywordInIff(name, Keywords);
  }

  /** A name containing one of the keywords matches. */
  lemma KeywordExcludes(name: string, i: nat)
    requires i < |Keywords| && Contains(name, Keywords[i])
    ensures AnyKeywordIn(name, Keywords)
  {
    assert Keywords[i] in Keywords;
    AnyKeywordInIff(name, Keywords);
  }

  /** A named section is kept exactly when it has lectures and its lower-cased name matches no keyword. */
  lemma NamedSectionVerdict(name: string, count: nat)
    ensures KeepSection(NamedSection(name, count)) == Returns(count > 0 && !AnyKeywordIn(Lower(name), Keywords))
  {
  }

  lemma WelcomeSessionMatches()
    ensures AnyKeywordIn(Lower("WELCOME Session"), Keywords)
  {
    assert "welcome" <= Lower("WELCOME Session");
    KeywordExcludes(Lower("WELCOME Session"), 0);
  }

  lemma LiveWebinarMatchesNone()
    ensures !AnyKeywordIn(Lower("Live Webinar 1"), Keywords)
  {
    assert Lower("Live Webinar 1") == "live webinar 1";
    NoKeywordWhenCharsAbsent("live webinar 1", "ctgoccgqog");
  }

  /** "WELCOME Session" is excluded; "Live Webinar 1" is included. */
  lemma CaseInsensitiveExamples()
    ensures !IsWebinarSection(NamedSection("WELCOME Session", 4))
    ensures IsWebinarSection(NamedSection("Live Webinar 1", 1))
  {
    NamedSectionVerdict("WELCOME Session", 4);
    WelcomeSessionMatches();
    NamedSectionVerdict("Live Webinar 1", 1);
    LiveWebinarMatchesNone();
  }

  lemma IntroMatches()
    ensures AnyKeywordIn(Lower("Intro"), Keywords)
  {
    assert "intro" <= Lower("Intro");
    KeywordExcludes(Lower("Intro"), 1);
  }

  lemma ModuleOneMatchesNone()
    ensures !AnyKeywordIn(Lower("Module 1"), Keywords)
  {
    assert Lower("Module 1") == "module 1";
    NoKeywordWhenCharsAbsent("module 1", "wigvacgqrg");
  }

  lemma ArchivedMatches()
    ensures AnyKeywordIn(Lower("Archived Q&A"), Keywords)
  {
    assert "archived" <= Lower("Archived Q&A");
    KeywordExcludes(Lower("Archived Q&A"), 4);
  }

  /** Of three readable sections where only the middle one is kept, the count is its lecture count. */
  lemma OnlyMiddleKept(first: Json, middle: Json, last: Json)
    requires KeepSection(first) == Returns(false)
    requires KeepSection(middle) == Returns(true)
    requires KeepSection(last) == Returns(false)
    requires IdPrintable(first) && IdPrintable(middle) && IdPrintable(last)
    ensures CalculateWebinarsCount(JArr([first, middle, last])) == Returns(LectureCount(middle))
  {
    FilterKeepsMiddle(first, middle, last);
    SumOfOne(middle);
    IdsOfThree(first, middle, last);
    CountOfFiltered([first, middle, last], [middle]);
  }

  /** Three sections whose ids can each be listed form a list whose ids can all be listed. */
  lemma IdsOfThree(first: Json, middle: Json, last: Json)
    requires IdPrintable(first) && IdPrintable(middle) && IdPrintable(last)
    ensures forall i :: 0 <= i < 3 ==> IdPrintable([first, middle, last][i])
  {
  }

  /** When every id can be listed, the count is the lecture sum of what the filter keeps. */
  lemma CountOfFiltered(sections: seq<Json>, kept: seq<Json>)
    requires FilterWebinarSections(sections) == Returns(kept)
    requires forall i :: 0 <= i < |sections| ==> IdPrintable(sections[i])
    ensures CalculateWebinarsCount(JArr(sections)) == Returns(SumLectureCounts(kept))
  {
  }

  /** The lecture sum of a single section is its lecture count. */
  lemma SumOfOne(section: Json)
    ensures SumLectureCounts([section]) == LectureCount(section)
  {
    assert [section][1..] == [];
  }

  /** A section the callback rejects is dropped and the filter goes on with the rest. */
  lemma FilterSkips(section: Json, rest: seq<Json>)
    requires KeepSection(section) == Returns(false)
    ensures FilterWebinarSections([section] + rest) == FilterWebinarSections(rest)
  {
    assert ([section] + rest)[1..] == rest;
  }

  /** A section the callback keeps is placed in front of what the filter keeps of the rest. */
  lemma FilterKeeps(section: Json, rest: seq<Json>)
    requires KeepSection(section) == Returns(true) && FilterWebinarSections(rest).Returns?
    ensures FilterWebinarSections([section] + rest) == Returns([section] + FilterWebinarSections(rest).value)
  {
    assert ([section] + rest)[1..] == rest;
  }

  /** Of two sections where only the first one is kept, the filter returns just that one. */
  lemma FilterKeepsFirstOfTwo(kept: Json, dropped: Json)
    requires KeepSection(kept) == Returns(true)
    requires KeepSection(dropped) == Returns(false)
    ensures FilterWebinarSections([kept, dropped]) == Returns([kept])
  {
    FilterSkips(dropped, []);
    assert [dropped] + [] == [dropped];
    FilterKeeps(kept, [dropped]);
    assert [kept] + [dropped] == [kept, dropped] && [kept] + [] == [kept];
  }

  /** Of three sections where only the middle one is kept, the filter returns just that one. */
  lemma FilterKeepsMiddle(first: Json, middle: Json, last: Json)
    requires KeepSection(first) == Returns(false)
    requires KeepSection(middle) == Returns(true)
    requires KeepSection(last) == Returns(false)
    ensures FilterWebinarSections([first, middle, last]) == Returns([middle])
  {
    FilterKeepsFirstOfTwo(middle, last);
    FilterSkips(first, [middle, last]);
    assert [first] + [middle, last] == [first, middle, last];
  }

  /** A section whose `id` has its own `toString` key makes the listing, and so the whole call, throw. */
  lemma UnprintableIdThrows(name: string, count: nat)
    ensures CalculateWebinarsCount(JArr([JObj(map["id" := JObj(map["toString" := JNum(0)]),
                                                  "name" := JStr(name),
                                                  "lectures" := JArr(seq(count, _ => JNum(1)))])])).Throws?
  {
    var section := JObj(map["id" := JObj(map["toString" := JNum(0)]),
                            "name" := JStr(name),
                            "lectures" := JArr(seq(count, _ => JNum(1)))]);
    assert !IdPrintable(section);
    assert [section][0] == section;
  }

  /** [Intro (2 lectures), Module 1 (3), Archived Q&A (1)] counts 3. */
  lemma IntroModuleArchivedExample()
    ensures CalculateWebinarsCount(JArr([NamedSection("Intro", 2), NamedSection("Module 1", 3),
                                         NamedSection("Archived Q&A", 1)])) == Returns(3)
  {
    NamedSectionVerdict("Intro", 2);
    IntroMatches();
    NamedSectionVerdict("Module 1", 3);
    ModuleOneMatchesNone();
    NamedSectionVerdict("Archived Q&A", 1);
    ArchivedMatches();
    OnlyMiddleKept(NamedSection("Intro", 2), NamedSection("Module 1", 3), NamedSection("Archived Q&A", 1));
  }
}
