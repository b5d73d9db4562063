/**
 * The guards around the counter animations: `validateElements` looks up the
 * four counter elements by id, `safeCountUp` refuses to animate a missing
 * element or a non-numeric value, and the final tally counts the animations
 * that started.
 */
module Animation {
  import opened JsValues

  /** The ids of the counter elements, in the order `validateElements` checks them. */
  const ElementIds: seq<string> := ["courses", "students", "webinars", "insiders"]

  /** What checking one id adds to the report: the id itself when the document lacks it. */
  function Report(id: string, document: set<string>): seq<string> {
    if id in document then [] else [id]
  }

  /** The ids among `ids` that the document lacks, in the order of `ids`. */
  function MissingAmong(ids: seq<string>, document: set<string>): seq<string>
    decreases |ids|
  {
    if ids == [] then [] else MissingAmong(ids[..|ids| - 1], document) + Report(ids[|ids| - 1], document)
  }

  /** An id is reported missing exactly when it is one of the ids and the document lacks it. */
  lemma {:induction false} MissingAmongMembers(ids: seq<string>, document: set<string>)
    ensures forall id :: id in MissingAmong(ids, document) <==> id in ids && id !in document
    ensures |MissingAmong(ids, document)| <= |ids|
    ensures MissingAmong(ids, document) == [] <==> forall id :: id in ids ==> id in document
    decreases |ids|
  {
    if ids != [] {
      var init, last := ids[..|ids| - 1], ids[|ids| - 1];
      MissingAmongMembers(init, document);
      assert ids == init + [last];
      assert forall id :: id in ids <==> id in init || id == last;
    }
  }

  /** Checking one more id appends it to the report exactly when the document lacks it. */
  lemma MissingAmongSnoc(ids: seq<string>, id: string, document: set<string>)
    ensures MissingAmong(ids + [id], document) == MissingAmong(ids, document) + Report(id, document)
  {
    assert (ids + [id])[..|ids|] == ids;
  }

  /** Four ids are reported in their own order, each one when the document lacks it. */
  lemma MissingAmongFour(a: string, b: string, c: string, d: string, document: set<string>)
    ensures MissingAmong([a, b, c, d], document) ==
              Report(a, document) + Report(b, document) + Report(c, document) + Report(d, document)
  {
    var ra, rb, rc, rd := Report(a, document), Report(b, document), Report(c, document), Report(d, document);
    assert [a, b, c, d][..3] == [a, b, c];
    assert [a, b, c][..2] == [a, b];
    assert [a, b][..1] == [a];
    assert [a][..0] == [];
    assert MissingAmong([a], document) == [] + ra;
    assert MissingAmong([a, b], document) == [] + ra + rb;
    assert MissingAmong([a, b, c], document) == [] + ra + rb + rc;
    assert MissingAmong([a, b, c, d], document) == [] + ra + rb + rc + rd;
    assert [] + ra == ra;
  }

  /** For the four counters the report lists the missing ones in the fixed order. */
  lemma MissingCountersInOrder(document: set<string>)
    ensures MissingAmong(ElementIds, document) ==
              Report("courses", document) + Report("students", document) +
              Report("webinars", document) + Report("insiders", document)
  {
    MissingAmongFour("courses", "students", "webinars", "insiders", document);
  }

  /**
   * `validateElements()`: looks each counter up and collects the missing ids;
   * `ok` is false exactly when some counter element is absent.
   */
  method ValidateElements(document: set<string>) returns (ok: bool, missing: seq<string>)
    ensures missing == MissingAmong(ElementIds, document)
    ensures ok <==> missing == []
    ensures ok <==> forall id :: id in ElementIds ==> id in document
  {
    missing := [];
    for i := 0 to |ElementIds|
      invariant missing == MissingAmong(ElementIds[..i], document)
    {
      assert ElementIds[..i + 1] == ElementIds[..i] + [ElementIds[i]];
      MissingAmongSnoc(ElementIds[..i], ElementIds[i], document);
      if ElementIds[i] !in document {
        missing := missing + [ElementIds[i]];
      }
    }
    assert ElementIds[..|ElementIds|] == ElementIds;
    MissingAmongMembers(ElementIds, document);
    ok := |missing| == 0;
  }

  /**
   * The guard of `safeCountUp(element, value, label)`: an absent element or a
   * value that is not a number is refused; otherwise the animation starts
   * unless the counter library throws (`libraryStarts` false).
   */
  function SafeCountUp(elementPresent: bool, value: Json, libraryStarts: bool): (started: bool)
    ensures started ==> elementPresent && value.JNum?
    ensures started ==> libraryStarts
    ensures elementPresent && value.JNum? && libraryStarts ==> started
  {
    elementPresent && value.JNum? && libraryStarts
  }

  /** `Object.values(flags).filter(Boolean).length`. */
  function CountTrue(flags: seq<bool>): nat
    decreases |flags|
  {
    if flags == [] then 0 else (if flags[0] then 1 else 0) + CountTrue(flags[1..])
  }

  /** The tally is at most the number of flags; it is full exactly when every flag is set, and 0 exactly when none is. */
  lemma {:induction false} CountTrueBounds(flags: seq<bool>)
    ensures CountTrue(flags) <= |flags|
    ensures CountTrue(flags) == |flags| <==> forall i :: 0 <= i < |flags| ==> flags[i]
    ensures CountTrue(flags) == 0 <==> forall i :: 0 <= i < |flags| ==> !flags[i]
    decreases |flags|
  {
    if flags != [] {
      var tail := flags[1..];
      CountTrueBounds(tail);
      assert forall i :: 1 <= i < |flags| ==> flags[i] == tail[i - 1];
      if !flags[0] {
        assert CountTrue(flags) == CountTrue(tail) < |flags|;
      }
      if forall i :: 0 <= i < |tail| ==> tail[i] {
        assert flags[0] ==> forall i :: 0 <= i < |flags| ==> flags[i];
      }
      if forall i :: 0 <= i < |tail| ==> !tail[i] {
        assert !flags[0] ==> forall i :: 0 <= i < |flags| ==> !flags[i];
      }
    }
  }
}
