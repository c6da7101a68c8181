/** `SelectedElementsStore.filterSelectedElements` (src/stores/selectedElementsStore.ts): the
    outline elements whose symbol range meets one of the editor's selections. Whether a selection
    meets a range (`selection.intersection(range)` being defined) is left to the host and is a
    parameter here. */
module SelectedElements {
  import opened Wrappers
  import opened Types
  import opened Sequences

  /** Some selection meets the range. */
  predicate Hits(selections: seq<Range>, range: Range, intersects: (Range, Range) -> bool)
  {
    exists i | 0 <= i < |selections| :: intersects(selections[i], range)
  }

  /** What the filter keeps: nothing without selections; otherwise the elements some selection
      meets, in order. */
  function Selected<T>(selections: Option<seq<Range>>, elements: seq<T>, rangeOf: T -> Range,
                       intersects: (Range, Range) -> bool): seq<T>
  {
    if selections.None? || elements == [] then []
    else
      var last := elements[|elements| - 1];
      Selected(selections, elements[..|elements| - 1], rangeOf, intersects)
        + (if Hits(selections.value, rangeOf(last), intersects) then [last] else [])
  }

  /** The callback's loop over the selections, returning as soon as one meets the range. */
  method AnySelectionIntersects(selections: seq<Range>, range: Range, intersects: (Range, Range) -> bool)
    returns (found: bool)
    ensures found == Hits(selections, range, intersects)
  {
    var i := 0;
    while i < |selections|
      invariant 0 <= i <= |selections|
      invariant forall j | 0 <= j < i :: !intersects(selections[j], range)
    {
      if intersects(selections[i], range) {
        return true;
      }
      i := i + 1;
    }
    return false;
  }

  /** `filterSelectedElements(selections, elements)` */
  method FilterSelectedElements<T>(selections: Option<seq<Range>>, elements: seq<T>, rangeOf: T -> Range,
                                   intersects: (Range, Range) -> bool)
    returns (r: seq<T>)
    ensures r == Selected(selections, elements, rangeOf, intersects)
  {
    if selections.None? {
      return [];
    }
    r := [];
    var i := 0;
    while i < |elements|
      invariant 0 <= i <= |elements|
      invariant r == Selected(selections, elements[..i], rangeOf, intersects)
    {
      var keep := AnySelectionIntersects(selections.value, rangeOf(elements[i]), intersects);
      SliceSnoc(elements, i);
      DropLastOfSnoc(elements[..i], elements[i]);
      if keep {
        r := r + [elements[i]];
      } else {
        AppendEmpty(r);
      }
      i := i + 1;
    }
    assert elements[..i] == elements;
  }

  /** An element is kept exactly when there are selections and one of them meets its range. */
  lemma {:induction false} SelectedMembers<T>(selections: Option<seq<Range>>, elements: seq<T>, rangeOf: T -> Range,
                                              intersects: (Range, Range) -> bool, x: T)
    ensures x in Selected(selections, elements, rangeOf, intersects) <==>
              selections.Some? && x in elements && Hits(selections.value, rangeOf(x), intersects)
  {
    if selections.Some? && elements != [] {
      var prefix := elements[..|elements| - 1];
      SelectedMembers(selections, prefix, rangeOf, intersects, x);
      SplitLast(elements);
    }
  }

  /** `a` is `b` with some elements left out. */
  ghost predicate SubsequenceOf<T>(a: seq<T>, b: seq<T>)
    decreases |b|
  {
    if a == [] then true
    else if b == [] then false
    else (a[|a| - 1] == b[|b| - 1] && SubsequenceOf(a[..|a| - 1], b[..|b| - 1])) || SubsequenceOf(a, b[..|b| - 1])
  }

  /** The kept elements keep their order. */
  lemma {:induction false} SelectedIsSubsequence<T>(selections: Option<seq<Range>>, elements: seq<T>, rangeOf: T -> Range,
                                                    intersects: (Range, Range) -> bool)
    ensures SubsequenceOf(Selected(selections, elements, rangeOf, intersects), elements)
  {
    if selections.Some? && elements != [] {
      var prefix, last := elements[..|elements| - 1], elements[|elements| - 1];
      var kept := Selected(selections, prefix, rangeOf, intersects);
      SelectedIsSubsequence(selections, prefix, rangeOf, intersects);
      if Hits(selections.value, rangeOf(last), intersects) {
        DropLastOfSnoc(kept, last);
      } else {
        AppendEmpty(kept);
      }
    }
  }

  /** With no selections, or an empty list of them, nothing is kept. */
  lemma NothingSelected<T>(elements: seq<T>, rangeOf: T -> Range, intersects: (Range, Range) -> bool)
    ensures Selected(None, elements, rangeOf, intersects) == []
    ensures Selected(Some([]), elements, rangeOf, intersects) == []
  {
    var kept := Selected(Some([]), elements, rangeOf, intersects);
    if kept != [] {
      SelectedMembers(Some([]), elements, rangeOf, intersects, kept[0]);
    }
  }
}
