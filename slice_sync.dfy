/**
 * The two derivations at the heart of the data explorer's slice control
 * (src/datascience-ui/data-explorer/sliceControl.tsx): from the slice text to
 * the axis/index dropdown slots, and from the slots back to the text.
 * They are stated here as functions of values; the component class in
 * slice_control.dfy runs them as loops over its state and is proved to
 * compute exactly these functions.
 */
module SliceSync {
  import opened Wrappers
  import opened Strings

  /**
   * What `sliceRegEx.exec` reveals about one comma-separated component, as
   * far as the control looks at it: a point index (group `Start` present,
   * `Stop` absent; `start` is what `parseInt` reads from `Start`), something
   * with range syntax (`StartRange` or `StopRange` defined), or anything else.
   */
  datatype Component = Point(start: int) | RangeLike | Other

  /**
   * The functions the control imports from its `./helpers` module. That module
   * is not part of this model, so they are given to the control as values and
   * nothing is assumed about them beyond their types.
   */
  datatype Helpers = Helpers(
    fullSliceExpression: seq<int> -> string,
    preselectedSliceExpression: seq<int> -> string,
    isValidSliceExpression: (string, seq<int>) -> bool,
    sliceRegEx: string -> Component)

  /** The number of dropdown slots for an array of `ndim` axes: `Math.max(ndim - 2, 1)`. */
  function SlotCount(ndim: nat): (k: nat)
    ensures k >= 1
    ensures ndim > 2 ==> k == ndim - 2
    ensures ndim <= 3 ==> k == 1
    ensures ndim >= 1 ==> k <= ndim
  {
    if ndim > 2 then ndim - 2 else 1
  }

  // ---------------------------------------------------------------------------
  // Text to slots (applyInputBoxToDropdowns)
  // ---------------------------------------------------------------------------

  /** `text.startsWith('[') && text.endsWith(']')`. */
  predicate Bracketed(text: string)
  {
    |text| > 0 && text[0] == '[' && text[|text| - 1] == ']'
  }

  /** `text.substring(1, text.length - 1).split(',')`: the components between the brackets. */
  function Components(text: string): (pieces: seq<string>)
    requires Bracketed(text)
    ensures |pieces| >= 1
    ensures Join(pieces, ",") == text[1..|text| - 1]
    ensures forall j :: 0 <= j < |pieces| ==> ',' !in pieces[j]
  {
    Split(text[1..|text| - 1], ',')
  }

  /** One `{ axis, index }` entry that the text-to-slots pass collects. */
  datatype Selection = Selection(axis: int, index: int)

  /** The point components among the first `n`, each with its position, in order of appearance. */
  function PointsUpTo(pieces: seq<string>, classify: string -> Component, n: nat): seq<Selection>
    requires n <= |pieces|
  {
    if n == 0 then
      []
    else
      var earlier := PointsUpTo(pieces, classify, n - 1);
      match classify(pieces[n - 1])
      case Point(start) => earlier + [Selection(n - 1, start)]
      case _ => earlier
  }

  /** How many of the first `n` components have range syntax (`numRangeObjects`). */
  function RangesUpTo(pieces: seq<string>, classify: string -> Component, n: nat): nat
    requires n <= |pieces|
  {
    if n == 0 then 0
    else RangesUpTo(pieces, classify, n - 1) + (if classify(pieces[n - 1]).RangeLike? then 1 else 0)
  }

  /**
   * The point components are listed exactly once each, by increasing position,
   * with the index the classifier read from them, and nothing else is listed.
   */
  lemma {:induction false} PointsInOrder(pieces: seq<string>, classify: string -> Component, n: nat)
    requires n <= |pieces|
    ensures var p := PointsUpTo(pieces, classify, n);
      && (forall k :: 0 <= k < |p| ==> 0 <= p[k].axis < n && classify(pieces[p[k].axis]) == Point(p[k].index))
      && (forall k1, k2 :: 0 <= k1 < k2 < |p| ==> p[k1].axis < p[k2].axis)
      && (forall j :: 0 <= j < n && classify(pieces[j]).Point? ==>
            exists k :: 0 <= k < |p| && p[k] == Selection(j, classify(pieces[j]).start))
    decreases n
  {
    if n > 0 {
      PointsInOrder(pieces, classify, n - 1);
      var earlier := PointsUpTo(pieces, classify, n - 1);
      var p := PointsUpTo(pieces, classify, n);
      if classify(pieces[n - 1]).Point? {
        assert p == earlier + [Selection(n - 1, classify(pieces[n - 1]).start)];
        assert p[|p| - 1] == Selection(n - 1, classify(pieces[n - 1]).start);
        forall j | 0 <= j < n && classify(pieces[j]).Point?
          ensures exists k :: 0 <= k < |p| && p[k] == Selection(j, classify(pieces[j]).start)
        {
          if j < n - 1 {
            var k :| 0 <= k < |earlier| && earlier[k] == Selection(j, classify(pieces[j]).start);
            assert p[k] == earlier[k];
          }
        }
      } else {
        assert p == earlier;
      }
    }
  }

  /** No component has range syntax exactly when the range counter stays zero. */
  lemma {:induction false} NoRanges(pieces: seq<string>, classify: string -> Component, n: nat)
    requires n <= |pieces|
    ensures RangesUpTo(pieces, classify, n) == 0 <==> forall j :: 0 <= j < n ==> !classify(pieces[j]).RangeLike?
    decreases n
  {
    if n > 0 {
      NoRanges(pieces, classify, n - 1);
    }
  }

  /** What one text-to-slots pass does to the slots. */
  datatype SlotUpdate =
    | Keep                              // the text is not bracketed: the slots are left as they are
    | Assign(selections: seq<Selection>) // slot i gets selections[i]
    | ClearAll                          // every slot's axis and index is unset

  /**
   * The effect of `applyInputBoxToDropdowns` on the slots, given the text, the
   * classifier and the number of axes. Slots are filled from the point
   * components in the order they appear in the text, and only when there is
   * no range component and exactly one point component per slot.
   */
  function TextToSlots(text: string, classify: string -> Component, ndim: nat): (u: SlotUpdate)
    ensures u.Keep? <==> !Bracketed(text)
    ensures Bracketed(text) ==>
      var pieces := Components(text);
      (u.Assign? <==>
        (forall j :: 0 <= j < |pieces| ==> !classify(pieces[j]).RangeLike?) &&
        |PointsUpTo(pieces, classify, |pieces|)| == SlotCount(ndim))
    ensures u.Assign? ==>
      var pieces := Components(text);
      var s := u.selections;
      && |s| == SlotCount(ndim)
      && (forall k :: 0 <= k < |s| ==> 0 <= s[k].axis < |pieces| && classify(pieces[s[k].axis]) == Point(s[k].index))
      && (forall k1, k2 :: 0 <= k1 < k2 < |s| ==> s[k1].axis < s[k2].axis)
      && (forall j :: 0 <= j < |pieces| && classify(pieces[j]).Point? ==>
            exists k :: 0 <= k < |s| && s[k] == Selection(j, classify(pieces[j]).start))
  {
    if !Bracketed(text) then
      Keep
    else
      var pieces := Components(text);
      var points := PointsUpTo(pieces, classify, |pieces|);
      PointsInOrder(pieces, classify, |pieces|);
      NoRanges(pieces, classify, |pieces|);
      if RangesUpTo(pieces, classify, |pieces|) == 0 && |points| == SlotCount(ndim) then
        Assign(points)
      else
        ClearAll
  }

  // ---------------------------------------------------------------------------
  // Slots to text (applyDropdownsToInputBox)
  // ---------------------------------------------------------------------------

  /** Slot `i` has both an axis and an index. */
  predicate Specified(axes: seq<Option<int>>, indices: seq<Option<int>>, i: int)
    requires 0 <= i < |axes| && i < |indices|
  {
    axes[i].Some? && indices[i].Some?
  }

  /**
   * `comps[axis] = s` on a JavaScript array: an index inside the array is
   * overwritten; an index past its end grows the array, leaving holes that
   * `join` writes as empty strings; a negative index is not an element.
   */
  function Place(comps: seq<string>, axis: int, s: string): (r: seq<string>)
    ensures axis < 0 ==> r == comps
    ensures 0 <= axis ==> |r| == (if axis < |comps| then |comps| else axis + 1) && r[axis] == s
    ensures forall j :: 0 <= j < |comps| && j != axis ==> r[j] == comps[j]
    ensures forall j :: |comps| <= j < |r| && j != axis ==> r[j] == ""
  {
    if axis < 0 then comps
    else if axis < |comps| then comps[axis := s]
    else comps + seq(axis - |comps|, _ => "") + [s]
  }

  /**
   * The components after the first `n` slots have been applied to the full
   * slice (`:` on every axis): each fully specified slot writes its index at
   * its axis.
   */
  function ComponentsFromSlots(ndim: nat, axes: seq<Option<int>>, indices: seq<Option<int>>, n: nat): (comps: seq<string>)
    requires n <= |axes| && n <= |indices|
  {
    if n == 0 then
      seq(ndim, _ => ":")
    else
      var earlier := ComponentsFromSlots(ndim, axes, indices, n - 1);
      if Specified(axes, indices, n - 1) then
        Place(earlier, axes[n - 1].value, IntToString(indices[n - 1].value))
      else
        earlier
  }

  /** One more slot: the components and the count after slot `n` from those before it. */
  lemma SlotStep(ndim: nat, axes: seq<Option<int>>, indices: seq<Option<int>>, n: nat)
    requires n < |axes| && n < |indices|
    ensures ComponentsFromSlots(ndim, axes, indices, n + 1) ==
      if axes[n].Some? && indices[n].Some? then Place(ComponentsFromSlots(ndim, axes, indices, n), axes[n].value, IntToString(indices[n].value))
      else ComponentsFromSlots(ndim, axes, indices, n)
    ensures SpecifiedCount(axes, indices, n + 1) ==
      SpecifiedCount(axes, indices, n) + (if axes[n].Some? && indices[n].Some? then 1 else 0)
  {
  }

  /** `numSpecifiedIndices` after the first `n` slots: it reaches `n` exactly when all of them are specified. */
  function SpecifiedCount(axes: seq<Option<int>>, indices: seq<Option<int>>, n: nat): (c: nat)
    requires n <= |axes| && n <= |indices|
    ensures c <= n
    ensures c == n <==> forall i :: 0 <= i < n ==> Specified(axes, indices, i)
  {
    if n == 0 then 0
    else SpecifiedCount(axes, indices, n - 1) + (if Specified(axes, indices, n - 1) then 1 else 0)
  }

  /** `'[' + comps.join(', ') + ']'`. */
  function Render(comps: seq<string>): (text: string)
    ensures Bracketed(text)
    ensures text[1..|text| - 1] == Join(comps, ", ")
  {
    "[" + Join(comps, ", ") + "]"
  }

  /** With every specified slot naming an axis of the array, the components stay exactly `ndim`. */
  lemma {:induction false} ComponentsLength(ndim: nat, axes: seq<Option<int>>, indices: seq<Option<int>>, n: nat)
    requires n <= |axes| && n <= |indices|
    requires forall i :: 0 <= i < n && Specified(axes, indices, i) ==> 0 <= axes[i].value < ndim
    ensures |ComponentsFromSlots(ndim, axes, indices, n)| == ndim
    decreases n
  {
    if n > 0 {
      ComponentsLength(ndim, axes, indices, n - 1);
    }
  }

  /** An axis that none of the first `n` specified slots names still holds `:`. */
  lemma {:induction false} ComponentsUnnamed(ndim: nat, axes: seq<Option<int>>, indices: seq<Option<int>>, n: nat, j: nat)
    requires n <= |axes| && n <= |indices|
    requires forall i :: 0 <= i < n && Specified(axes, indices, i) ==> 0 <= axes[i].value < ndim
    requires j < ndim
    requires forall i :: 0 <= i < n && Specified(axes, indices, i) ==> axes[i].value != j
    ensures |ComponentsFromSlots(ndim, axes, indices, n)| == ndim
    ensures ComponentsFromSlots(ndim, axes, indices, n)[j] == ":"
    decreases n
  {
    ComponentsLength(ndim, axes, indices, n);
    if n > 0 {
      ComponentsUnnamed(ndim, axes, indices, n - 1, j);
    }
  }

  /** Applying slot `n - 1` changes at most the component at its axis. */
  lemma ComponentsStepAt(ndim: nat, axes: seq<Option<int>>, indices: seq<Option<int>>, n: nat, j: nat)
    requires 0 < n <= |axes| && n <= |indices|
    requires |ComponentsFromSlots(ndim, axes, indices, n - 1)| == ndim && j < ndim
    requires Specified(axes, indices, n - 1) ==> 0 <= axes[n - 1].value < ndim
    ensures ComponentsFromSlots(ndim, axes, indices, n)[j] ==
      if Specified(axes, indices, n - 1) && axes[n - 1].value == j then IntToString(indices[n - 1].value)
      else ComponentsFromSlots(ndim, axes, indices, n - 1)[j]
  {
  }

  /** Slot `i`'s index stands at its axis when no later specified slot among the first `n` names that axis. */
  lemma {:induction false} ComponentsLastWins(ndim: nat, axes: seq<Option<int>>, indices: seq<Option<int>>, n: nat, i: nat)
    requires n <= |axes| && n <= |indices|
    requires forall k :: 0 <= k < n && Specified(axes, indices, k) ==> 0 <= axes[k].value < ndim
    requires i < n && Specified(axes, indices, i)
    requires forall later :: i < later < n && Specified(axes, indices, later) ==> axes[later] != axes[i]
    ensures |ComponentsFromSlots(ndim, axes, indices, n)| == ndim
    ensures ComponentsFromSlots(ndim, axes, indices, n)[axes[i].value] == IntToString(indices[i].value)
    decreases n
  {
    ComponentsLength(ndim, axes, indices, n);
    ComponentsLength(ndim, axes, indices, n - 1);
    var a := axes[i].value;
    ComponentsStepAt(ndim, axes, indices, n, a);
    if i < n - 1 {
      ComponentsLastWins(ndim, axes, indices, n - 1, i);
      if Specified(axes, indices, n - 1) {
        assert axes[n - 1] != axes[i];
      }
    }
  }

  /**
   * When every specified slot names an axis of the array, the derived text has
   * exactly `ndim` components: an axis no specified slot names stays `:`, and
   * a named axis holds the decimal index of the LAST specified slot naming it.
   */
  lemma {:induction false} ComponentsFromSlotsInRange(ndim: nat, axes: seq<Option<int>>, indices: seq<Option<int>>, n: nat)
    requires n <= |axes| && n <= |indices|
    requires forall i :: 0 <= i < n && Specified(axes, indices, i) ==> 0 <= axes[i].value < ndim
    ensures var comps := ComponentsFromSlots(ndim, axes, indices, n);
      && |comps| == ndim
      && (forall j :: 0 <= j < ndim && (forall i :: 0 <= i < n && Specified(axes, indices, i) ==> axes[i].value != j) ==>
            comps[j] == ":")
      && (forall i :: (0 <= i < n && Specified(axes, indices, i) &&
            (forall later :: i < later < n && Specified(axes, indices, later) ==> axes[later] != axes[i])) ==>
            comps[axes[i].value] == IntToString(indices[i].value))
  {
    ComponentsLength(ndim, axes, indices, n);
    forall j | 0 <= j < ndim && (forall i :: 0 <= i < n && Specified(axes, indices, i) ==> axes[i].value != j)
      ensures ComponentsFromSlots(ndim, axes, indices, n)[j] == ":"
    {
      ComponentsUnnamed(ndim, axes, indices, n, j);
    }
    forall i | 0 <= i < n && Specified(axes, indices, i) &&
        (forall later :: i < later < n && Specified(axes, indices, later) ==> axes[later] != axes[i])
      ensures ComponentsFromSlots(ndim, axes, indices, n)[axes[i].value] == IntToString(indices[i].value)
    {
      ComponentsLastWins(ndim, axes, indices, n, i);
    }
  }

  // ---------------------------------------------------------------------------
  // Round trip
  // ---------------------------------------------------------------------------

  /**
   * The slice regular expression reads the components the control writes for
   * these slots the way the control means them: `:` (with or without the space
   * `join` puts in front) is neither a point nor a range, and the decimal text
   * of each slot's index is a point with that index. Only the slots' own
   * indices are constrained, so a classifier built on `parseInt` meets it
   * whenever those indices are integers JavaScript prints and reads exactly.
   */
  ghost predicate ReadsRenderedComponents(classify: string -> Component, indices: seq<Option<int>>)
  {
    && classify(":") == Other
    && classify(" :") == Other
    && (forall i :: 0 <= i < |indices| && indices[i].Some? ==>
          && classify(IntToString(indices[i].value)) == Point(indices[i].value)
          && classify(" " + IntToString(indices[i].value)) == Point(indices[i].value))
  }

  /** The selections held by slots that all have an axis and an index. */
  function SelectionsOf(axes: seq<Option<int>>, indices: seq<Option<int>>): (sels: seq<Selection>)
    requires |axes| == |indices|
    requires forall i :: 0 <= i < |axes| ==> axes[i].Some? && indices[i].Some?
    ensures |sels| == |axes|
    ensures forall i :: 0 <= i < |sels| ==> sels[i] == Selection(axes[i].value, indices[i].value)
  {
    seq(|axes|, i requires 0 <= i < |axes| => Selection(axes[i].value, indices[i].value))
  }

  /** The selections name their axes in strictly increasing order. */
  ghost predicate Increasing(sels: seq<Selection>)
  {
    forall i, j :: 0 <= i < j < |sels| ==> sels[i].axis < sels[j].axis
  }

  /** Some selection names axis `j`. */
  ghost predicate AxisChosen(sels: seq<Selection>, j: int)
  {
    exists i :: 0 <= i < |sels| && sels[i].axis == j
  }

  /** The classifier sees a point exactly at the axes of `sels`, with their indices. */
  ghost predicate PointsExactlyAt(pieces: seq<string>, classify: string -> Component, sels: seq<Selection>)
  {
    && (forall i :: 0 <= i < |sels| ==> 0 <= sels[i].axis < |pieces| && classify(pieces[sels[i].axis]) == Point(sels[i].index))
    && (forall j :: 0 <= j < |pieces| && !AxisChosen(sels, j) ==> !classify(pieces[j]).Point?)
  }

  /**
   * In an increasing list, the selections below a bound are a prefix: a chosen
   * axis `n - 1` is the last of them, and the selections below `n - 1` are the
   * ones before it.
   */
  lemma LastBelow(sels: seq<Selection>, n: int, m: nat, i: nat)
    requires Increasing(sels) && m <= |sels| && i < |sels|
    requires forall k :: 0 <= k < m ==> sels[k].axis < n
    requires forall k :: m <= k < |sels| ==> sels[k].axis >= n
    requires sels[i].axis == n - 1
    ensures i == m - 1
    ensures forall k :: 0 <= k < m - 1 ==> sels[k].axis < n - 1
    ensures forall k :: m - 1 <= k < |sels| ==> sels[k].axis >= n - 1
  {
    assert i < m;
    assert sels[m - 1].axis <= n - 1;
  }

  /** A point at component `n - 1` carrying the next selection extends the points seen so far by that selection. */
  lemma PointsStepChosen(pieces: seq<string>, classify: string -> Component, sels: seq<Selection>, n: nat, m: nat)
    requires 0 < n <= |pieces| && 0 < m <= |sels|
    requires classify(pieces[n - 1]) == Point(sels[m - 1].index) && sels[m - 1].axis == n - 1
    requires PointsUpTo(pieces, classify, n - 1) == sels[..m - 1]
    ensures PointsUpTo(pieces, classify, n) == sels[..m]
  {
  }

  /** With points exactly at the (increasing) axes of `sels`, the points among the first `n` components are a prefix of `sels`. */
  lemma {:induction false} PointsOfSorted(pieces: seq<string>, classify: string -> Component, sels: seq<Selection>, n: nat, m: nat)
    requires n <= |pieces| && m <= |sels|
    requires Increasing(sels) && PointsExactlyAt(pieces, classify, sels)
    requires forall k :: 0 <= k < m ==> sels[k].axis < n
    requires forall k :: m <= k < |sels| ==> sels[k].axis >= n
    ensures PointsUpTo(pieces, classify, n) == sels[..m]
    decreases n
  {
    if n == 0 {
      // No component is examined, and no selection has a negative axis, so `m` is 0.
    } else if AxisChosen(sels, n - 1) {
      var i :| 0 <= i < |sels| && sels[i].axis == n - 1;
      LastBelow(sels, n, m, i);
      PointsOfSorted(pieces, classify, sels, n - 1, m - 1);
      PointsStepChosen(pieces, classify, sels, n, m);
    } else {
      PointsOfSorted(pieces, classify, sels, n - 1, m);
    }
  }

  /** The components derived from fully specified slots with increasing axes: an index at each chosen axis, `:` elsewhere. */
  lemma ChosenComponents(ndim: nat, axes: seq<Option<int>>, indices: seq<Option<int>>)
    requires |axes| == |indices|
    requires forall i :: 0 <= i < |axes| ==> axes[i].Some? && indices[i].Some? && 0 <= axes[i].value < ndim
    requires forall i, j :: 0 <= i < j < |axes| ==> axes[i].value < axes[j].value
    ensures var comps := ComponentsFromSlots(ndim, axes, indices, |axes|);
      var sels := SelectionsOf(axes, indices);
      && |comps| == ndim
      && (forall i :: 0 <= i < |sels| ==> comps[sels[i].axis] == IntToString(sels[i].index))
      && (forall j :: 0 <= j < ndim && !AxisChosen(sels, j) ==> comps[j] == ":")
  {
    var k := |axes|;
    var sels := SelectionsOf(axes, indices);
    ComponentsFromSlotsInRange(ndim, axes, indices, k);
    forall i | 0 <= i < k
      ensures forall later :: i < later < k && Specified(axes, indices, later) ==> axes[later] != axes[i]
    {
    }
    forall j | 0 <= j < ndim && !AxisChosen(sels, j)
      ensures forall i :: 0 <= i < k && Specified(axes, indices, i) ==> axes[i].value != j
    {
      forall i | 0 <= i < k && Specified(axes, indices, i) ensures axes[i].value != j {
        assert sels[i].axis == axes[i].value;
      }
    }
  }

  /** Splitting the rendered text at commas gives the components back, each but the first after a space. */
  lemma PiecesOfRender(comps: seq<string>)
    requires |comps| >= 1
    requires forall j :: 0 <= j < |comps| ==> ',' !in comps[j] && comps[j] != []
    ensures Components(Render(comps)) == [comps[0]] + Prefixed(comps[1..], " ")
  {
    var pieces := [comps[0]] + Prefixed(comps[1..], " ");
    forall j | 0 <= j < |pieces| ensures ',' !in pieces[j] {
      if j > 0 {
        assert pieces[j] == " " + comps[j];
      }
    }
    JoinCommaSpace(comps);
    SplitJoin(pieces, ',');
  }

  /** How the classifier reads the rendered components once `join` has put a space before all but the first. */
  lemma ReadBack(comps: seq<string>, classify: string -> Component, indices: seq<Option<int>>)
    requires |comps| >= 1
    requires ReadsRenderedComponents(classify, indices)
    ensures var pieces := [comps[0]] + Prefixed(comps[1..], " ");
      && |pieces| == |comps|
      && (forall j :: 0 <= j < |comps| && comps[j] == ":" ==> classify(pieces[j]) == Other)
      && (forall j, i :: 0 <= j < |comps| && 0 <= i < |indices| && indices[i].Some? && comps[j] == IntToString(indices[i].value)
            ==> classify(pieces[j]) == Point(indices[i].value))
  {
    var pieces := [comps[0]] + Prefixed(comps[1..], " ");
    forall j | 0 < j < |comps| ensures pieces[j] == " " + comps[j] {
    }
    assert " " + ":" == " :";
  }

  /**
   * Components holding each selection's index at its axis and `:` everywhere
   * else are read back, after `join`'s spaces, as points exactly at the
   * selections' axes and as no range.
   */
  lemma ClassifyPieces(comps: seq<string>, classify: string -> Component, indices: seq<Option<int>>, sels: seq<Selection>)
    requires |comps| >= 1 && |sels| == |indices|
    requires forall i :: 0 <= i < |sels| ==>
      && indices[i] == Some(sels[i].index)
      && 0 <= sels[i].axis < |comps|
      && comps[sels[i].axis] == IntToString(sels[i].index)
    requires forall j :: 0 <= j < |comps| && !AxisChosen(sels, j) ==> comps[j] == ":"
    requires ReadsRenderedComponents(classify, indices)
    ensures var pieces := [comps[0]] + Prefixed(comps[1..], " ");
      && PointsExactlyAt(pieces, classify, sels)
      && (forall j :: 0 <= j < |pieces| ==> !classify(pieces[j]).RangeLike?)
  {
    ReadBack(comps, classify, indices);
    var pieces := [comps[0]] + Prefixed(comps[1..], " ");
    forall i | 0 <= i < |sels| ensures classify(pieces[sels[i].axis]) == Point(sels[i].index) {
      assert comps[sels[i].axis] == IntToString(indices[i].value);
    }
    forall j | 0 <= j < |pieces| ensures !classify(pieces[j]).RangeLike? {
      if AxisChosen(sels, j) {
        var i :| 0 <= i < |sels| && sels[i].axis == j;
      }
    }
  }

  /**
   * In the text derived from fully specified slots with increasing axes, the
   * classifier sees a point exactly at each chosen axis and no range anywhere.
   */
  lemma RenderedClassification(ndim: nat, axes: seq<Option<int>>, indices: seq<Option<int>>, classify: string -> Component)
    requires |axes| == |indices| && |axes| >= 1
    requires forall i :: 0 <= i < |axes| ==> axes[i].Some? && indices[i].Some? && 0 <= axes[i].value < ndim
    requires forall i, j :: 0 <= i < j < |axes| ==> axes[i].value < axes[j].value
    requires ReadsRenderedComponents(classify, indices)
    ensures var pieces := Components(Render(ComponentsFromSlots(ndim, axes, indices, |axes|)));
      && PointsExactlyAt(pieces, classify, SelectionsOf(axes, indices))
      && (forall j :: 0 <= j < |pieces| ==> !classify(pieces[j]).RangeLike?)
  {
    var k := |axes|;
    var sels := SelectionsOf(axes, indices);
    var comps := ComponentsFromSlots(ndim, axes, indices, k);
    ChosenComponents(ndim, axes, indices);
    assert ndim >= 1 by {
      assert 0 <= axes[0].value < ndim;
    }
    PiecesOfRender(comps);
    ClassifyPieces(comps, classify, indices, sels);
  }

  /**
   * Deriving the text from fully specified slots whose axes are distinct
   * array axes chosen in increasing slot order, and then deriving the slots
   * from that text, gives the same selections back.
   */
  lemma SlotsTextRoundTrip(ndim: nat, axes: seq<Option<int>>, indices: seq<Option<int>>, classify: string -> Component)
    requires |axes| == SlotCount(ndim) && |indices| == SlotCount(ndim)
    requires forall i :: 0 <= i < |axes| ==> axes[i].Some? && indices[i].Some? && 0 <= axes[i].value < ndim
    requires forall i, j :: 0 <= i < j < |axes| ==> axes[i].value < axes[j].value
    requires ReadsRenderedComponents(classify, indices)
    ensures TextToSlots(Render(ComponentsFromSlots(ndim, axes, indices, |axes|)), classify, ndim)
         == Assign(SelectionsOf(axes, indices))
  {
    var k := |axes|;
    var sels := SelectionsOf(axes, indices);
    var text := Render(ComponentsFromSlots(ndim, axes, indices, k));
    var pieces := Components(text);
    RenderedClassification(ndim, axes, indices, classify);
    assert Increasing(sels);
    PointsOfSorted(pieces, classify, sels, |pieces|, k);
    assert sels[..k] == sels;
    NoRanges(pieces, classify, |pieces|);
  }
}
