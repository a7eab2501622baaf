/**
 * The data explorer's slice control (src/datascience-ui/data-explorer/sliceControl.tsx)
 * as a class whose fields are the component's state.
 *
 * The component keeps the free-text slice `inputValue` and `max(ndim - 2, 1)`
 * dropdown slots (`selectedAxisN` / `selectedIndexN`) in step, and calls its
 * caller's `handleSliceRequest` when a new slice should take effect. React's
 * `setState` becomes field assignment, and the bodies that the component defers
 * with `setTimeout` run as a derive step at the end of the handler that
 * scheduled them, after the handler's own state update.
 */
module DataExplorer {
  import opened Wrappers
  import opened Strings
  import opened SliceSync

  /** One entry of a dropdown's option list: `{ key, text, disabled }`. */
  datatype DropdownOption = DropdownOption(key: int, text: string, disabled: bool)

  class SliceControl {
    /** `props.originalVariableShape`: the extent of each axis of the array being viewed. */
    const shape: seq<int>
    /** The functions imported from `./helpers`. */
    const helpers: Helpers
    /** `selectedAxis0`, `selectedAxis1`, ...: the axis each slot narrows, if any. */
    const axes: array<Option<int>>
    /** `selectedIndex0`, `selectedIndex1`, ...: the index each slot selects, if any. */
    const indices: array<Option<int>>

    /** The text in the slice box. */
    var inputValue: string
    /** Whether the "Slice Data" checkbox is ticked. */
    var isEnabled: bool
    /** `props.sliceExpression`: the slice the caller has in effect, held by the caller. */
    var sliceExpression: Option<string>
    /** Every `handleSliceRequest({ slice })` made so far; `None` asks for no slicing. */
    ghost var requests: seq<Option<string>>

    /** One axis slot and one index slot per dropdown row, stored in two different arrays. */
    ghost predicate Valid()
      reads this
    {
      && axes.Length == SlotCount(|shape|)
      && indices.Length == SlotCount(|shape|)
      && axes != indices
    }

    /** `fullSliceExpression(shape)`: the expression that slices nothing. */
    function FullSlice(): string
    {
      helpers.fullSliceExpression(shape)
    }

    /** Every slot has both an axis and an index. */
    predicate AllSlotsSpecified()
      reads this, axes, indices
      requires Valid()
    {
      forall i :: 0 <= i < axes.Length ==> Specified(axes[..], indices[..], i)
    }

    /** The expression the slots describe, as `applyDropdownsToInputBox` writes it. */
    function DerivedExpression(): string
      reads this, axes, indices
      requires Valid()
    {
      Render(ComponentsFromSlots(|shape|, axes[..], indices[..], axes.Length))
    }

    /** `applyDropdownsToInputBox` publishes `expression` only when all three of its conditions hold. */
    predicate ShouldPublish(expression: string)
      reads this, axes, indices
      requires Valid()
    {
      AllSlotsSpecified() && sliceExpression != Some(expression) && expression != FullSlice()
    }

    /** The slots after `applyInputBoxToDropdowns` has read `inputValue`. */
    twostate predicate SlotsFollowText()
      reads this, axes, indices
      requires Valid()
    {
      match TextToSlots(inputValue, helpers.sliceRegEx, |shape|)
      case Keep => axes[..] == old(axes[..]) && indices[..] == old(indices[..])
      case Assign(sels) =>
        forall i :: 0 <= i < axes.Length ==> axes[i] == Some(sels[i].axis) && indices[i] == Some(sels[i].index)
      case ClearAll =>
        forall i :: 0 <= i < axes.Length ==> axes[i] == None && indices[i] == None
    }

    /** The new component: disabled, showing the preselected slice, with no slot set and no request made. */
    constructor (shape: seq<int>, helpers: Helpers, sliceExpression: Option<string>)
      ensures Valid() && fresh(axes) && fresh(indices)
      ensures this.shape == shape && this.helpers == helpers && this.sliceExpression == sliceExpression
      ensures !isEnabled
      ensures inputValue == helpers.preselectedSliceExpression(shape)
      ensures forall i :: 0 <= i < axes.Length ==> axes[i] == None && indices[i] == None
      ensures requests == []
    {
      this.shape := shape;
      this.helpers := helpers;
      this.sliceExpression := sliceExpression;
      var numDropdowns := SlotCount(|shape|);
      axes := new Option<int>[numDropdowns](_ => None);
      indices := new Option<int>[numDropdowns](_ => None);
      isEnabled := false;
      inputValue := helpers.preselectedSliceExpression(shape);
      requests := [];
    }

    /** The caller renders the component with a new `sliceExpression` prop. */
    method ReceiveSliceExpression(expression: Option<string>)
      modifies this`sliceExpression
      ensures sliceExpression == expression
    {
      sliceExpression := expression;
    }

    /** The handler of slot `slot`'s index dropdown: store the chosen key, then derive the text. */
    method OnIndexSelected(slot: nat, key: Option<int>)
      requires Valid() && slot < indices.Length
      modifies indices, this`inputValue, this`requests
      ensures indices[..] == old(indices[..])[slot := key]
      ensures var expression := DerivedExpression();
        && inputValue == (if ShouldPublish(expression) then expression else old(inputValue))
        && requests == old(requests) + (if ShouldPublish(expression) then [Some(expression)] else [])
    {
      indices[slot] := key;
      ApplyDropdownsToInputBox();
    }

    /** The handler of slot `slot`'s axis dropdown: store the chosen key, then derive the text. */
    method OnAxisSelected(slot: nat, key: Option<int>)
      requires Valid() && slot < axes.Length
      modifies axes, this`inputValue, this`requests
      ensures axes[..] == old(axes[..])[slot := key]
      ensures var expression := DerivedExpression();
        && inputValue == (if ShouldPublish(expression) then expression else old(inputValue))
        && requests == old(requests) + (if ShouldPublish(expression) then [Some(expression)] else [])
    {
      axes[slot] := key;
      ApplyDropdownsToInputBox();
    }

    /**
     * The checkbox handler. Enabling requests the current text, unvalidated,
     * when it is neither the slice in effect nor the full slice; disabling
     * requests no slicing unless the text is the full slice. Either way the
     * slots are then derived from the text.
     */
    method ToggleEnablement()
      requires Valid()
      modifies this`isEnabled, this`requests, axes, indices
      ensures isEnabled == !old(isEnabled)
      ensures !old(isEnabled) ==>
        requests == old(requests) +
          (if inputValue != FullSlice() && sliceExpression != Some(inputValue) then [Some(inputValue)] else [])
      ensures old(isEnabled) ==> requests == old(requests) + (if inputValue != FullSlice() then [None] else [])
      ensures SlotsFollowText()
    {
      var willBeEnabled := !isEnabled;
      var fullSlice := FullSlice();
      if willBeEnabled {
        if Some(inputValue) != sliceExpression && inputValue != fullSlice {
          requests := requests + [Some(inputValue)];
        }
      } else {
        if inputValue != fullSlice {
          requests := requests + [None];
        }
      }
      isEnabled := willBeEnabled;
      ApplyInputBoxToDropdowns();
    }

    /** The text box handler: the box shows exactly what was typed, with no check and no request. */
    method HandleChange(newValue: Option<string>)
      modifies this`inputValue
      ensures inputValue == newValue.GetOr("")
    {
      inputValue := newValue.GetOr("");
    }

    /**
     * The form's submit handler: a valid text that differs from the slice in
     * effect is requested and the slots are derived from it; anything else
     * changes nothing.
     */
    method HandleSubmit()
      requires Valid()
      modifies this`requests, axes, indices
      ensures var submitted := sliceExpression != Some(inputValue) && helpers.isValidSliceExpression(inputValue, shape);
        && requests == old(requests) + (if submitted then [Some(inputValue)] else [])
        && (submitted ==> SlotsFollowText())
        && (!submitted ==> axes[..] == old(axes[..]) && indices[..] == old(indices[..]))
    {
      if Some(inputValue) != sliceExpression && helpers.isValidSliceExpression(inputValue, shape) {
        requests := requests + [Some(inputValue)];
        ApplyInputBoxToDropdowns();
      }
    }

    /**
     * The deferred body of `applyInputBoxToDropdowns`, reading only: what the
     * current text does to the slots, found by classifying its components in
     * order, collecting the point components and counting the range ones.
     */
    method SelectionsFromInputBox() returns (update: SlotUpdate)
      requires Valid()
      ensures update == TextToSlots(inputValue, helpers.sliceRegEx, |shape|)
    {
      var text := inputValue;
      if !(|text| > 0 && text[0] == '[' && text[|text| - 1] == ']') {
        return Keep;
      }
      var pieces := Split(text[1..|text| - 1], ',');
      var dropdowns: seq<Selection> := [];
      var numRangeObjects := 0;
      var idx := 0;
      while idx < |pieces|
        invariant 0 <= idx <= |pieces|
        invariant dropdowns == PointsUpTo(pieces, helpers.sliceRegEx, idx)
        invariant numRangeObjects == RangesUpTo(pieces, helpers.sliceRegEx, idx)
      {
        var component := helpers.sliceRegEx(pieces[idx]);
        if component.Point? {
          dropdowns := dropdowns + [Selection(idx, component.start)];
        } else if component.RangeLike? {
          numRangeObjects := numRangeObjects + 1;
        }
        idx := idx + 1;
      }
      if numRangeObjects == 0 && |dropdowns| == SlotCount(|shape|) {
        update := Assign(dropdowns);
      } else {
        update := ClearAll;
      }
    }

    /** `applyInputBoxToDropdowns`: set the slots from the current text. */
    method ApplyInputBoxToDropdowns()
      requires Valid()
      modifies axes, indices
      ensures SlotsFollowText()
    {
      var update := SelectionsFromInputBox();
      match update {
        case Keep =>
        case Assign(dropdowns) => AssignSlots(dropdowns);
        case ClearAll => ClearSlots();
      }
    }

    /** Slot `i` takes the axis and the index of the `i`-th selection (`selectedAxisI`, `selectedIndexI`). */
    method AssignSlots(dropdowns: seq<Selection>)
      requires Valid() && |dropdowns| == axes.Length
      modifies axes, indices
      ensures forall j :: 0 <= j < axes.Length ==> axes[j] == Some(dropdowns[j].axis) && indices[j] == Some(dropdowns[j].index)
    {
      var i := 0;
      while i < |dropdowns|
        invariant 0 <= i <= |dropdowns|
        invariant forall j :: 0 <= j < i ==> axes[j] == Some(dropdowns[j].axis) && indices[j] == Some(dropdowns[j].index)
      {
        axes[i] := Some(dropdowns[i].axis);
        indices[i] := Some(dropdowns[i].index);
        i := i + 1;
      }
    }

    /** Every slot is cleared (`selectedAxisI` and `selectedIndexI` set to `null`). */
    method ClearSlots()
      requires Valid()
      modifies axes, indices
      ensures forall j :: 0 <= j < axes.Length ==> axes[j] == None && indices[j] == None
    {
      var i := 0;
      while i < axes.Length
        invariant 0 <= i <= axes.Length
        invariant forall j :: 0 <= j < i ==> axes[j] == None && indices[j] == None
      {
        axes[i] := None;
        indices[i] := None;
        i := i + 1;
      }
    }

    /**
     * The deferred body of `applyDropdownsToInputBox`, reading only: start from
     * `:` on every axis, write each fully specified slot's index at its axis,
     * and count the fully specified slots.
     */
    method ExpressionFromDropdowns() returns (expression: string, numSpecifiedIndices: nat)
      requires Valid()
      ensures expression == DerivedExpression()
      ensures numSpecifiedIndices == SpecifiedCount(axes[..], indices[..], axes.Length)
    {
      ghost var slotAxes, slotIndices := axes[..], indices[..];
      var components := seq(|shape|, _ => ":");
      var numDropdowns := SlotCount(|shape|);
      numSpecifiedIndices := 0;
      var i := 0;
      while i < numDropdowns
        invariant 0 <= i <= numDropdowns == axes.Length
        invariant components == ComponentsFromSlots(|shape|, slotAxes, slotIndices, i)
        invariant numSpecifiedIndices == SpecifiedCount(slotAxes, slotIndices, i)
      {
        var selectedAxisKey := axes[i];
        var selectedIndexKey := indices[i];
        assert selectedAxisKey == slotAxes[i] && selectedIndexKey == slotIndices[i];
        SlotStep(|shape|, slotAxes, slotIndices, i);
        if selectedAxisKey.Some? && selectedIndexKey.Some? {
          components := Place(components, selectedAxisKey.value, IntToString(selectedIndexKey.value));
          numSpecifiedIndices := numSpecifiedIndices + 1;
        }
        i := i + 1;
      }
      expression := Render(components);
      assert slotAxes == axes[..] && slotIndices == indices[..];
    }

    /** `applyDropdownsToInputBox`: publish the text the slots describe when all slots are set and it is new. */
    method ApplyDropdownsToInputBox()
      requires Valid()
      modifies this`inputValue, this`requests
      ensures var expression := DerivedExpression();
        && inputValue == (if ShouldPublish(expression) then expression else old(inputValue))
        && requests == old(requests) + (if ShouldPublish(expression) then [Some(expression)] else [])
    {
      var newSliceExpression, numSpecifiedIndices := ExpressionFromDropdowns();
      var fullSlice := FullSlice();
      if numSpecifiedIndices == SlotCount(|shape|) && Some(newSliceExpression) != sliceExpression
        && newSliceExpression != fullSlice
      {
        inputValue := newSliceExpression;
        requests := requests + [Some(newSliceExpression)];
      }
    }

    /** The axis dropdown's options: one per axis, disabled when some slot already has that axis. */
    method AxisDropdownOptions() returns (options: seq<DropdownOption>)
      requires Valid()
      ensures |options| == |shape|
      ensures forall k :: 0 <= k < |options| ==> options[k].key == k && options[k].text == IntToString(k)
      ensures forall k :: 0 <= k < |options| ==>
        (options[k].disabled <==> exists i :: 0 <= i < axes.Length && axes[i] == Some(k))
    {
      var selectedAxes: set<int> := {};
      var i := 0;
      while i < axes.Length
        invariant 0 <= i <= axes.Length
        invariant forall a :: a in selectedAxes <==> exists j :: 0 <= j < i && axes[j] == Some(a)
      {
        if axes[i].Some? {
          selectedAxes := selectedAxes + {axes[i].value};
        }
        i := i + 1;
      }
      options := [];
      var idx := 0;
      while idx < |shape|
        invariant 0 <= idx <= |shape|
        invariant |options| == idx
        invariant forall k :: 0 <= k < idx ==> options[k] == DropdownOption(k, IntToString(k), k in selectedAxes)
      {
        options := options + [DropdownOption(idx, IntToString(idx), idx in selectedAxes)];
        idx := idx + 1;
      }
    }

    /**
     * The index dropdown's options for slot `slot`: the indices `0 .. shape[axis] - 1`
     * of the slot's axis, and none when the slot has no axis of the array.
     */
    method IndexDropdownOptions(slot: nat) returns (options: seq<DropdownOption>)
      requires Valid() && slot < axes.Length
      ensures !(axes[slot].Some? && 0 <= axes[slot].value < |shape|) ==> options == []
      ensures axes[slot].Some? && 0 <= axes[slot].value < |shape| ==>
        var range := shape[axes[slot].value];
        && |options| == (if range > 0 then range else 0)
        && forall k :: 0 <= k < |options| ==> options[k] == DropdownOption(k, IntToString(k), false)
    {
      options := [];
      var axisSelection := axes[slot];
      if axisSelection.Some? && 0 <= axisSelection.value < |shape| {
        var range := shape[axisSelection.value];
        var i := 0;
        while i < range
          invariant 0 <= i <= (if range > 0 then range else 0)
          invariant |options| == i
          invariant forall k :: 0 <= k < i ==> options[k] == DropdownOption(k, IntToString(k), false)
        {
          options := options + [DropdownOption(i, IntToString(i), false)];
          i := i + 1;
        }
      }
    }
  }
}
