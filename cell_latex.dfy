/**
 * The markdown-LaTeX usage tracker (src/client/datascience/jupyter/jupyterCellLatexTracker.ts):
 * a detector for LaTeX in markdown cells, and a two-flag latch that sends the
 * `MarkdownCellHasLatex` telemetry event until it has been sent once with
 * each value, after which every further check only disposes the tracker.
 */
module CellLatex {
  import opened Strings

  /** A cell's text: a single string, or the list of lines a notebook file stores (`string | string[]`). */
  datatype CellSource = Text(text: string) | Lines(lines: seq<string>)

  /** The kind of a notebook cell. */
  datatype CellKind = Code | Markdown | Raw

  datatype Cell = Cell(kind: CellKind, source: CellSource)

  /** An open notebook document: its cells' text is a single string each. */
  datatype NotebookDocument = NotebookDocument(cells: seq<Cell>)

  // ---------------------------------------------------------------------------
  // Detection (hasLatexContent)
  // ---------------------------------------------------------------------------

  /** A string has LaTeX when it contains a dollar sign or the start of an environment, `begin{`. */
  function TextHasLatex(s: string): (r: bool)
    ensures r <==> (exists i :: OccursAt(s, "$", i)) || (exists i :: OccursAt(s, "begin{", i))
  {
    Includes(s, "$") || Includes(s, "begin{")
  }

  /** `lines.some(hasLatexContent)`: scans the lines in order. */
  function SomeLineHasLatex(lines: seq<string>): (r: bool)
    ensures r <==> exists k :: 0 <= k < |lines| && TextHasLatex(lines[k])
  {
    if |lines| == 0 then
      false
    else
      assert forall k :: 1 <= k < |lines| ==> lines[1..][k - 1] == lines[k];
      TextHasLatex(lines[0]) || SomeLineHasLatex(lines[1..])
  }

  /** `hasLatexContent`: a string by its text, a list of lines when some line has LaTeX (so never the empty list). */
  function HasLatexContent(content: CellSource): (r: bool)
    ensures content.Text? ==> (r <==> TextHasLatex(content.text))
    ensures content.Lines? ==> (r <==> exists k :: 0 <= k < |content.lines| && TextHasLatex(content.lines[k]))
    ensures content == Lines([]) ==> !r
  {
    match content
    case Text(s) => TextHasLatex(s)
    case Lines(lines) => SomeLineHasLatex(lines)
  }

  /** `cells.some(cell => cell is markdown && hasLatexContent(cell's source))`: scans the cells in order. */
  function SomeMarkdownCellHasLatex(cells: seq<Cell>): (r: bool)
    ensures r <==> exists k :: 0 <= k < |cells| && cells[k].kind == Markdown && HasLatexContent(cells[k].source)
  {
    if |cells| == 0 then
      false
    else
      assert forall k :: 1 <= k < |cells| ==> cells[1..][k - 1] == cells[k];
      (cells[0].kind == Markdown && HasLatexContent(cells[0].source)) || SomeMarkdownCellHasLatex(cells[1..])
  }

  // ---------------------------------------------------------------------------
  // The telemetry latch (sendTelemetry), as a function of its two flags
  // ---------------------------------------------------------------------------

  /** `sentTelemetryForHavingLatex` and `sentTelemetryForNotHavingLatex`. */
  datatype Latch = Latch(sentHavingLatex: bool, sentNotHavingLatex: bool)

  /** The event has been sent with both values: the tracker has nothing left to report. */
  predicate Saturated(l: Latch)
  {
    l.sentHavingLatex && l.sentNotHavingLatex
  }

  /** The flags after one `sendTelemetry(hasLatex)`. */
  function Send(l: Latch, hasLatex: bool): Latch
  {
    if Saturated(l) then l
    else if hasLatex then l.(sentHavingLatex := true)
    else l.(sentNotHavingLatex := true)
  }

  /** The events one `sendTelemetry(hasLatex)` sends, each carrying its `hasLatex` value. */
  function Emitted(l: Latch, hasLatex: bool): seq<bool>
  {
    if Saturated(l) then [] else [hasLatex]
  }

  /** The flags after a series of checks whose results are `checks`. */
  function After(l: Latch, checks: seq<bool>): Latch
    decreases |checks|
  {
    if |checks| == 0 then l else After(Send(l, checks[0]), checks[1..])
  }

  /** The events a series of checks sends. */
  function EventsOf(l: Latch, checks: seq<bool>): seq<bool>
    decreases |checks|
  {
    if |checks| == 0 then [] else Emitted(l, checks[0]) + EventsOf(Send(l, checks[0]), checks[1..])
  }

  /** Neither flag is ever reset. */
  lemma {:induction false} FlagsMonotone(l: Latch, checks: seq<bool>)
    ensures l.sentHavingLatex ==> After(l, checks).sentHavingLatex
    ensures l.sentNotHavingLatex ==> After(l, checks).sentNotHavingLatex
    decreases |checks|
  {
    if |checks| > 0 {
      FlagsMonotone(Send(l, checks[0]), checks[1..]);
    }
  }

  /** Once both flags are set, no check sends anything or changes a flag. */
  lemma {:induction false} SaturatedIsSilent(l: Latch, checks: seq<bool>)
    requires Saturated(l)
    ensures After(l, checks) == l
    ensures EventsOf(l, checks) == []
    decreases |checks|
  {
    if |checks| > 0 {
      SaturatedIsSilent(l, checks[1..]);
    }
  }

  /** Running the first `n` checks is one `sendTelemetry` followed by the next `n - 1`. */
  lemma AfterPrefixStep(l: Latch, checks: seq<bool>, n: nat)
    requires 0 < n <= |checks|
    ensures After(l, checks[..n]) == After(Send(l, checks[0]), checks[1..][..n - 1])
  {
    assert checks[..n][1..] == checks[1..][..n - 1];
  }

  /**
   * The events sent are the check results in order, cut off exactly where the
   * latch saturates: every check made while the latch was not saturated sent
   * its event, and the events stop only at the end of the checks or once both
   * flags are set.
   */
  lemma {:induction false} EventsArePrefix(l: Latch, checks: seq<bool>)
    ensures |EventsOf(l, checks)| <= |checks|
    ensures EventsOf(l, checks) == checks[..|EventsOf(l, checks)|]
    ensures forall n :: 0 <= n < |checks| && !Saturated(After(l, checks[..n])) ==> n < |EventsOf(l, checks)|
    ensures |EventsOf(l, checks)| == |checks| || Saturated(After(l, checks[..|EventsOf(l, checks)|]))
    decreases |checks|
  {
    if |checks| > 0 {
      var next := Send(l, checks[0]);
      EventsArePrefix(next, checks[1..]);
      if Saturated(l) {
        SaturatedIsSilent(l, checks[1..]);
        forall n | 0 <= n < |checks| ensures Saturated(After(l, checks[..n])) {
          SaturatedIsSilent(l, checks[..n]);
        }
        assert checks[..0] == [];
      } else {
        var rest := EventsOf(next, checks[1..]);
        assert EventsOf(l, checks) == [checks[0]] + rest;
        assert checks[..1 + |rest|] == [checks[0]] + checks[1..][..|rest|];
        forall n | 0 < n < |checks| && !Saturated(After(l, checks[..n])) ensures n < 1 + |rest| {
          AfterPrefixStep(l, checks, n);
        }
        if |rest| < |checks| - 1 {
          AfterPrefixStep(l, checks, 1 + |rest|);
        }
      }
    }
  }

  /** Each flag ends up set exactly when it was set at the start or an event with its value was sent. */
  lemma {:induction false} FlagsRecordEvents(l: Latch, checks: seq<bool>)
    ensures After(l, checks).sentHavingLatex == (l.sentHavingLatex || true in EventsOf(l, checks))
    ensures After(l, checks).sentNotHavingLatex == (l.sentNotHavingLatex || false in EventsOf(l, checks))
    decreases |checks|
  {
    if |checks| > 0 {
      var next := Send(l, checks[0]);
      FlagsRecordEvents(next, checks[1..]);
      if Saturated(l) {
        SaturatedIsSilent(l, checks[1..]);
      }
    }
  }

  /** Running two series of checks one after the other is running their concatenation. */
  lemma {:induction false} RunConcat(l: Latch, first: seq<bool>, second: seq<bool>)
    ensures After(l, first + second) == After(After(l, first), second)
    ensures EventsOf(l, first + second) == EventsOf(l, first) + EventsOf(After(l, first), second)
    decreases |first|
  {
    if |first| > 0 {
      assert (first + second)[0] == first[0];
      assert (first + second)[1..] == first[1..] + second;
      RunConcat(Send(l, first[0]), first[1..], second);
    } else {
      assert first + second == second;
    }
  }

  /** After the event has gone out with both values, no later check sends anything more. */
  lemma SilentAfterBothSent(l: Latch, first: seq<bool>, later: seq<bool>)
    requires true in EventsOf(l, first) && false in EventsOf(l, first)
    ensures EventsOf(l, first + later) == EventsOf(l, first)
  {
    FlagsRecordEvents(l, first);
    RunConcat(l, first, later);
    SaturatedIsSilent(After(l, first), later);
  }

  // ---------------------------------------------------------------------------
  // The tracker
  // ---------------------------------------------------------------------------

  /** A notebook model of the native editor, tracked by identity. */
  class NotebookModel {
    var cells: seq<Cell>
  }

  class CellLatexTracker {
    var sentTelemetryForHavingLatex: bool
    var sentTelemetryForNotHavingLatex: bool
    /** The models whose edits are being watched. */
    var mapOfModels: set<NotebookModel>
    /** The models an `onDidEdit` subscription was made for, in order. */
    ghost var subscriptions: seq<NotebookModel>
    /** The `hasLatex` value of every `MarkdownCellHasLatex` event sent. */
    ghost var events: seq<bool>
    /** How many times `dispose` has been called. */
    ghost var disposals: nat

    /** The latch the two flags form. */
    function Flags(): Latch
      reads this
    {
      Latch(sentTelemetryForHavingLatex, sentTelemetryForNotHavingLatex)
    }

    /** A new tracker: no flag set, nothing tracked, nothing sent. */
    constructor ()
      ensures !sentTelemetryForHavingLatex && !sentTelemetryForNotHavingLatex
      ensures mapOfModels == {} && subscriptions == [] && events == [] && disposals == 0
    {
      sentTelemetryForHavingLatex := false;
      sentTelemetryForNotHavingLatex := false;
      mapOfModels := {};
      subscriptions := [];
      events := [];
      disposals := 0;
    }

    /** Releases the tracker's subscriptions. */
    method Dispose()
      modifies this`disposals
      ensures disposals == old(disposals) + 1
    {
      disposals := disposals + 1;
    }

    /**
     * `sendTelemetry`: with both flags set, only dispose; otherwise set the flag
     * for `hasLatex` and send one event carrying it.
     */
    method SendTelemetry(hasLatex: bool)
      modifies this`sentTelemetryForHavingLatex, this`sentTelemetryForNotHavingLatex, this`events, this`disposals
      ensures Saturated(old(Flags())) ==>
        Flags() == old(Flags()) && events == old(events) && disposals == old(disposals) + 1
      ensures !Saturated(old(Flags())) ==>
        && sentTelemetryForHavingLatex == (old(sentTelemetryForHavingLatex) || hasLatex)
        && sentTelemetryForNotHavingLatex == (old(sentTelemetryForNotHavingLatex) || !hasLatex)
        && events == old(events) + [hasLatex]
        && disposals == old(disposals)
      ensures Flags() == Send(old(Flags()), hasLatex) && events == old(events) + Emitted(old(Flags()), hasLatex)
    {
      if sentTelemetryForHavingLatex && sentTelemetryForNotHavingLatex {
        Dispose();
        return;
      }
      if hasLatex {
        sentTelemetryForHavingLatex := true;
      } else {
        sentTelemetryForNotHavingLatex := true;
      }
      events := events + [hasLatex];
    }

    /** `trackModel`: a model already tracked is neither added nor subscribed to again. */
    method TrackModel(model: NotebookModel)
      modifies this`mapOfModels, this`subscriptions
      ensures mapOfModels == old(mapOfModels) + {model}
      ensures subscriptions == old(subscriptions) + (if model in old(mapOfModels) then [] else [model])
    {
      if model in mapOfModels {
        return;
      }
      mapOfModels := mapOfModels + {model};
      subscriptions := subscriptions + [model];
    }

    /** `onCheckNotebookDocument`: report whether some markdown cell of the document has LaTeX. */
    method OnCheckNotebookDocument(doc: NotebookDocument)
      modifies this`sentTelemetryForHavingLatex, this`sentTelemetryForNotHavingLatex, this`events, this`disposals
      ensures var hasLatex := SomeMarkdownCellHasLatex(doc.cells);
        && Flags() == Send(old(Flags()), hasLatex)
        && events == old(events) + Emitted(old(Flags()), hasLatex)
        && disposals == old(disposals) + (if Saturated(old(Flags())) then 1 else 0)
    {
      var hasLatex := SomeMarkdownCellHasLatex(doc.cells);
      SendTelemetry(hasLatex);
    }

    /**
     * `onModelChanged`: with both flags set, only dispose, without looking at
     * the model; otherwise report whether some markdown cell has LaTeX.
     */
    method OnModelChanged(model: NotebookModel)
      modifies this`sentTelemetryForHavingLatex, this`sentTelemetryForNotHavingLatex, this`events, this`disposals
      ensures var hasLatex := SomeMarkdownCellHasLatex(model.cells);
        && Flags() == Send(old(Flags()), hasLatex)
        && events == old(events) + Emitted(old(Flags()), hasLatex)
        && disposals == old(disposals) + (if Saturated(old(Flags())) then 1 else 0)
    {
      if sentTelemetryForHavingLatex && sentTelemetryForNotHavingLatex {
        Dispose();
        return;
      }
      var hasLatex := SomeMarkdownCellHasLatex(model.cells);
      SendTelemetry(hasLatex);
    }
  }
}
