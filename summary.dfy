/**
  The summary page of one past clean: a column picker over its summaries, the chart of how
  the column's values were cleaned, the title built from the cleaning mode, and four
  figures of the chosen summary.
 */
module CleanSummary {
  import opened Js
  import opened Dashboard

  /** `clean.summaries[0]?.column || ""`: the column picked when the page opens. */
  function InitialColumn(summaries: seq<Summary>): (r: string)
    ensures summaries == [] ==> r == ""
    ensures summaries != [] ==> r == summaries[0].column
  {
    if summaries != [] then summaries[0].column else ""
  }

  /** `clean.summaries.find((s) => s.column === selectedColumn) || clean.summaries[0]`. */
  function SelectedSummary(summaries: seq<Summary>, column: string): (r: Option<Summary>)
    ensures r.None? <==> summaries == []
  {
    var i := IndexOf(ColumnsOf(summaries), column);
    if i >= 0 then Some(summaries[i]) else if summaries != [] then Some(summaries[0]) else None
  }

  function ColumnsOf(summaries: seq<Summary>): (r: seq<string>)
    ensures |r| == |summaries|
    ensures forall i :: 0 <= i < |summaries| ==> r[i] == summaries[i].column
  {
    seq(|summaries|, i requires 0 <= i < |summaries| => summaries[i].column)
  }

  /** The chosen summary is the first one for the column, and the first summary when none is. */
  lemma {:induction false} SelectedSummarySpec(summaries: seq<Summary>, column: string)
    ensures forall i :: 0 <= i < |summaries| && summaries[i].column == column ==>
              exists k :: 0 <= k <= i && SelectedSummary(summaries, column) == Some(summaries[k])
                && summaries[k].column == column
                && forall j :: 0 <= j < k ==> summaries[j].column != column
    ensures summaries != [] && (forall i :: 0 <= i < |summaries| ==> summaries[i].column != column) ==>
              SelectedSummary(summaries, column) == Some(summaries[0])
  {
    var columns := ColumnsOf(summaries);
    if exists i :: 0 <= i < |summaries| && summaries[i].column == column {
      var i :| 0 <= i < |summaries| && summaries[i].column == column;
      assert columns[i] == column;
    }
  }

  /** The picker opens on a summary's own column, so the first summary is shown. */
  lemma {:induction false} OpensOnFirstSummary(summaries: seq<Summary>)
    requires summaries != []
    ensures SelectedSummary(summaries, InitialColumn(summaries)) == Some(summaries[0])
  {
    assert ColumnsOf(summaries)[0] == summaries[0].column;
  }

  /** One bar of the chart. */
  datatype Bar = Bar(name: string, value: nat, fill: string)

  const ChartNames: seq<string> := ["Majority", "PySpell Checker", "Singles", "Global Custom", "Google KG", "LLM (Gemini)"]

  /** `chartData`: six bars in a fixed order for a summary, none without one. */
  function ChartData(selected: Option<Summary>): (r: seq<Bar>)
    ensures selected.None? ==> r == []
    ensures selected.Some? ==> |r| == |ChartNames| && forall i :: 0 <= i < |r| ==> r[i].name == ChartNames[i]
  {
    match selected
    case None => []
    case Some(s) =>
      [ Bar("Majority", s.majority, "#3b82f6"),
        Bar("PySpell Checker", s.spellCheck, "#10b981"),
        Bar("Singles", s.singles, "#f59e0b"),
        Bar("Global Custom", s.globalManual, "#ef4444"),
        Bar("Google KG", s.gkg, "#8b5cf6"),
        Bar("LLM (Gemini)", s.llm, "#06b6d4") ]
  }

  function BarTotal(bars: seq<Bar>): nat
  {
    if bars == [] then 0 else bars[0].value + BarTotal(bars[1..])
  }

  /** The bars add up to the values the six methods cleaned. */
  lemma {:induction false} ChartTotal(s: Summary)
    ensures BarTotal(ChartData(Some(s))) == s.majority + s.spellCheck + s.singles + s.globalManual + s.gkg + s.llm
  {
    var bars := ChartData(Some(s));
    assert BarTotal(bars[5..]) == s.llm by { assert bars[5..][1..] == []; }
    assert BarTotal(bars[4..]) == s.gkg + BarTotal(bars[5..]) by { assert bars[4..][1..] == bars[5..]; }
    assert BarTotal(bars[3..]) == s.globalManual + BarTotal(bars[4..]) by { assert bars[3..][1..] == bars[4..]; }
    assert BarTotal(bars[2..]) == s.singles + BarTotal(bars[3..]) by { assert bars[2..][1..] == bars[3..]; }
    assert BarTotal(bars[1..]) == s.spellCheck + BarTotal(bars[2..]) by { assert bars[1..][1..] == bars[2..]; }
    assert BarTotal(bars) == s.majority + BarTotal(bars[1..]);
  }

  /**
    `cleaning_mode.slice(0, 1)[0].toUpperCase() + cleaning_mode.slice(1)`; reading index 0 of
    the empty string gives `undefined`, whose `toUpperCase` throws.
   */
  function ModeTitle(mode: string): (r: Result<string>)
    ensures r.Err? <==> mode == []
    ensures r.Ok? ==> |r.value| == |mode| && r.value[1..] == mode[1..] && r.value[0] == UpperChar(mode[0])
  {
    if mode == [] then Err("TypeError") else Ok([UpperChar(mode[0])] + mode[1..])
  }

  /** Building the title from a title changes nothing, and both read the same ignoring case. */
  lemma {:induction false} ModeTitleIdempotent(mode: string)
    requires mode != []
    ensures ModeTitle(ModeTitle(mode).value) == ModeTitle(mode)
    ensures ToLower(ModeTitle(mode).value) == ToLower(mode)
  {
    var t := ModeTitle(mode).value;
    assert ModeTitle(t).value == t;
    assert forall i :: 0 <= i < |t| ==> LowerChar(t[i]) == LowerChar(mode[i]);
  }

  /** The four figures under the chart: total, unique before, unique after and manual corrections. */
  datatype StatCards = StatCards(totalValues: nat, beforeUnique: nat, afterUnique: nat, manualCorrections: nat)

  function StatCardsOf(selected: Option<Summary>): (r: Option<StatCards>)
    ensures r.Some? <==> selected.Some?
  {
    match selected
    case None => None
    case Some(s) => Some(StatCards(s.totalValues, s.beforeUnique, s.afterUnique, s.manualCorrections))
  }

  /** The chart and the figures are drawn together, exactly for a clean with summaries. */
  lemma {:induction false} ViewSpec(summaries: seq<Summary>, column: string)
    ensures ChartData(SelectedSummary(summaries, column)) != [] <==> summaries != []
    ensures StatCardsOf(SelectedSummary(summaries, column)).Some? <==> summaries != []
  {
  }

  class CleanSummaryView {
    const summaries: seq<Summary>
    var selectedColumn: string

    constructor (summaries: seq<Summary>)
      ensures this.summaries == summaries && selectedColumn == InitialColumn(summaries)
    {
      this.summaries := summaries;
      selectedColumn := InitialColumn(summaries);
    }

    /** The picker's change handler. */
    method SelectColumn(column: string)
      modifies this`selectedColumn
      ensures selectedColumn == column
    {
      selectedColumn := column;
    }

    function Selected(): (r: Option<Summary>)
      reads this
      ensures r.None? <==> summaries == []
    {
      SelectedSummary(summaries, selectedColumn)
    }
  }
}
