/**
  The four-step wizard: upload, preview, clean and export. Each step hands its result to
  the wizard, which moves forward once the step's request has succeeded; a failed request
  leaves the wizard where it was.
 */
module Workflow {
  import opened Js
  import opened Types
  import opened Upload

  const StepCount: nat := 4

  /** The step components the wizard can show. */
  datatype StepView = UploadView | PreviewView | CleaningView | ExportView

  /** The views drawn for `step`: each of the four conditionals contributes its view when it holds. */
  function ShownViews(step: int): (r: seq<StepView>)
    ensures |r| <= 1
  {
    (if step == 1 then [UploadView] else [])
    + (if step == 2 then [PreviewView] else [])
    + (if step == 3 then [CleaningView] else [])
    + (if step == 4 then [ExportView] else [])
  }

  /** Exactly one step view is drawn for each step from 1 to 4, and a different one for each. */
  lemma {:induction false} OneViewPerStep(step: int)
    ensures |ShownViews(step)| == 1 <==> 1 <= step <= StepCount
    ensures step == 1 ==> ShownViews(step) == [UploadView]
    ensures step == 2 ==> ShownViews(step) == [PreviewView]
    ensures step == 3 ==> ShownViews(step) == [CleaningView]
    ensures step == 4 ==> ShownViews(step) == [ExportView]
  {
  }

  /** `(currentStep / steps.length) * 100`, for a whole step number. */
  function Progress(step: int): (p: int)
    requires 1 <= step <= StepCount
    ensures p == 25 * step
    ensures 25 <= p <= 100
    ensures p == 100 <==> step == StepCount
  {
    step * 100 / StepCount
  }

  /** The circle of step `k` is highlighted once that step is reached. */
  predicate CircleHighlighted(step: int, k: int)
  {
    step >= k
  }

  /** The connector after step `k` is highlighted once that step is passed. */
  predicate ConnectorHighlighted(step: int, k: int)
  {
    step > k
  }

  /** A row of flags lit on exactly its first `n` positions has `n` lit flags. */
  lemma {:induction false} PrefixLitCount(lit: seq<bool>, n: nat)
    requires n <= |lit|
    requires forall k :: 0 <= k < |lit| ==> (lit[k] <==> k < n)
    ensures multiset(lit)[true] == n
    decreases |lit|
  {
    if lit != [] {
      var init := lit[..|lit| - 1];
      assert lit == init + [lit[|lit| - 1]];
      if n == |lit| {
        PrefixLitCount(init, n - 1);
      } else {
        PrefixLitCount(init, n);
      }
    }
  }

  /** `columns.filter((col) => selectedColumns.includes(col.name))`: the columns handed to the cleaning step. */
  function CleaningColumns(columns: seq<ColumnInfo>, selected: seq<string>): (r: seq<ColumnInfo>)
    ensures |r| <= |columns|
    ensures forall i :: 0 <= i < |r| ==> r[i].name in selected
  {
    if columns == [] then []
    else (if columns[0].name in selected then [columns[0]] else []) + CleaningColumns(columns[1..], selected)
  }

  /** Every selected column of the upload is handed on, and only those. */
  lemma {:induction false} CleaningColumnsSpec(columns: seq<ColumnInfo>, selected: seq<string>, c: ColumnInfo)
    ensures c in CleaningColumns(columns, selected) <==> c in columns && c.name in selected
  {
    if columns != [] {
      CleaningColumnsSpec(columns[1..], selected, c);
      assert columns == [columns[0]] + columns[1..];
    }
  }

  /**
    The filter keeps upload order: the columns handed on from two runs of uploaded columns
    are those of the first run followed by those of the second.
   */
  lemma {:induction false} CleaningColumnsKeepOrder(a: seq<ColumnInfo>, b: seq<ColumnInfo>, selected: seq<string>)
    ensures CleaningColumns(a + b, selected) == CleaningColumns(a, selected) + CleaningColumns(b, selected)
  {
    if a == [] {
      assert a + b == b;
    } else {
      assert (a + b)[1..] == a[1..] + b;
      CleaningColumnsKeepOrder(a[1..], b, selected);
    }
  }

  /** `uploadedFile?.name || "cleaned_data.csv"`: the name the export step builds its file names from. */
  function ExportFileName(file: Option<FileMeta>): (r: string)
    ensures r != ""
    ensures file.Some? && file.value.name != "" ==> r == file.value.name
  {
    if file.Some? && file.value.name != "" then file.value.name else "cleaned_data.csv"
  }

  /** What a successful upload request answers. */
  datatype UploadReply = UploadReply(columns: seq<ColumnInfo>, data: seq<Row>)

  /** The body of the suggestions request. */
  datatype SuggestionRequest = SuggestionRequest(columns: seq<string>, domain: string, data: seq<Row>)

  class CleanlifyWorkflow {
    var currentStep: int
    var uploadedFile: Option<FileMeta>
    var columns: seq<ColumnInfo>
    var selectedColumns: seq<string>
    var selectedDomain: string
    var cleaningData: CleaningData
    var rawData: seq<Row>
    var fileType: string

    /** The step is always one of the four. */
    ghost predicate Valid()
      reads this
    {
      1 <= currentStep <= StepCount
    }

    /** The state of a fresh wizard, to which a restart returns. */
    ghost predicate Initial()
      reads this
    {
      currentStep == 1 && uploadedFile == None && columns == [] && selectedColumns == []
      && selectedDomain == "" && cleaningData == [] && rawData == [] && fileType == ""
    }

    /**
      The circles of the progress indicator, `currentStep >= step.id` for steps 1..4: the lit
      circles are exactly the first `currentStep`, so as many are lit as the step number.
     */
    function Circles(): (lit: seq<bool>)
      reads this
      requires Valid()
      ensures |lit| == StepCount
      ensures forall k :: 0 <= k < StepCount ==> (lit[k] <==> k < currentStep)
      ensures multiset(lit)[true] == currentStep
    {
      var step := currentStep;
      var lit := seq(StepCount, i requires 0 <= i < StepCount => CircleHighlighted(step, i + 1));
      PrefixLitCount(lit, step);
      lit
    }

    /**
      The connectors after steps 1..3, `currentStep > step.id`: the connector after a step is
      lit exactly when the circle of the next step is.
     */
    function Connectors(): (lit: seq<bool>)
      reads this
      requires Valid()
      ensures |lit| == StepCount - 1
      ensures forall k :: 0 <= k < StepCount - 1 ==> (lit[k] <==> Circles()[k + 1])
    {
      var step := currentStep;
      seq(StepCount - 1, i requires 0 <= i < StepCount - 1 => ConnectorHighlighted(step, i + 1))
    }

    constructor ()
      ensures Valid() && Initial()
    {
      currentStep := 1;
      uploadedFile := None;
      columns := [];
      selectedColumns := [];
      selectedDomain := "";
      cleaningData := [];
      rawData := [];
      fileType := "";
    }

    /**
      `handleFileUpload`: the file and its type are kept whatever happens; `reply` is the
      upload request's answer, `None` when it failed.
     */
    method HandleFileUpload(file: FileMeta, uploadedFileType: string, reply: Option<UploadReply>)
      requires Valid()
      modifies this`uploadedFile, this`fileType, this`columns, this`rawData, this`currentStep
      ensures Valid()
      ensures uploadedFile == Some(file) && fileType == uploadedFileType
      ensures reply.Some? ==> columns == reply.value.columns && rawData == reply.value.data && currentStep == 2
      ensures reply.None? ==> columns == old(columns) && rawData == old(rawData) && currentStep == old(currentStep)
    {
      uploadedFile := Some(file);
      fileType := uploadedFileType;
      if reply.Some? {
        columns := reply.value.columns;
        rawData := reply.value.data;
        currentStep := 2;
      }
    }

    /**
      `handlePreviewContinue`: the selection and domain are kept whatever happens, and the
      suggestions request is sent; `reply` is its answer, `None` when it failed.
     */
    method HandlePreviewContinue(selected: seq<string>, domain: string, reply: Option<CleaningData>) returns (request: SuggestionRequest)
      requires Valid()
      modifies this`selectedColumns, this`selectedDomain, this`cleaningData, this`currentStep
      ensures Valid()
      ensures request == SuggestionRequest(selected, domain, rawData)
      ensures selectedColumns == selected && selectedDomain == domain
      ensures reply.Some? ==> cleaningData == reply.value && currentStep == 3
      ensures reply.None? ==> cleaningData == old(cleaningData) && currentStep == old(currentStep)
    {
      selectedColumns := selected;
      selectedDomain := domain;
      request := SuggestionRequest(selected, domain, rawData);
      if reply.Some? {
        cleaningData := reply.value;
        currentStep := 3;
      }
    }

    /** `handleCleaningContinue`: the reviewed mappings replace the suggestions and the export step opens. */
    method HandleCleaningContinue(mappings: CleaningData)
      modifies this`cleaningData, this`currentStep
      ensures Valid()
      ensures cleaningData == mappings && currentStep == 4
    {
      cleaningData := mappings;
      currentStep := 4;
    }

    /** `handleRestart`: all eight fields go back to their initial values. */
    method HandleRestart()
      modifies this
      ensures Valid() && Initial()
    {
      currentStep := 1;
      uploadedFile := None;
      columns := [];
      selectedColumns := [];
      selectedDomain := "";
      cleaningData := [];
      rawData := [];
      fileType := "";
    }

    /** `handleBack`: one step back, never below the first. */
    method HandleBack()
      requires Valid()
      modifies this`currentStep
      ensures Valid()
      ensures old(currentStep) > 1 ==> currentStep == old(currentStep) - 1
      ensures old(currentStep) == 1 ==> currentStep == 1
    {
      if currentStep > 1 {
        currentStep := currentStep - 1;
      }
    }

    /** The view on screen. */
    function View(): (v: StepView)
      requires Valid()
      reads this
      ensures ShownViews(currentStep) == [v]
    {
      if currentStep == 1 then UploadView
      else if currentStep == 2 then PreviewView
      else if currentStep == 3 then CleaningView
      else ExportView
    }
  }
}
