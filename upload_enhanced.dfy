/**
  The dashboard's upload step: the same format and size checks as the plain upload step,
  an optional row limit typed by the user, and a hand-off of the chosen file to the
  workflow, whose failure message is shown on the step.
 */
module UploadEnhanced {
  import opened Js
  import opened Upload

  /** The `rowLimit` state: `undefined`, a positive limit, or `NaN`. */
  datatype RowLimit = Unset | Limit(rows: nat) | NotANumber

  /**
    `value === "" ? undefined : Math.max(1, Number.parseInt(value) || undefined)`, where
    `parsed` is what `Number.parseInt(value)` gives (`None` for `NaN`). A zero is falsy, so
    it turns into `undefined`, and `Math.max(1, undefined)` is `NaN`.
   */
  function RowLimitOf(value: string, parsed: Option<int>): (r: RowLimit)
    ensures r.Limit? ==> r.rows >= 1
  {
    if value == "" then Unset
    else if parsed.None? || parsed.value == 0 then NotANumber
    else if parsed.value < 1 then Limit(1)
    else Limit(parsed.value)
  }

  /** `rowLimit || ""`: what the number input shows. */
  function RowLimitText(limit: RowLimit): (r: string)
    ensures r == "" <==> !limit.Limit?
  {
    match limit
    case Limit(n) => IntToString(n)
    case _ => ""
  }

  /** Each way of typing a row limit, and what the input then shows. */
  lemma {:induction false} RowLimitCases(value: string, parsed: Option<int>)
    ensures value == "" ==> RowLimitOf(value, parsed) == Unset
    ensures value != "" && parsed.Some? && parsed.value > 0 ==>
              RowLimitOf(value, parsed) == Limit(parsed.value) && RowLimitText(RowLimitOf(value, parsed)) == IntToString(parsed.value)
    ensures value != "" && parsed.Some? && parsed.value < 0 ==> RowLimitOf(value, parsed) == Limit(1)
    ensures value != "" && (parsed.None? || parsed.value == 0) ==>
              RowLimitOf(value, parsed) == NotANumber && RowLimitText(RowLimitOf(value, parsed)) == ""
  {
  }

  /** A shown limit reads back as the same number. */
  lemma {:induction false} RowLimitTextRoundTrip(limit: RowLimit)
    requires limit.Limit?
    ensures IsDigits(RowLimitText(limit)) && DigitsValue(RowLimitText(limit)) == limit.rows
  {
    NatToStringRoundTrip(limit.rows);
  }

  /** What `onFileUpload` is called with. */
  datatype UploadCall = UploadCall(file: FileMeta, fileType: string, limit: RowLimit)

  /** How the awaited `onFileUpload` ended: normally, by throwing an `Error`, or by throwing anything else. */
  datatype CallOutcome = Completed | ThrewError(message: string) | ThrewOther

  const FallbackMessage := "Failed to process file."

  /** The message shown after a hand-off that ended with `outcome`. */
  function ErrorAfter(outcome: CallOutcome): (r: Option<string>)
    ensures r.None? <==> outcome.Completed?
  {
    match outcome
    case Completed => None
    case ThrewError(message) => Some(message)
    case ThrewOther => Some(FallbackMessage)
  }

  class UploadStepEnhanced {
    var selectedFileType: string
    var rowLimit: RowLimit
    var dragActive: bool
    var uploading: bool
    var error: Option<string>
    /**
      The row limit seen by the `handleDrop` that `useCallback(..., [selectedFileType])`
      keeps: the one of the render in which the selected type last changed.
     */
    var dropLimit: RowLimit

    constructor ()
      ensures selectedFileType == "csv" && rowLimit == Unset && !dragActive && !uploading && error == None
      ensures dropLimit == Unset
    {
      selectedFileType := "csv";
      rowLimit := Unset;
      dragActive := false;
      uploading := false;
      error := None;
      dropLimit := Unset;
    }

    /** Choosing another type re-creates the memoised drop handler over the current row limit. */
    method SelectFileType(value: string)
      modifies this`selectedFileType, this`dropLimit
      ensures selectedFileType == value
      ensures dropLimit == if value != old(selectedFileType) then rowLimit else old(dropLimit)
    {
      if value != selectedFileType {
        dropLimit := rowLimit;
      }
      selectedFileType := value;
    }

    /** The row-limit input's change handler; `parsed` is `Number.parseInt(value)`. */
    method SetRowLimit(value: string, parsed: Option<int>)
      modifies this`rowLimit
      ensures rowLimit == RowLimitOf(value, parsed)
      ensures rowLimit.Limit? ==> rowLimit.rows >= 1
    {
      rowLimit := RowLimitOf(value, parsed);
    }

    method HandleDrag(eventType: string)
      modifies this`dragActive
      ensures eventType == "dragenter" || eventType == "dragover" ==> dragActive
      ensures eventType == "dragleave" ==> !dragActive
      ensures eventType !in {"dragenter", "dragover", "dragleave"} ==> dragActive == old(dragActive)
    {
      if eventType == "dragenter" || eventType == "dragover" {
        dragActive := true;
      } else if eventType == "dragleave" {
        dragActive := false;
      }
    }

    /**
      `processFile` as created in the render whose row limit was `limit`: the file, the
      chosen type and that limit are handed on; afterwards `uploading` is false again and
      the error is cleared or holds the failure message.
     */
    method ProcessFile(file: FileMeta, limit: RowLimit, outcome: CallOutcome) returns (call: UploadCall)
      modifies this`uploading, this`error
      ensures call == UploadCall(file, selectedFileType, limit)
      ensures !uploading
      ensures error == ErrorAfter(outcome)
    {
      uploading := true;
      error := None;
      call := UploadCall(file, selectedFileType, limit);
      match outcome {
        case Completed =>
        case ThrewError(message) => error := Some(message);
        case ThrewOther => error := Some(FallbackMessage);
      }
      uploading := false;
    }

    /**
      The body shared by the file input and the drop zone: only the first file is looked
      at, and a file the chosen format refuses sets the error without any hand-off.
     */
    method HandleFirstFile(files: seq<FileMeta>, limit: RowLimit, outcome: CallOutcome) returns (call: Option<UploadCall>)
      modifies this`uploading, this`error
      ensures files == [] ==> call == None && error == old(error) && uploading == old(uploading)
      ensures files != [] && ValidateFile(selectedFileType, files[0]).Some? ==>
                call == None && error == ValidateFile(selectedFileType, files[0]) && uploading == old(uploading)
      ensures files != [] && ValidateFile(selectedFileType, files[0]).None? ==>
                call == Some(UploadCall(files[0], selectedFileType, limit)) && !uploading && error == ErrorAfter(outcome)
    {
      call := None;
      if files == [] {
        return;
      }
      var validation := ValidateFile(selectedFileType, files[0]);
      if validation.Some? {
        error := validation;
        return;
      }
      var made := ProcessFile(files[0], limit, outcome);
      call := Some(made);
    }

    /** `handleFileSelect`: re-created on every render, so it reads the current row limit. */
    method HandleFileSelect(files: seq<FileMeta>, outcome: CallOutcome) returns (call: Option<UploadCall>)
      modifies this`uploading, this`error
      ensures files == [] ==> call == None && error == old(error) && uploading == old(uploading)
      ensures files != [] && ValidateFile(selectedFileType, files[0]).Some? ==>
                call == None && error == ValidateFile(selectedFileType, files[0]) && uploading == old(uploading)
      ensures files != [] && ValidateFile(selectedFileType, files[0]).None? ==>
                call == Some(UploadCall(files[0], selectedFileType, rowLimit)) && !uploading && error == ErrorAfter(outcome)
    {
      call := HandleFirstFile(files, rowLimit, outcome);
    }

    /**
      `handleDrop` as written: the drop zone is dimmed, then the first dropped file is
      handled with the row limit the memoised handler closed over.
     */
    method HandleDropAsWritten(files: seq<FileMeta>, outcome: CallOutcome) returns (call: Option<UploadCall>)
      modifies this`dragActive, this`uploading, this`error
      ensures !dragActive
      ensures files == [] ==> call == None && error == old(error) && uploading == old(uploading)
      ensures files != [] && ValidateFile(selectedFileType, files[0]).Some? ==>
                call == None && error == ValidateFile(selectedFileType, files[0]) && uploading == old(uploading)
      ensures files != [] && ValidateFile(selectedFileType, files[0]).None? ==>
                call == Some(UploadCall(files[0], selectedFileType, dropLimit)) && !uploading && error == ErrorAfter(outcome)
    {
      dragActive := false;
      call := HandleFirstFile(files, dropLimit, outcome);
    }

    /**
      `handleDrop` with the row limit in its dependency list: the drop zone is dimmed, then
      the first dropped file is handled exactly like a selected one.
     */
    method HandleDrop(files: seq<FileMeta>, outcome: CallOutcome) returns (call: Option<UploadCall>)
      modifies this`dragActive, this`uploading, this`error
      ensures !dragActive
      ensures files == [] ==> call == None && error == old(error) && uploading == old(uploading)
      ensures files != [] && ValidateFile(selectedFileType, files[0]).Some? ==>
                call == None && error == ValidateFile(selectedFileType, files[0]) && uploading == old(uploading)
      ensures files != [] && ValidateFile(selectedFileType, files[0]).None? ==>
                call == Some(UploadCall(files[0], selectedFileType, rowLimit)) && !uploading && error == ErrorAfter(outcome)
    {
      dragActive := false;
      call := HandleFirstFile(files, rowLimit, outcome);
    }
  }

  /**
    A limit typed after the last change of type is lost on a drop: on a fresh step, typing
    100 and dropping `a.csv` hands on no limit, while the file input (and the corrected drop)
    hand on 100.
   */
  method StaleDropLimit() returns (asWritten: Option<UploadCall>, corrected: Option<UploadCall>)
    ensures asWritten == Some(UploadCall(FileMeta("a.csv", 1), "csv", Unset))
    ensures corrected == Some(UploadCall(FileMeta("a.csv", 1), "csv", Limit(100)))
  {
    var file := FileMeta("a.csv", 1);
    assert ValidateFile("csv", file).None? by {
      assert ToLower("a.csv") == "a.csv";
      assert EndsWith(ToLower("a.csv"), [".csv"][0]);
    }
    var step := new UploadStepEnhanced();
    step.SetRowLimit("100", Some(100));
    asWritten := step.HandleDropAsWritten([file], Completed);
    var fixedStep := new UploadStepEnhanced();
    fixedStep.SetRowLimit("100", Some(100));
    corrected := fixedStep.HandleDrop([file], Completed);
  }
}
