/** The warning records that the scanner attaches to the items it emits, and
    the two factories that build the standard ones. */
module Warnings {
  import opened Common

  /** A warning: an optional column in the offending line, a message, and an
      optional underlying error (kept as its message). */
  datatype WarningEntry = WarningEntry(index: Option<nat>, message: string, error: Option<string>)

  const InterpolatedMessage: string :=
    "Detected extraneous content surrounding an InGenR directive.\n"
    + "InGenR directives are expected to be specified in a dedicated line.\n"
    + "This directive will be discarded."

  const InvalidArgBodyMessage: string :=
    "Detected invalid line in the arguments body of an InGenR directive.\n"
    + "This line will be discarded."

  /** The warning for a directive that shares its line with other content;
      `index` is the column where the directive match starts. */
  function WarnInterpolated(index: Option<nat>): (w: WarningEntry)
    ensures w.index == index && w.error == None
    ensures w.message == InterpolatedMessage
    ensures EndsWith(w.message, "This directive will be discarded.")
  {
    WarningEntry(index, InterpolatedMessage, None)
  }

  /** The warning for a line of an argument body that the body-line pattern
      refuses; it points at no column. */
  function WarnInvalidArgBody(): (w: WarningEntry)
    ensures w.index == None && w.error == None
    ensures w.message == InvalidArgBodyMessage
    ensures EndsWith(w.message, "This line will be discarded.")
  {
    WarningEntry(None, InvalidArgBodyMessage, None)
  }

  /** A call received by the reporter: `bufferWarning(filePath, lineIndex,
      line, warnings)`, whose optional arguments may be left undefined, or
      `reportWarning(lineIndex, line, warnings)`. */
  datatype ReporterCall =
    | BufferWarning(filePath: Option<string>, lineIndex: Option<nat>, line: Option<string>, entries: seq<WarningEntry>)
    | ReportWarning(reportedIndex: nat, reportedLine: string, entries: seq<WarningEntry>)
}
