/** `DeadLetterLogger`: the append-only log of records that failed to parse
    or whose image failed to resolve. The log file is modelled as the
    sequence of its lines: the entries the logger writes, one per line, and
    whatever lines the file held before. Times, the traceback summary of
    the error, and whether a file operation succeeds are inputs. */
module DeadLetterLogger {
  import opened Wrappers
  import opened Text

  /** `MAX_SNIPPET_LENGTH`. */
  const MaxSnippetLength: nat := 500

  /** `_truncate_snippet(text, max_length)`: a text longer than the limit
      keeps its first `max_length` characters and gains `...`. */
  function TruncateSnippet(text: string, maxLength: nat): (r: string)
    ensures |r| <= maxLength + 3
    ensures |text| <= maxLength ==> r == text
    ensures |text| > maxLength ==>
      |r| == maxLength + 3 && r[..maxLength] == text[..maxLength] && r[maxLength..] == "..."
  {
    if text == "" then ""
    else if |text| <= maxLength then text
    else text[..maxLength] + "..."
  }

  /** With the default limit, a snippet has at most 503 characters, and a
      longer text is cut to exactly 503. */
  lemma DefaultTruncation(text: string)
    ensures |TruncateSnippet(text, MaxSnippetLength)| <= 503
    ensures |text| > 500 ==>
      |TruncateSnippet(text, MaxSnippetLength)| == 503 && TruncateSnippet(text, MaxSnippetLength)[500..] == "..."
  {
  }

  /** One line of the log. */
  datatype Entry = Entry(timestamp: int, bossName: string, errorMessage: string, rawDataSnippet: string)

  /** The snippet of a parsing error: the raw data, or `""` when there is
      none, truncated. */
  function ParsingSnippet(rawData: Option<string>): (r: string)
    ensures rawData.None? ==> r == ""
    ensures rawData.Some? ==> r == TruncateSnippet(rawData.value, MaxSnippetLength)
  {
    TruncateSnippet(if rawData.Some? then rawData.value else "", MaxSnippetLength)
  }

  /** The snippet of an image error. */
  function ImageSnippet(imageFilename: Option<string>): (r: string)
  {
    "Image filename: " + (if imageFilename.Some? && imageFilename.value != "" then imageFilename.value else "unknown")
  }

  /** An image snippet names the file, or `unknown` when there is no file
      name. */
  lemma ImageSnippetNamesFile(imageFilename: Option<string>)
    ensures var r := ImageSnippet(imageFilename);
      |r| > 16 && r[..16] == "Image filename: " &&
      r[16..] == (if imageFilename.None? || imageFilename.value == "" then "unknown" else imageFilename.value)
  {
  }

  /** One line of the log file: an entry written by the logger (a JSON
      object, never blank), or a line the file already held. */
  datatype Line = Logged(entry: Entry) | Foreign(text: string)

  /** Whether `get_log_count` counts a line: `line.strip()` is not empty. */
  predicate Counted(line: Line) {
    line.Logged? || Strip(line.text) != ""
  }

  /** The number of lines `get_log_count` counts. */
  function CountedLines(lines: seq<Line>): (n: nat)
    ensures n <= |lines|
    decreases |lines|
  {
    if |lines| == 0 then 0
    else CountedLines(lines[..|lines| - 1]) + (if Counted(lines[|lines| - 1]) then 1 else 0)
  }

  /** Every entry the logger appends adds one to the count, whatever the
      file held before. */
  lemma {:induction false} LoggedLinesCount(lines: seq<Line>, added: seq<Line>)
    requires forall k :: 0 <= k < |added| ==> added[k].Logged?
    ensures CountedLines(lines + added) == CountedLines(lines) + |added|
    decreases |added|
  {
    if |added| == 0 {
      assert lines + added == lines;
    } else {
      var init := added[..|added| - 1];
      assert (lines + added)[..|lines + added| - 1] == lines + init;
      assert (lines + added)[|lines + added| - 1] == added[|added| - 1];
      LoggedLinesCount(lines, init);
    }
  }

  /** Blank lines are not counted: a file of blank lines counts 0. */
  lemma {:induction false} BlankLinesNotCounted(lines: seq<Line>)
    requires forall k :: 0 <= k < |lines| ==> lines[k].Foreign? && Strip(lines[k].text) == ""
    ensures CountedLines(lines) == 0
    decreases |lines|
  {
    if |lines| > 0 {
      BlankLinesNotCounted(lines[..|lines| - 1]);
    }
  }

  /** The log file. */
  class DeadLetterLog {
    var lines: seq<Line>

    /** A logger on a file holding `existing`; `[]` when there is no file
        yet. */
    constructor(existing: seq<Line>)
      ensures lines == existing
    {
      lines := existing;
    }

    /** `log_parsing_error`: appends one entry; a failed write is swallowed
        and appends nothing. */
    method LogParsingError(now: int, bossName: string, errorSummary: string,
                           rawData: Option<string>, writeSucceeds: bool)
      modifies this
      ensures lines == old(lines) +
        (if writeSucceeds then [Logged(Entry(now, bossName, errorSummary, ParsingSnippet(rawData)))] else [])
    {
      var entry := Entry(now, bossName, errorSummary, TruncateSnippet(if rawData.Some? then rawData.value else "", MaxSnippetLength));
      if writeSucceeds {
        lines := lines + [Logged(entry)];
      }
    }

    /** `log_image_error`: appends one entry whose snippet names the file; a
        failed write is swallowed and appends nothing. */
    method LogImageError(now: int, bossName: string, errorSummary: string,
                         imageFilename: Option<string>, writeSucceeds: bool)
      modifies this
      ensures lines == old(lines) +
        (if writeSucceeds then [Logged(Entry(now, bossName, errorSummary, ImageSnippet(imageFilename)))] else [])
    {
      var name := if imageFilename.Some? && imageFilename.value != "" then imageFilename.value else "unknown";
      if writeSucceeds {
        lines := lines + [Logged(Entry(now, bossName, errorSummary, "Image filename: " + name))];
      }
    }

    /** `get_log_count`: the number of lines that are not blank; 0 when the
        file cannot be read (a missing file reads as no lines). */
    method GetLogCount(readSucceeds: bool) returns (n: nat)
      ensures n == (if readSucceeds then CountedLines(lines) else 0)
    {
      if !readSucceeds {
        return 0;
      }
      n := 0;
      for i := 0 to |lines|
        invariant n == CountedLines(lines[..i])
      {
        assert lines[..i + 1][..i] == lines[..i];
        if lines[i].Logged? || Strip(lines[i].text) != "" {
          n := n + 1;
        }
      }
      assert lines[..|lines|] == lines;
    }

    /** `clear_logs`: deletes the file; a failed deletion is swallowed. */
    method ClearLogs(deleteSucceeds: bool)
      modifies this
      ensures lines == (if deleteSucceeds then [] else old(lines))
    {
      if deleteSucceeds {
        lines := [];
      }
    }
  }

  /** The logger's own test of counting and clearing: two logged errors
      count two, and after clearing the count is 0. */
  method CountScenario(t: int, summary: string, raw: string)
    returns (before: nat, afterTwo: nat, afterClear: nat)
    ensures before == 0 && afterTwo == 2 && afterClear == 0
  {
    var log := new DeadLetterLog([]);
    before := log.GetLogCount(true);
    log.LogParsingError(t, "Boss A", summary, Some(raw), true);
    log.LogImageError(t, "Boss B", summary, None, true);
    afterTwo := log.GetLogCount(true);
    log.ClearLogs(true);
    afterClear := log.GetLogCount(true);
  }
}
