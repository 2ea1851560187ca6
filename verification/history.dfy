/** The history file `last_run.txt`: `load_last_run_time` and the content that
    `save_last_run_time` writes. The file is `None` when it does not exist. */
module History {
  import opened Wrappers
  import opened Text
  import opened Listing
  import opened Report

  /** Shown when there is no history file. */
  const NoFileText: string := "파일 없음 (최초 실행)"
  /** Shown when the history file's first line is blank. */
  const NoRecordText: string := "기록 없음 (최초 실행)"

  /** `load_last_run_time`: the first line without surrounding space, or one of the two
      placeholders. The result is never empty. */
  function LoadLastRunTime(file: Option<string>): (shown: string)
    ensures file.None? ==> shown == NoFileText
    ensures file.Some? && Strip(FirstLine(file.value)) == "" ==> shown == NoRecordText
    ensures file.Some? && Strip(FirstLine(file.value)) != "" ==> shown == Strip(FirstLine(file.value))
    ensures shown != ""
  {
    match file
    case None => NoFileText
    case Some(content) =>
      var first := Strip(FirstLine(content));
      if first != "" then first else NoRecordText
  }

  /** What a save carries over from the old file: everything after its first line. */
  function CarriedOver(file: Option<string>): (kept: string)
    ensures file.None? ==> kept == ""
    ensures file.Some? ==> FirstLine(file.value) + kept == file.value
  {
    match file
    case None => ""
    case Some(content) => DropFirstLine(content)
  }

  /** The new record: the save time, the text report (formatted at `reportTime`, a
      second reading of the clock) and a blank line. */
  function NewRecord(now: string, reportTime: string, jobs: seq<Job>): string
    requires AllRenderable(jobs)
  {
    now + "\n" + FormatText(jobs, reportTime) + "\n\n"
  }

  /** The whole file after a successful save: the new record, then the old file
      without its first line. */
  function SavedText(file: Option<string>, now: string, reportTime: string, jobs: seq<Job>): string
    requires AllRenderable(jobs)
  {
    NewRecord(now, reportTime, jobs) + CarriedOver(file)
  }

  /** `save_last_run_time`. `ioOk` is false when reading the old file or opening it for
      writing fails; the error is reported and the file is left as it was. */
  method SaveLastRunTime(file: Option<string>, now: string, reportTime: string, jobs: seq<Job>, ioOk: bool)
    returns (file': Option<string>)
    requires AllRenderable(jobs)
    ensures ioOk ==> file' == Some(SavedText(file, now, reportTime, jobs))
    ensures !ioOk ==> file' == file
  {
    var report := FormatJobsForTxt(jobs, reportTime);
    var newRecord := now + "\n" + report + "\n\n";
    if !ioOk {
      return file;
    }
    var oldContent := "";
    if file.Some? {
      oldContent := DropFirstLine(file.value);
    }
    file' := Some(newRecord + oldContent);
  }

  /** The saved text is the time line followed by everything else. */
  lemma RecordShape(now: string, report: string, kept: string)
    ensures (now + "\n" + report + "\n\n") + kept == now + "\n" + (report + "\n\n" + kept)
  {
  }

  /** A time with no line break and no surrounding space saved to the file is what the
      next load shows. */
  lemma LoadAfterSave(file: Option<string>, now: string, reportTime: string, jobs: seq<Job>)
    requires AllRenderable(jobs)
    requires now != "" && Trimmed(now) && '\n' !in now
    ensures LoadLastRunTime(Some(SavedText(file, now, reportTime, jobs))) == now
  {
    var rest := FormatText(jobs, reportTime) + "\n\n" + CarriedOver(file);
    RecordShape(now, FormatText(jobs, reportTime), CarriedOver(file));
    SplitAfterLine(now, rest);
    StripLineBreak(now);
  }

  /** A save drops the previous time line: what follows the new time line is the new
      report and then the old file minus its first line. */
  lemma SaveDropsOldTime(file: Option<string>, now: string, reportTime: string, jobs: seq<Job>)
    requires AllRenderable(jobs) && '\n' !in now
    ensures FirstLine(SavedText(file, now, reportTime, jobs)) == now + "\n"
    ensures DropFirstLine(SavedText(file, now, reportTime, jobs))
            == FormatText(jobs, reportTime) + "\n\n" + CarriedOver(file)
  {
    var rest := FormatText(jobs, reportTime) + "\n\n" + CarriedOver(file);
    RecordShape(now, FormatText(jobs, reportTime), CarriedOver(file));
    SplitAfterLine(now, rest);
  }

  /** Two saves in a row: the file holds the second time and report, the first report,
      and what the first save carried over; the first save's time is gone. */
  lemma TwoSaves(file: Option<string>, t1: string, r1: string, jobs1: seq<Job>,
                 t2: string, r2: string, jobs2: seq<Job>)
    requires AllRenderable(jobs1) && AllRenderable(jobs2) && '\n' !in t1
    ensures SavedText(Some(SavedText(file, t1, r1, jobs1)), t2, r2, jobs2)
            == t2 + "\n" + FormatText(jobs2, r2) + "\n\n"
               + FormatText(jobs1, r1) + "\n\n" + CarriedOver(file)
  {
    var f1 := SavedText(file, t1, r1, jobs1);
    SaveDropsOldTime(file, t1, r1, jobs1);
    var head := t2 + "\n" + FormatText(jobs2, r2) + "\n\n";
    var report1 := FormatText(jobs1, r1);
    assert SavedText(Some(f1), t2, r2, jobs2) == head + (report1 + "\n\n" + CarriedOver(file));
    AppendAssoc(head, report1 + "\n\n", CarriedOver(file));
    AppendAssoc(head, report1, "\n\n");
  }

  /** A successful save always changes the file: the new record ends in a blank line,
      so it cannot be the old first line, which holds at most one line break. */
  lemma SaveChangesFile(file: Option<string>, now: string, reportTime: string, jobs: seq<Job>)
    requires AllRenderable(jobs)
    ensures Some(SavedText(file, now, reportTime, jobs)) != file
  {
    if file.Some? {
      var record := NewRecord(now, reportTime, jobs);
      assert record[|record| - 2] == '\n';
    }
  }

  /** The clock reading `%Y-%m-%d %H:%M:%S`. */
  predicate IsTimestamp(t: string)
  {
    |t| == 19 && t[4] == '-' && t[7] == '-' && t[10] == ' ' && t[13] == ':' && t[16] == ':'
    && forall i :: 0 <= i < 19 && i !in {4, 7, 10, 13, 16} ==> '0' <= t[i] <= '9'
  }

  /** Neither placeholder can be mistaken for a recorded time, and they differ. */
  lemma PlaceholdersAreNotTimes()
    ensures !IsTimestamp(NoFileText) && !IsTimestamp(NoRecordText)
    ensures NoFileText != NoRecordText
  {
  }

  /** A recorded time survives the trip through the file. */
  lemma TimestampRoundTrip(file: Option<string>, now: string, reportTime: string, jobs: seq<Job>)
    requires AllRenderable(jobs) && IsTimestamp(now)
    ensures LoadLastRunTime(Some(SavedText(file, now, reportTime, jobs))) == now
  {
    assert !IsSpace(now[0]) && !IsSpace(now[18]);
    assert forall i :: 0 <= i < |now| ==> now[i] != '\n';
    LoadAfterSave(file, now, reportTime, jobs);
  }
}
