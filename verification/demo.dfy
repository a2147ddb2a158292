/**
 * The first dashboard (ContentMISDemo.py): the same store helpers without any
 * exception handling, so an I/O error escapes the page, and no delete.
 */
module Demo {
  import opened Records
  import opened Tables
  import opened Access

  /** The forms that submit to the store, one per table. */
  datatype Form =
    | DailyTask | Training | AuditLog
    | PrimaryAudit | AuditCalendar | FeedbackSummary
    | MainContentQc | TextbookQc | WorksheetQc
    | MisTemplate | Kpi | TeamKpi

  function FileOf(f: Form): string {
    match f
    case DailyTask => "content_team_daily_tasks.csv"
    case Training => "content_team_training_tracker.csv"
    case AuditLog => "content_team_audit_logs.csv"
    case PrimaryAudit => "primary_content_audit.csv"
    case AuditCalendar => "audit_calendar.csv"
    case FeedbackSummary => "feedback_summary.csv"
    case MainContentQc => "main_content_qc.csv"
    case TextbookQc => "textbook_qc.csv"
    case WorksheetQc => "worksheet_qc.csv"
    case MisTemplate => "mis_template.csv"
    case Kpi => "kpi_page.csv"
    case TeamKpi => "content_team_kpis.csv"
  }

  /** Only the three template forms check required fields; the others insert unconditionally. */
  function GateOf(f: Form): Gate {
    match f
    case DailyTask => AllFilled(["Team Member", "Task Description"], FillAllRequired)
    case Training => AllFilled(["Team Member", "Training Name"], FillAllRequired)
    case AuditLog => AllFilled(["Team Member", "Document/Task"], FillAllRequired)
    case _ => Always
  }

  /** What a submission shows: success, the form's refusal, or the exception that escaped. */
  datatype Feedback = Saved | Refused(message: string) | Crashed(fault: Fault)

  /** One browser session of the app, with the files it works on. */
  class Session {
    var files: map<string, Entry>
    var loggedIn: bool

    constructor (disk: map<string, Entry>)
      ensures files == disk && !loggedIn
    {
      files := disk;
      loggedIn := false;
    }

    /** The login button: credentials must match exactly; a failure is only displayed. */
    method Login(username: string, password: string) returns (shown: Option<string>)
      modifies this`loggedIn
      ensures Authenticates(username, password) ==> loggedIn && shown == None
      ensures !Authenticates(username, password) ==>
        loggedIn == old(loggedIn) && shown == Some(InvalidCredentials)
    {
      if Authenticates(username, password) {
        loggedIn := true;
        shown := None;
      } else {
        shown := Some(InvalidCredentials);
      }
    }

    /** `create_csv`: an empty table with `columns` where nothing exists; anything already there is left as it is. */
    method CreateCsv(path: string, columns: seq<string>)
      modifies this`files
      ensures path !in old(files) ==> files == old(files)[path := Csv(EmptyTable(columns))]
      ensures path in old(files) ==> files == old(files)
      ensures AllContiguous(old(files)) ==> AllContiguous(files)
    {
      if path !in files {
        files := files[path := Csv(EmptyTable(columns))];
      }
    }

    /**
     * `fetch_data`: the stored table of a readable file, the empty table
     * shaped by `columns` when there is no file, and the parse error when
     * the file cannot be read.
     */
    function FetchData(path: string, columns: seq<string>): (r: Result<Table>)
      reads this
      ensures r.Failure? <==> At(files, path) == Some(Unreadable)
      ensures r.Failure? ==> r.fault == ParseFailed(path)
      ensures path !in files ==> r == Success(EmptyTable(columns))
      ensures r.Success? ==> r.value == Loaded(At(files, path), columns)
    {
      match At(files, path)
      case Some(Csv(t)) => Success(t)
      case Some(Unreadable) => Failure(ParseFailed(path))
      case _ => Success(EmptyTable(columns))
    }

    /**
     * `insert_data`: read the table (a missing path reads as an empty table
     * whose header is the record's keys), append the record with serial =
     * row count + 1 and write the whole table back. A read or write error
     * escapes and the files stay as they were.
     */
    method InsertData(path: string, d: Record) returns (raised: Option<Fault>)
      modifies this`files
      ensures At(old(files), path) == Some(Unreadable) ==>
        raised == Some(ParseFailed(path)) && files == old(files)
      ensures At(old(files), path) == Some(Directory) ==>
        raised == Some(IsADirectory(path)) && files == old(files)
      ensures At(old(files), path) !in {Some(Unreadable), Some(Directory)} ==>
        raised == None &&
        files == old(files)[path := Csv(Appended(Loaded(At(old(files), path), Keys(d)), d))]
      ensures AllContiguous(old(files)) ==> AllContiguous(files)
    {
      var fetched := FetchData(path, Keys(d));
      if fetched.Failure? {
        return Some(fetched.fault);
      }
      var table := Appended(fetched.value, d);
      if At(files, path) == Some(Directory) {
        return Some(IsADirectory(path));
      }
      if AllContiguous(files) {
        WrittenKeepsContiguous(files, path, table);
      }
      files := files[path := Csv(table)];
      raised := None;
    }

    /**
     * A form's submit button: insert only when the form's required fields
     * are filled; otherwise show the refusal and leave the files alone. An
     * error raised by the insert escapes the page, and nothing is written.
     */
    method SubmitForm(f: Form, d: Record) returns (shown: Feedback)
      modifies this`files
      ensures !Admits(GateOf(f), d) ==> files == old(files) && shown == Refused(FillAllRequired)
      ensures shown.Refused? <==> !Admits(GateOf(f), d)
      ensures shown.Crashed? ==> files == old(files)
      ensures Admits(GateOf(f), d) && At(old(files), FileOf(f)) == Some(Unreadable) ==>
        shown == Crashed(ParseFailed(FileOf(f))) && files == old(files)
      ensures Admits(GateOf(f), d) && At(old(files), FileOf(f)) == Some(Directory) ==>
        shown == Crashed(IsADirectory(FileOf(f))) && files == old(files)
      ensures shown == Saved <==>
        Admits(GateOf(f), d) && At(old(files), FileOf(f)) !in {Some(Unreadable), Some(Directory)}
      ensures shown == Saved ==>
        files == old(files)[FileOf(f) := Csv(Appended(Loaded(At(old(files), FileOf(f)), Keys(d)), d))]
      ensures AllContiguous(old(files)) ==> AllContiguous(files)
    {
      if Admits(GateOf(f), d) {
        var raised := InsertData(FileOf(f), d);
        shown := if raised.Some? then Crashed(raised.value) else Saved;
      } else {
        shown := Refused(FillAllRequired);
      }
    }
  }
}
