/**
 * The final dashboard (ContentMISFinals.py): the store helpers catch their own
 * exceptions and leave the text in the session's error message, and the pages
 * add delete-by-serial with renumbering.
 */
module Finals {
  import opened Records
  import opened Tables
  import opened Access

  /** `st.session_state.error_message`: a page's own text, or an exception a store helper caught. */
  datatype Notice = Text(text: string) | Raised(fault: Fault)

  const FillCourseName: string := "Please fill at least the Course Name."

  /** The forms that submit to the store, one per table. */
  datatype Form =
    | DailyTask | Training | AuditLog
    | PrimaryAudit | AuditCalendar | FeedbackSummary
    | LessonPlanQc | TextbookQc | WorksheetQc
    | MisTemplate | Kpi | TeamKpi

  function FileOf(f: Form): string {
    match f
    case DailyTask => "content_team_daily_tasks.csv"
    case Training => "content_team_training_tracker.csv"
    case AuditLog => "content_team_audit_logs.csv"
    case PrimaryAudit => "primary_content_audit.csv"
    case AuditCalendar => "audit_calendar.csv"
    case FeedbackSummary => "feedback_summary.csv"
    case LessonPlanQc => "lesson_plan_qc.csv"
    case TextbookQc => "textbook_qc.csv"
    case WorksheetQc => "worksheet_qc.csv"
    case MisTemplate => "mis_template.csv"
    case Kpi => "kpi_page.csv"
    case TeamKpi => "content_team_kpis.csv"
  }

  /** The required-field check each form runs before inserting, with the message it sets otherwise. */
  function GateOf(f: Form): Gate {
    match f
    case DailyTask => AllFilled(["Team Member", "Task Description"], FillAllRequired)
    case Training => AllFilled(["Team Member", "Training Name"], FillAllRequired)
    case AuditLog => AllFilled(["Team Member", "Document/Task"], FillAllRequired)
    case PrimaryAudit => AllFilled(["Course Name"], FillCourseName)
    case AuditCalendar => AllFilled(["Courses for Audit"], "Please fill at least Courses for Audit.")
    case FeedbackSummary => AllFilled(["Course Name"], "Please fill at least Course Name.")
    case LessonPlanQc => AllFilled(["COURSE NAME"], FillCourseName)
    case TextbookQc => AllFilled(["COURSE NAME"], FillCourseName)
    case WorksheetQc => AllFilled(["COURSE NAME"], FillCourseName)
    case MisTemplate =>
      AnyFilled(["Curriculum Modules Built", "Modules Revised"], "Please fill at least one metric field.")
    case Kpi => Always
    case TeamKpi => Always
  }

  /** `s.replace(from, to)` for a one-character pattern. */
  function Replace(s: string, from: char, to: char): (r: string)
    ensures |r| == |s|
    ensures forall i :: 0 <= i < |s| ==> r[i] == if s[i] == from then to else s[i]
  {
    if s == [] then [] else [if s[0] == from then to else s[0]] + Replace(s[1..], from, to)
  }

  /**
   * The top-level handler's `str(e).replace('\n', ' ').replace('\r', ' ')`:
   * same length, no line breaks left, every other character kept.
   */
  function Sanitize(message: string): (r: string)
    ensures |r| == |message|
    ensures '\n' !in r && '\r' !in r
    ensures forall i :: 0 <= i < |message| ==>
      r[i] == if message[i] == '\n' || message[i] == '\r' then ' ' else message[i]
  {
    Replace(Replace(message, '\n', ' '), '\r', ' ')
  }

  /** The error message a store helper leaves after reading, then writing, the path. */
  function IoNotice(e: Option<Entry>, path: string, before: Notice): Notice {
    if e == Some(Directory) then Raised(IsADirectory(path))
    else if e == Some(Unreadable) then Raised(ParseFailed(path))
    else before
  }

  /** One browser session of the app, with the files it works on. */
  class Session {
    var files: map<string, Entry>
    var loggedIn: bool
    var errorMessage: Notice

    constructor (disk: map<string, Entry>)
      ensures files == disk && !loggedIn && errorMessage == Text("")
    {
      files := disk;
      loggedIn := false;
      errorMessage := Text("");
    }

    /** The login button: credentials must match exactly; the files are never touched. */
    method Login(username: string, password: string)
      modifies this`loggedIn, this`errorMessage
      ensures Authenticates(username, password) ==> loggedIn && errorMessage == old(errorMessage)
      ensures !Authenticates(username, password) ==>
        loggedIn == old(loggedIn) && errorMessage == Text(InvalidCredentials)
    {
      if Authenticates(username, password) {
        loggedIn := true;
      } else {
        errorMessage := Text(InvalidCredentials);
      }
    }

    /** `create_csv`: an empty table with `columns` where nothing exists; anything already there is left as it is. */
    method CreateCsv(path: string, columns: seq<string>)
      modifies this`files
      ensures path !in old(files) ==> files == old(files)[path := Csv(EmptyTable(columns))]
      ensures path in old(files) ==> files == old(files)
      ensures AllContiguous(old(files)) ==> AllContiguous(files)
    {
      if path !in files {
        files := files[path := Csv(EmptyTable(columns))];
      }
    }

    /**
     * `fetch_data`: the stored table of a readable file; otherwise the empty
     * table shaped by `columns`, recording the error when the file exists
     * but cannot be parsed. It never raises.
     */
    method FetchData(path: string, columns: seq<string>) returns (t: Table)
      modifies this`errorMessage
      ensures t == Loaded(At(files, path), columns)
      ensures At(files, path) == Some(Unreadable) ==> errorMessage == Raised(ParseFailed(path))
      ensures At(files, path) != Some(Unreadable) ==> errorMessage == old(errorMessage)
      ensures AllContiguous(files) ==> Contiguous(t.rows)
    {
      match At(files, path)
      case Some(Csv(stored)) =>
        t := stored;
      case Some(Unreadable) =>
        errorMessage := Raised(ParseFailed(path));
        t := EmptyTable(columns);
      case _ =>
        t := EmptyTable(columns);
    }

    /**
     * `insert_data`: read the table (a missing or unreadable file reads as an
     * empty table whose header is the record's keys), append the record with
     * serial = row count + 1 and write the whole table back. A directory at
     * the path makes the write fail and the files stay as they were.
     */
    method InsertData(path: string, d: Record)
      modifies this`files, this`errorMessage
      ensures files == Written(old(files), path, Appended(Loaded(At(old(files), path), Keys(d)), d))
      ensures At(old(files), path) in {None, Some(Unreadable)} ==>
        files == old(files)[path := Csv(Appended(EmptyTable(Keys(d)), d))]
      ensures errorMessage == IoNotice(At(old(files), path), path, old(errorMessage))
      ensures AllContiguous(old(files)) ==> AllContiguous(files)
    {
      var before := At(files, path);
      var t := FetchData(path, Keys(d));
      assert before in {None, Some(Unreadable)} ==> t == EmptyTable(Keys(d));
      var table := Appended(t, d);
      if AllContiguous(files) {
        WrittenKeepsContiguous(files, path, table);
      }
      if before == Some(Directory) {
        errorMessage := Raised(IsADirectory(path));
      } else {
        files := files[path := Csv(table)];
      }
    }

    /**
     * The delete button: read the table, drop the rows whose serial is
     * `serial`, renumber the rest 1..n and write it back.
     */
    method DeleteEntry(path: string, columns: seq<string>, serial: int)
      modifies this`files, this`errorMessage
      ensures files == Written(old(files), path, Deleted(Loaded(At(old(files), path), columns), serial))
      ensures At(old(files), path) in {None, Some(Unreadable)} ==>
        files == old(files)[path := Csv(EmptyTable(columns))]
      ensures errorMessage == IoNotice(At(old(files), path), path, old(errorMessage))
      ensures AllContiguous(old(files)) ==> AllContiguous(files)
    {
      var t := FetchData(path, columns);
      var table := Deleted(t, serial);
      if AllContiguous(files) {
        WrittenKeepsContiguous(files, path, table);
      }
      if At(files, path) == Some(Directory) {
        errorMessage := Raised(IsADirectory(path));
      } else {
        files := files[path := Csv(table)];
      }
    }

    /**
     * A form's submit button: insert only when the form's required fields
     * are filled; otherwise set the form's message and leave the files alone.
     */
    method SubmitForm(f: Form, d: Record)
      modifies this`files, this`errorMessage
      ensures !Admits(GateOf(f), d) ==> files == old(files) && errorMessage == Text(GateOf(f).message)
      ensures Admits(GateOf(f), d) ==>
        files == Written(old(files), FileOf(f), Appended(Loaded(At(old(files), FileOf(f)), Keys(d)), d))
      ensures Admits(GateOf(f), d) ==> errorMessage == IoNotice(At(old(files), FileOf(f)), FileOf(f), old(errorMessage))
      ensures AllContiguous(old(files)) ==> AllContiguous(files)
    {
      if Admits(GateOf(f), d) {
        InsertData(FileOf(f), d);
      } else {
        errorMessage := Text(GateOf(f).message);
      }
    }

    /** The top-level handler: an exception that reached it is stored with its line breaks blanked. */
    method ReportUnhandled(message: string)
      modifies this`errorMessage
      ensures errorMessage == Text(Sanitize(message))
    {
      errorMessage := Text(Sanitize(message));
    }
  }
}
