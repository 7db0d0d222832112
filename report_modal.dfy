/**
 * The report dialog: a report type and a description are required; the
 * report is appended to the stored report list, after a wait, and the form
 * is reset.  The wait splits the handler into the check that starts it and
 * the step that finishes it.
 */
module ReportModal {
  import opened Wrappers
  import opened Text

  /** The reporter id every report carries. */
  const REPORTER_ID := "current-user-id"

  /** A stored report. */
  datatype Report = Report(postId: string, postTitle: string, reportType: string, description: string, reporterId: string, timestamp: int)

  /** What a started submission captured: the post, the type and the trimmed description. */
  datatype Request = Request(postId: string, postTitle: string, reportType: string, description: string)

  /** The stored report list as the handler reads it: absent, unreadable, or a list. */
  datatype SavedReports = NoReports | Unreadable | Reports(reports: seq<Report>)

  /** The report a request becomes once the wait is over. */
  function ReportOf(req: Request, now: int): (r: Report)
    ensures r.postId == req.postId && r.postTitle == req.postTitle && r.reportType == req.reportType
    ensures r.description == req.description && r.reporterId == REPORTER_ID && r.timestamp == now
  {
    Report(req.postId, req.postTitle, req.reportType, req.description, REPORTER_ID, now)
  }

  /**
   * The list written back: the stored reports (none when absent) with the
   * new one at the end; nothing is written when the stored list cannot be
   * read.
   */
  function Appended(saved: SavedReports, report: Report): (r: Option<seq<Report>>)
    ensures r.None? <==> saved.Unreadable?
    ensures saved.NoReports? ==> r == Some([report])
    ensures saved.Reports? ==>
      && r.Some? && |r.value| == |saved.reports| + 1
      && r.value[..|saved.reports|] == saved.reports && r.value[|saved.reports|] == report
  {
    match saved
    case NoReports => Some([report])
    case Unreadable => None
    case Reports(reports) => Some(reports + [report])
  }

  /** Reports are only ever added: each earlier report keeps its place and one more is counted. */
  lemma AppendedKeepsEarlier(saved: SavedReports, report: Report, k: int)
    requires saved.Reports? && 0 <= k < |saved.reports|
    ensures Appended(saved, report).value[k] == saved.reports[k]
    ensures multiset(Appended(saved, report).value) == multiset(saved.reports) + multiset{report}
  {
    assert Appended(saved, report).value[..|saved.reports|][k] == saved.reports[k];
  }

  /** The state of `ReportModal` for one post. */
  class ReportForm {
    const postId: string
    const postTitle: string
    var reportType: string
    var reportDescription: string
    var isSubmitting: bool
    /** The request captured when a submission started. */
    var pending: Option<Request>

    constructor (postId: string, postTitle: string)
      ensures this.postId == postId && this.postTitle == postTitle
      ensures reportType == "" && reportDescription == "" && !isSubmitting && pending == None
    {
      this.postId := postId;
      this.postTitle := postTitle;
      reportType := "";
      reportDescription := "";
      isSubmitting := false;
      pending := None;
    }

    /** `isSubmitting` is on exactly while a submission waits. */
    predicate Valid()
      reads this
    {
      isSubmitting <==> pending.Some?
    }

    /**
     * `handleSubmit` up to its wait: without a type or with a blank
     * description nothing happens; the send button is disabled while
     * submitting.
     */
    method StartSubmit() returns (started: bool)
      requires Valid() && !isSubmitting
      modifies this
      ensures Valid()
      ensures started <==> reportType != "" && !Blank(reportDescription)
      ensures started ==> pending == Some(Request(postId, postTitle, reportType, Trim(reportDescription)))
      ensures !started ==> pending == None
      ensures reportType == old(reportType) && reportDescription == old(reportDescription)
    {
      TrimEmptyIffBlank(reportDescription);
      if reportType == "" || Trim(reportDescription) == "" {
        return false;
      }
      isSubmitting := true;
      pending := Some(Request(postId, postTitle, reportType, Trim(reportDescription)));
      return true;
    }

    /**
     * The end of `handleSubmit`: the report is appended to the stored list
     * and the form is reset; when the stored list cannot be read nothing is
     * written and the form is kept.  Either way submitting ends. Only a
     * written report asks the parent to close the dialog.
     */
    method FinishSubmit(saved: SavedReports, now: int) returns (written: Option<seq<Report>>, closed: bool)
      requires Valid() && isSubmitting
      modifies this
      ensures Valid() && !isSubmitting
      ensures written == Appended(saved, ReportOf(old(pending).value, now))
      ensures closed <==> written.Some?
      ensures written.Some? ==> reportType == "" && reportDescription == ""
      ensures written.None? ==> reportType == old(reportType) && reportDescription == old(reportDescription)
    {
      written := Appended(saved, ReportOf(pending.value, now));
      if written.Some? {
        reportType := "";
        reportDescription := "";
      }
      closed := written.Some?;
      isSubmitting := false;
      pending := None;
    }

    /** `handleClose`: ignored while submitting; otherwise the form is reset. */
    method Close() returns (closed: bool)
      modifies this
      ensures closed <==> !old(isSubmitting)
      ensures closed ==> reportType == "" && reportDescription == ""
      ensures !closed ==> reportType == old(reportType) && reportDescription == old(reportDescription)
      ensures isSubmitting == old(isSubmitting) && pending == old(pending)
    {
      if isSubmitting {
        return false;
      }
      reportType := "";
      reportDescription := "";
      return true;
    }
  }
}
