/**
 * UploadingModel (client.py:88-241) without Qt: the job list is a
 * sequence field that startUpload extends and the two signal handlers
 * update in place.  The outcomes of opening the file and of posting the
 * request are parameters, as is the reply that sent a progress signal.
 */
module Uploading {

  import opened Wrappers
  import opened Progress
  import opened Multipart
  import opened JobTable

  const FILE_COLUMN := 0
  const PROGRESS_COLUMN := 1

  /** Qt.DisplayRole. */
  const DISPLAY_ROLE := 0

  /** What QNetworkAccessManager.post hands back: no reply, or a reply and its current error. */
  datatype PostResult = NullReply | Reply(id: ReplyId, error: ReplyError)

  /** A cell of the table: a job's file name, or its raw progress value. */
  datatype Cell = FileCell(name: string) | ProgressCell(progress: int)

  class UploadingModel {
    var jobs: seq<Job>

    constructor ()
      ensures jobs == []
    {
      jobs := [];
    }

    /**
     * startUpload (client.py:110-154).  When the file opens, the request
     * carrying UploadPart(path, mimeType) is posted; a job is appended only
     * when post returned a reply that reports no error.
     */
    method StartUpload(path: string, fileOpens: bool, mimeType: string, post: PostResult)
      returns (sent: Option<FilePart>, started: bool)
      modifies this
      ensures sent == if fileOpens then Some(UploadPart(path, mimeType)) else None
      ensures started <==> fileOpens && post.Reply? && post.error == NoError
      ensures started ==> jobs == old(jobs) + [NewJob(path, post.id)] && RowCount() == old(RowCount()) + 1
      ensures !started ==> jobs == old(jobs)
      ensures started && old(DistinctReplies(jobs)) && RowOf(old(jobs), post.id) == -1 ==> DistinctReplies(jobs)
      ensures old(AllKnown(jobs)) ==> AllKnown(jobs)
    {
      sent, started := None, false;
      if !fileOpens {
        return;
      }
      var part := FilePart(mimeType, ContentDisposition(BaseName(path)));
      sent := Some(part);
      if post.NullReply? {
        return;
      }
      if post.error != NoError {
        return;
      }
      ghost var before := jobs;
      jobs := jobs + [Job(path, post.id, UPLOAD_STATUS_STARTING)];
      started := true;
      if AllKnown(before) {
        AppendKeepsKnown(before, path, post.id);
      }
      if DistinctReplies(before) && RowOf(before, post.id) == -1 {
        AppendKeepsDistinct(before, NewJob(path, post.id));
      }
    }

    /**
     * cancelUpload (client.py:156-158): the reply of the job at row, which
     * is then aborted.  Rows follow Python list indexing: a negative row
     * counts from the end, and a row out of range raises IndexError (None).
     * The table itself is not changed; the aborted reply later finishes
     * with OperationCanceled.
     */
    method CancelUpload(row: int) returns (aborted: Option<ReplyId>)
      ensures 0 <= row < |jobs| ==> aborted == Some(jobs[row].reply)
      ensures -|jobs| <= row < 0 ==> aborted == Some(jobs[|jobs| + row].reply)
      ensures aborted.None? <==> row < -|jobs| || |jobs| <= row
    {
      if 0 <= row < |jobs| {
        aborted := Some(jobs[row].reply);
      } else if -|jobs| <= row < 0 {
        aborted := Some(jobs[|jobs| + row].reply);
      } else {
        aborted := None;
      }
    }

    /** onUploadFinished (client.py:165-180). */
    method OnUploadFinished(reply: ReplyId, error: ReplyError)
      modifies this
      ensures jobs == Finish(old(jobs), reply, error)
      ensures old(AllKnown(jobs)) ==> AllKnown(jobs)
      ensures old(DistinctReplies(jobs)) ==> DistinctReplies(jobs)
    {
      var status := UPLOAD_STATUS_FINISHED;
      if error != NoError {
        if error == OperationCanceled {
          status := UPLOAD_STATUS_CANCEL;
        } else {
          status := UPLOAD_STATUS_ERROR;
        }
      }
      var replyRow := IndexOf(reply);
      if replyRow == -1 {
        return;
      }
      ghost var before := jobs;
      jobs := jobs[replyRow := jobs[replyRow].(progress := status)];
      if DistinctReplies(before) {
        EventsKeepDistinct(before, reply, error, None, 0, 0);
      }
    }

    /**
     * onUploadProgressChanged (client.py:183-200); sender is the reply
     * that emitted the signal, if any.  raised reports the
     * ZeroDivisionError of a non-zero bytesSent over a zero bytesTotal,
     * which leaves the row as it was.
     */
    method OnUploadProgressChanged(sender: Option<ReplyId>, bytesSent: int, bytesTotal: int)
      returns (raised: bool)
      modifies this
      ensures raised == ProgressRaises(old(jobs), sender, bytesSent, bytesTotal)
      ensures jobs == ProgressUpdate(old(jobs), sender, bytesSent, bytesTotal)
      ensures old(AllKnown(jobs)) && (bytesSent == 0 || 0 < bytesSent <= bytesTotal) ==> AllKnown(jobs)
      ensures old(DistinctReplies(jobs)) ==> DistinctReplies(jobs)
    {
      ghost var before := jobs;
      if DistinctReplies(before) {
        EventsKeepDistinct(before, 0, NoError, sender, bytesSent, bytesTotal);
      }
      if AllKnown(before) && (bytesSent == 0 || 0 < bytesSent <= bytesTotal) {
        ProgressKeepsKnown(before, sender, bytesSent, bytesTotal);
      }
      raised := false;
      if sender.None? {
        return;
      }
      var replyRow := IndexOf(sender.value);
      if replyRow == -1 {
        return;
      }
      if bytesSent == 0 {
        jobs := jobs[replyRow := jobs[replyRow].(progress := 0)];
      } else if bytesTotal == 0 {
        raised := true;
      } else {
        jobs := jobs[replyRow := jobs[replyRow].(progress := TruncDiv(bytesSent * 100, bytesTotal))];
      }
    }

    /** indexOf (client.py:203-207): a linear search for the first row of reply. */
    method IndexOf(reply: ReplyId) returns (row: int)
      ensures -1 <= row < |jobs|
      ensures row >= 0 ==> jobs[row].reply == reply && forall i :: 0 <= i < row ==> jobs[i].reply != reply
      ensures row == -1 ==> forall i :: 0 <= i < |jobs| ==> jobs[i].reply != reply
      ensures row == RowOf(jobs, reply)
    {
      var i := 0;
      while i < |jobs|
        invariant 0 <= i <= |jobs|
        invariant forall k :: 0 <= k < i ==> jobs[k].reply != reply
      {
        if jobs[i].reply == reply {
          return i;
        }
        i := i + 1;
      }
      return -1;
    }

    /** columnCount (client.py:210-211): the file and progress columns. */
    function ColumnCount(): (n: nat)
      ensures n == 2 && FILE_COLUMN < n && PROGRESS_COLUMN < n && FILE_COLUMN != PROGRESS_COLUMN
    {
      2
    }

    /** rowCount (client.py:213-214): one row per job. */
    function RowCount(): (n: nat)
      reads this
      ensures n == |jobs|
    {
      |jobs|
    }

    /** QAbstractItemModel.hasIndex for the root parent. */
    predicate HasIndex(row: int, column: int)
      reads this
    {
      0 <= row < RowCount() && 0 <= column < ColumnCount()
    }

    /**
     * data (client.py:216-227): for the display role and an existing cell,
     * the job's file name in the file column and its progress value in the
     * progress column; None otherwise.
     */
    function Data(row: int, column: int, role: int): (cell: Option<Cell>)
      reads this
      ensures cell.Some? <==> role == DISPLAY_ROLE && 0 <= row < |jobs| && (column == FILE_COLUMN || column == PROGRESS_COLUMN)
      ensures cell.Some? && column == FILE_COLUMN ==> cell.value == FileCell(jobs[row].file)
      ensures cell.Some? && column == PROGRESS_COLUMN ==> cell.value == ProgressCell(jobs[row].progress)
    {
      if !HasIndex(row, column) then None
      else if role == DISPLAY_ROLE then
        if column == FILE_COLUMN then Some(FileCell(jobs[row].file))
        else if column == PROGRESS_COLUMN then Some(ProgressCell(jobs[row].progress))
        else None
      else None
    }
  }

  /**
   * One upload driven through the model: a file is started, half of it is
   * sent, and the upload succeeds.
   */
  method ReportScenario()
  {
    var model := new UploadingModel();
    var sent, started := model.StartUpload("/tmp/report.pdf", true, "application/pdf", Reply(5, NoError));
    var job := Job("/tmp/report.pdf", 5, UPLOAD_STATUS_STARTING);
    assert started && model.jobs == [job];
    assert TruncDiv(500 * 100, 1000) == 50;
    assert EventRow([job], Some(5)) == 0;
    var raised := model.OnUploadProgressChanged(Some(5), 500, 1000);
    assert !raised && model.jobs == [job.(progress := 50)];
    model.OnUploadFinished(5, NoError);
    assert model.jobs == [job.(progress := UPLOAD_STATUS_FINISHED)];
    assert model.Data(0, PROGRESS_COLUMN, DISPLAY_ROLE) == Some(ProgressCell(UPLOAD_STATUS_FINISHED));
  }
}
