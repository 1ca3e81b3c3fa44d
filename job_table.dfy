/**
 * The rows of UploadingModel's job list and the effect of the two
 * transfer events on them, as functions of the list before the event.
 */
module JobTable {

  import opened Wrappers
  import opened Progress

  /** An in-flight QNetworkReply, known only by its identity. */
  type ReplyId = nat

  /** The error a finished reply reports (QNetworkReply.error()). */
  datatype ReplyError = NoError | OperationCanceled | OtherError

  /** One upload job: the path the file was opened with, its reply, its progress. */
  datatype Job = Job(file: string, reply: ReplyId, progress: int)

  /** The first row whose reply is reply, or -1 when there is none (client.py:203-207). */
  function RowOf(jobs: seq<Job>, reply: ReplyId): (row: int)
    ensures -1 <= row < |jobs|
    ensures row >= 0 ==> jobs[row].reply == reply
    ensures row >= 0 ==> forall i :: 0 <= i < row ==> jobs[i].reply != reply
    ensures row == -1 <==> forall i :: 0 <= i < |jobs| ==> jobs[i].reply != reply
  {
    if jobs == [] then -1
    else if jobs[0].reply == reply then 0
    else
      var rest := RowOf(jobs[1..], reply);
      if rest == -1 then -1 else rest + 1
  }

  /** No reply owns two rows. */
  ghost predicate DistinctReplies(jobs: seq<Job>) {
    forall i, j :: 0 <= i < j < |jobs| ==> jobs[i].reply != jobs[j].reply
  }

  /** Every row holds a percentage or a sentinel. */
  ghost predicate AllKnown(jobs: seq<Job>) {
    forall i :: 0 <= i < |jobs| ==> IsKnownProgress(jobs[i].progress)
  }

  /**
   * after differs from before at most in the progress of row: same length,
   * every other row identical, and row keeps its file and its reply.
   */
  ghost predicate OnlyProgressAt(before: seq<Job>, after: seq<Job>, row: int) {
    && |after| == |before|
    && (forall i :: 0 <= i < |before| && i != row ==> after[i] == before[i])
    && (0 <= row < |before| ==> after[row].file == before[row].file && after[row].reply == before[row].reply)
  }

  /** The row a new job takes (client.py:147-153). */
  function NewJob(path: string, reply: ReplyId): (job: Job)
    ensures job.file == path && job.reply == reply
    ensures job.progress == UPLOAD_STATUS_STARTING && !IsTerminal(job.progress)
  {
    Job(path, reply, UPLOAD_STATUS_STARTING)
  }

  /** The progress a finished reply leaves behind (client.py:166-172). */
  function FinalStatus(error: ReplyError): (status: int)
    ensures IsTerminal(status)
    ensures status == UPLOAD_STATUS_FINISHED <==> error == NoError
    ensures status == UPLOAD_STATUS_CANCEL <==> error == OperationCanceled
    ensures status == UPLOAD_STATUS_ERROR <==> error == OtherError
  {
    match error
    case NoError => UPLOAD_STATUS_FINISHED
    case OperationCanceled => UPLOAD_STATUS_CANCEL
    case OtherError => UPLOAD_STATUS_ERROR
  }

  /** The list after a finished signal from reply (client.py:165-180). */
  function Finish(jobs: seq<Job>, reply: ReplyId, error: ReplyError): (after: seq<Job>)
    ensures OnlyProgressAt(jobs, after, RowOf(jobs, reply))
    ensures RowOf(jobs, reply) == -1 ==> after == jobs
    ensures RowOf(jobs, reply) >= 0 ==> after[RowOf(jobs, reply)].progress == FinalStatus(error)
  {
    var row := RowOf(jobs, reply);
    if row == -1 then jobs
    else jobs[row := jobs[row].(progress := FinalStatus(error))]
  }

  /** The row an uploadProgress signal addresses: -1 without a sender or for an unknown one. */
  function EventRow(jobs: seq<Job>, sender: Option<ReplyId>): (row: int)
    ensures -1 <= row < |jobs|
    ensures sender.None? ==> row == -1
    ensures sender.Some? ==> row == RowOf(jobs, sender.value)
  {
    if sender.None? then -1 else RowOf(jobs, sender.value)
  }

  /**
   * Whether the handler raises ZeroDivisionError before assigning
   * (client.py:193-197): the row exists, something was sent, the total is 0.
   */
  predicate ProgressRaises(jobs: seq<Job>, sender: Option<ReplyId>, bytesSent: int, bytesTotal: int) {
    EventRow(jobs, sender) >= 0 && Percent(bytesSent, bytesTotal).None?
  }

  /** The list after an uploadProgress signal (client.py:183-200). */
  function ProgressUpdate(jobs: seq<Job>, sender: Option<ReplyId>, bytesSent: int, bytesTotal: int)
    : (after: seq<Job>)
    ensures OnlyProgressAt(jobs, after, EventRow(jobs, sender))
    ensures EventRow(jobs, sender) == -1 || ProgressRaises(jobs, sender, bytesSent, bytesTotal) ==> after == jobs
    ensures EventRow(jobs, sender) >= 0 && !ProgressRaises(jobs, sender, bytesSent, bytesTotal) ==>
              after[EventRow(jobs, sender)].progress == Percent(bytesSent, bytesTotal).value
  {
    var row := EventRow(jobs, sender);
    if row == -1 then jobs
    else match Percent(bytesSent, bytesTotal)
      case None => jobs
      case Some(p) => jobs[row := jobs[row].(progress := p)]
  }

  // Properties relating the events to each other and to the table's invariants.

  /** With distinct replies, the row found for a row's reply is that row. */
  lemma RowOfOwnReply(jobs: seq<Job>, row: nat)
    requires DistinctReplies(jobs)
    requires row < |jobs|
    ensures RowOf(jobs, jobs[row].reply) == row
  {
  }

  /** Appending a job whose reply is new keeps replies distinct. */
  lemma AppendKeepsDistinct(jobs: seq<Job>, job: Job)
    requires DistinctReplies(jobs)
    requires RowOf(jobs, job.reply) == -1
    ensures DistinctReplies(jobs + [job])
  {
  }

  /** Appending a started job keeps every row's progress known. */
  lemma AppendKeepsKnown(jobs: seq<Job>, path: string, reply: ReplyId)
    requires AllKnown(jobs)
    ensures AllKnown(jobs + [NewJob(path, reply)])
  {
  }

  lemma FinishKeepsKnown(jobs: seq<Job>, reply: ReplyId, error: ReplyError)
    requires AllKnown(jobs)
    ensures AllKnown(Finish(jobs, reply, error))
  {
  }

  /**
   * A progress event keeps every row's progress known when the transfer
   * reports nothing sent, or a count within a positive total.
   */
  lemma ProgressKeepsKnown(jobs: seq<Job>, sender: Option<ReplyId>, bytesSent: int, bytesTotal: int)
    requires AllKnown(jobs)
    requires bytesSent == 0 || 0 < bytesSent <= bytesTotal
    ensures AllKnown(ProgressUpdate(jobs, sender, bytesSent, bytesTotal))
  {
  }

  /** Both events leave the replies of all rows as they were. */
  lemma EventsKeepDistinct(jobs: seq<Job>, reply: ReplyId, error: ReplyError,
                           sender: Option<ReplyId>, bytesSent: int, bytesTotal: int)
    requires DistinctReplies(jobs)
    ensures DistinctReplies(Finish(jobs, reply, error))
    ensures DistinctReplies(ProgressUpdate(jobs, sender, bytesSent, bytesTotal))
  {
  }

  /**
   * Events for one job never reach another job's row: with distinct
   * replies, a progress or finished signal from row a's reply leaves every
   * row b other than a as it was, and sets row a.
   */
  lemma EventsIsolated(jobs: seq<Job>, a: nat, b: nat, error: ReplyError, bytesSent: int, bytesTotal: int)
    requires DistinctReplies(jobs)
    requires a < |jobs| && b < |jobs| && a != b
    ensures Finish(jobs, jobs[a].reply, error)[b] == jobs[b]
    ensures Finish(jobs, jobs[a].reply, error)[a].progress == FinalStatus(error)
    ensures ProgressUpdate(jobs, Some(jobs[a].reply), bytesSent, bytesTotal)[b] == jobs[b]
    ensures Percent(bytesSent, bytesTotal).Some? ==>
              ProgressUpdate(jobs, Some(jobs[a].reply), bytesSent, bytesTotal)[a].progress
                == Percent(bytesSent, bytesTotal).value
  {
  }

  /**
   * The handlers do not guard terminal states: a progress event delivered
   * after a job finished would overwrite its FINISHED value.
   */
  lemma ProgressOverwritesFinished()
    ensures ProgressUpdate([Job("a", 7, UPLOAD_STATUS_FINISHED)], Some(7), 1, 2)
            == [Job("a", 7, 50)]
  {
  }
}
