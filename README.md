# Upload job table of the desktop uploader

The desktop client of this uploader keeps a table of upload jobs in the
Qt table model `UploadingModel` (`client.py`). This project models that
table without Qt, together with the two pure pieces of text the client builds
around it:

- The jobs form an ordered list. Each job records the path the file was
  opened with, the network reply that carries it, and an integer progress
  field.
- The progress field holds a percentage or one of four sentinels: CANCEL = -3,
  ERROR = -2, STARTING = -1 and FINISHED = 101.
- `startUpload` appends a job with progress STARTING. It does so only when
  the file opens and the POST returns a reply that reports no error.
- The progress handler and the finished handler each update the progress of
  the first row that has the signalling reply. They ignore replies that are
  not in the table.
- `cancelUpload` aborts the reply of a row.
- `rowCount`, `columnCount` and `data` are the read accessors of the table.
- The progress column shows each value as "Error", "Canceled", "Done" or
  "<n>%".
- The one file part of the request carries the header
  `Content-Disposition: form-data; name="file"; filename="<base name>"`.

Modules, leaf first:

- `Wrappers` (wrappers.dfy): `Option`.
- `Decimal` (decimal.dfy): how `%d` writes an integer, and a parser that
  reads it back.
- `Progress` (progress.dfy): the sentinels, the percentage computed from a
  progress event, and the label of the progress column.
- `Multipart` (multipart.dfy): the base name of a path, the
  Content-Disposition header, and a reader for that header.
- `JobTable` (job_table.dfy): the `Job` record. It also gives, as functions
  of the old list, the row an event addresses and the list after each event,
  and the lemmas about them.
- `Uploading` (uploading_model.dfy): the class `UploadingModel`. Its `jobs`
  field is a `seq<Job>`. `StartUpload` extends it, and the two handlers
  update one row of it in place. Each method's `ensures` ties the new list to
  the `JobTable` functions of the old one.

The model works on these values:

- A reply handle is an opaque `nat` (`ReplyId`).
- A reply's error is `NoError`, `OperationCanceled` or `OtherError`.
- The things the Qt objects would decide are parameters:
  - whether `QFile.open` succeeds;
  - the media type the MIME database names;
  - what `QNetworkAccessManager.post` returns (no reply, or a reply with its
    current error);
  - the sender of a progress signal.

Behaviour of the source that the model keeps as it is:

- `data` shows `QFile.fileName()`, the full path given to `startUpload`, not
  the base name. Only the Content-Disposition header uses the base name
  (`QFileInfo.fileName()`).
- `startUpload` does not check the path; an empty path simply fails to open.
  It returns nothing and only prints a message. The model returns the file
  part it posted and whether a job was started, so that those outcomes can
  be stated.
- The handlers do not protect terminal states: a progress event delivered
  after FINISHED would overwrite it, as `JobTable.ProgressOverwritesFinished`
  shows. Qt delivers no progress after `finished`, so this is not listed as
  a defect.
- The stored percentage is 0 when nothing was sent, and lies in [0, 100]
  when 0 < bytesSent <= bytesTotal (`Progress.Percent`). Outside these cases
  it can leave that range: Qt's total of -1 for an unknown size gives
  -100 times the bytes sent (`Progress.UnknownTotalPercent`), and more bytes
  sent than the total gives more than 100. A non-zero bytesSent over a zero
  bytesTotal raises `ZeroDivisionError` in the handler, and the row stays as
  it was.
- `cancelUpload` calls `abort()` on the row's reply whatever the job's
  progress, including a job that has already finished.

## Model

| member | source | states |
|---|---|---|
| `Decimal.IntString` | client.py:79 | `%d` output: a leading '-' exactly for negative values, digits everywhere else, and no leading zero |
| `Decimal.ParseNatDigits` | client.py:79 | reading the digits of n back gives n |
| `Decimal.IntStringRoundTrip` | client.py:79 | the `%d` text of every integer parses back to that integer |
| `Decimal.IntStringInjective` | client.py:79 | two integers with the same `%d` text are equal |
| `Progress.TruncDiv` | client.py:197 | the quotient rounded toward zero (what `%d` prints for the float quotient): its magnitude times the divisor stays within the dividend by less than one divisor, and its sign is the product of the operands' signs |
| `Progress.Percent` | client.py:193-197 | 0 when bytesSent is 0, whatever bytesTotal is; a division error exactly when bytesSent is non-zero and bytesTotal is 0; otherwise bytesSent*100/bytesTotal rounded toward zero, for every sign of the total (the floor for positive operands); in [0, 100] whenever 0 < bytesSent <= bytesTotal |
| `Progress.UnknownTotalPercent` | client.py:193-197 | for Qt's unknown total of -1, the stored value is -100 times the bytes sent and its label is that negative number followed by '%' |
| `Progress.Label` | client.py:52-79 | "Error", "Canceled" and "Done" each shown exactly for ERROR, CANCEL and FINISHED; every other value's label is exactly its `%d` text followed by '%' |
| `Progress.LabelRoundTrip` | client.py:56-79 | the progress value can be recovered from the label shown for it |
| `Progress.LabelInjective` | client.py:56-79 | distinct progress values are never shown with the same label |
| `Progress.StartingLabel` | client.py:76-79 | a job that has just started (STARTING = -1) is shown as "-1%" |
| `Multipart.BaseName` | client.py:119-126 | `QFileInfo.fileName()`: the suffix of the path that contains no '/', preceded by a '/' unless it is the whole path |
| `Multipart.ContentDisposition` | client.py:124-127 | the header is exactly `form-data; name="file"; filename="` + name + `"`: reading the text between that prefix and the final quote gives the name back, even for a name containing an unescaped `"` |
| `Multipart.UploadPart` | client.py:116-129 | the posted part has the looked-up media type as its content type, and its disposition names the base name of the path |
| `JobTable.RowOf` | client.py:203-207 | the first row whose reply matches, or -1 exactly when no row matches; always in [-1, len(jobs)) |
| `JobTable.NewJob` | client.py:147-153 | a new job has the opened path and the reply, and progress STARTING, which is not terminal |
| `JobTable.FinalStatus` | client.py:166-172 | NoError gives FINISHED, OperationCanceled gives CANCEL and any other error gives ERROR (each an if-and-only-if); the status is terminal |
| `JobTable.Finish` | client.py:165-180 | an unknown reply leaves the list unchanged; otherwise only the matching row's progress changes, to the final status, and the length, the other rows and that row's file and reply stay the same |
| `JobTable.EventRow` | client.py:184-191 | a progress signal without a sender addresses no row; otherwise it addresses the row that the search finds for the sender |
| `JobTable.ProgressUpdate` | client.py:183-200 | a missing or unknown sender, or a division error, leaves the list unchanged; otherwise only the matching row's progress changes, to the event's percentage, and nothing else changes |
| `JobTable.RowOfOwnReply` | client.py:203-207 | when replies are distinct, the search for a row's reply finds that row |
| `JobTable.AppendKeepsDistinct` | client.py:145-153 | appending a job whose reply is not yet in the table keeps all replies distinct |
| `JobTable.AppendKeepsKnown` | client.py:147-153 | appending a started job keeps every progress value a percentage or a sentinel |
| `JobTable.FinishKeepsKnown` | client.py:179 | a finished event keeps every progress value a percentage or a sentinel |
| `JobTable.ProgressKeepsKnown` | client.py:193-197 | a progress event reporting nothing sent, or 0 < bytesSent <= bytesTotal, keeps every progress value a percentage or a sentinel |
| `JobTable.EventsKeepDistinct` | client.py:179-197 | neither event changes any row's reply, so distinct replies stay distinct |
| `JobTable.EventsIsolated` | client.py:174-197 | when replies are distinct, an event for job a changes no other job's row, and it sets job a's progress |
| `JobTable.ProgressOverwritesFinished` | client.py:188-197 | a progress event (1 of 2 bytes) for a FINISHED row sets it to 50: the handlers do not protect terminal states |
| `Uploading.UploadingModel.constructor` | client.py:101-107 | the table starts empty |
| `Uploading.UploadingModel.StartUpload` | client.py:110-154 | the part is posted exactly when the file opens; a job is appended exactly when post returned a reply that reports no error; a failed start leaves the list unchanged; a successful one appends exactly the new STARTING job at the end, keeps the earlier rows and grows the row count by one; it keeps progress values known, and keeps replies distinct when the reply is new |
| `Uploading.UploadingModel.CancelUpload` | client.py:156-158 | aborts the reply of the row under Python list indexing, where a negative row counts from the end; a row out of range raises (None); the table is not changed |
| `Uploading.UploadingModel.OnUploadFinished` | client.py:165-180 | the new list is `Finish` of the old one; progress values stay known and replies stay distinct |
| `Uploading.UploadingModel.OnUploadProgressChanged` | client.py:183-200 | the new list is `ProgressUpdate` of the old one; it reports exactly when the division raises; progress values stay known for events with 0 <= bytesSent <= bytesTotal, and replies stay distinct |
| `Uploading.UploadingModel.IndexOf` | client.py:203-207 | the linear search returns the first row whose reply matches, or -1 when none does; the result equals `RowOf` |
| `Uploading.UploadingModel.ColumnCount` | client.py:210-211 | two columns, and the file and progress columns are distinct and both in range |
| `Uploading.UploadingModel.RowCount` | client.py:213-214 | one row per job |
| `Uploading.UploadingModel.Data` | client.py:216-227 | a value exactly for the display role on an existing row in the file or progress column: the job's path in the file column, its raw progress in the progress column |

## Left out

- Progress.Percent: the source divides with Python's float `/`
  (client.py:197) and stores the float. The model stores the quotient
  rounded toward zero, which is what `%d` shows.
  - A quotient that is not a whole number can therefore compare differently
    with a sentinel. For example, 101.5 shows as "101%" in the source but
    as "Done" in the model.
  - Float rounding of very large byte counts is not modelled.
- Uploading.UploadingModel.StartUpload: the file body, the request URL
  (`config.serverUrl + "/upload"`) and `multiPart.setParent` are not
  modelled. Neither is the open file that the source never closes when the
  post fails. config.py is not part of this model.
- The MIME-type lookup (client.py:120-122) is a library call. Its answer is
  the `mimeType` parameter.
- `QFile.open`, `QNetworkAccessManager.post`, `QNetworkReply.error()`,
  `abort()` and `self.sender()` are foreign I/O. Their outcomes are
  parameters or results.
- The `print` diagnostics are console output and are not modelled.
- `beginInsertRows`, `endInsertRows`, `dataChanged`, `self.index` and the
  signal connections are observer plumbing, not state.
- `headerData` and `parent` (client.py:229-241) are column titles and the
  flat-table parent for the view. They are presentation only.
- `self.tr` translation of the labels is not modelled; the labels are the
  untranslated English strings.
- Authentication forwarding (client.py:161-162) only re-emits a signal, and
  the login dialog is modal UI.
- `ProgressBarDelegate` drawing, `LoginWindow`, `MainWindow`, the tray icon
  and the menu are UI. Only the label choice is modelled.
- server.py is Flask routing, token signing and filesystem access, outside
  the job table.
- Concurrency is not modelled: Qt delivers every signal on one thread, so
  the table is a sequential state machine.
- Each job is modelled as a value in a sequence, not as a mutable dict shared
  by reference. Nothing else in the source holds a reference to a job dict,
  so no aliasing is lost.
