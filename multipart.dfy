/**
 * The single file part of the upload request built by startUpload
 * (client.py:116-129): its content type and its Content-Disposition header.
 */
module Multipart {

  import opened Wrappers

  /** A file part's headers; its body is the opened file, which is not modelled. */
  datatype FilePart = FilePart(contentType: string, contentDisposition: string)

  /**
   * The name of a file without its directory, as QFileInfo.fileName gives it:
   * everything after the last '/'.
   */
  function BaseName(path: string): (name: string)
    ensures '/' !in name
    ensures |name| <= |path| && path[|path| - |name|..] == name
    ensures |name| < |path| ==> path[|path| - |name| - 1] == '/'
  {
    if path == [] then []
    else if path[|path| - 1] == '/' then []
    else BaseName(path[..|path| - 1]) + [path[|path| - 1]]
  }

  const DispositionPrefix := "form-data; name=\"file\"; filename=\""

  /** The Content-Disposition of the file part (client.py:124-127). */
  function ContentDisposition(fileName: string): (header: string)
    ensures DispositionFileName(header) == Some(fileName)
  {
    var header := DispositionPrefix + fileName + "\"";
    assert header[..|DispositionPrefix|] == DispositionPrefix;
    assert header[|DispositionPrefix|..|header| - 1] == fileName;
    header
  }

  /**
   * The text between the prefix and the final quote of a header of that
   * form; None for any other header.  A name that itself contains '"' is
   * not escaped (client.py:126), so only a reader that stops at the final
   * quote, as this one does, gets such a name back whole.
   */
  function DispositionFileName(header: string): Option<string>
  {
    if |header| > |DispositionPrefix| && header[..|DispositionPrefix|] == DispositionPrefix
       && header[|header| - 1] == '"'
    then Some(header[|DispositionPrefix|..|header| - 1])
    else None
  }

  /** The part startUpload posts for the file at path, whose media type is mimeType. */
  function UploadPart(path: string, mimeType: string): (part: FilePart)
    ensures part.contentType == mimeType
    ensures DispositionFileName(part.contentDisposition) == Some(BaseName(path))
  {
    FilePart(mimeType, ContentDisposition(BaseName(path)))
  }
}
