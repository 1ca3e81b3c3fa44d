/**
 * The integer held in a job's progress field: a percentage, or one of four
 * sentinel values (client.py:96-99), the percentage an upload event yields,
 * and the label the progress column shows for a value.
 */
module Progress {

  import opened Wrappers
  import opened Decimal

  const UPLOAD_STATUS_CANCEL := -3
  const UPLOAD_STATUS_ERROR := -2
  const UPLOAD_STATUS_STARTING := -1
  const UPLOAD_STATUS_FINISHED := 101

  /** A value a job can reach when every progress event reports 0 <= sent <= total. */
  predicate IsKnownProgress(p: int) {
    p == UPLOAD_STATUS_CANCEL || p == UPLOAD_STATUS_ERROR || p == UPLOAD_STATUS_STARTING
    || p == UPLOAD_STATUS_FINISHED || 0 <= p <= 100
  }

  predicate IsTerminal(p: int) {
    p == UPLOAD_STATUS_CANCEL || p == UPLOAD_STATUS_ERROR || p == UPLOAD_STATUS_FINISHED
  }

  function Abs(x: int): nat {
    if x < 0 then -x else x
  }

  /** Division of naturals, rounded down. */
  function FloorDiv(a: nat, b: nat): (m: nat)
    requires b > 0
    ensures m * b <= a < m * b + b
  {
    a / b
  }

  /**
   * Division rounded toward zero: the integer that Python's "%d" prints for
   * the float quotient a / b.
   */
  function TruncDiv(a: int, b: int): (q: int)
    requires b != 0
    ensures Abs(q) * Abs(b) <= Abs(a) < Abs(q) * Abs(b) + Abs(b)
    ensures q != 0 ==> ((q > 0) <==> ((a > 0) == (b > 0)))
  {
    var m := FloorDiv(Abs(a), Abs(b));
    if a == 0 then 0
    else if (a < 0) != (b < 0) then -(m as int)
    else m
  }

  /**
   * The value onUploadProgressChanged stores for an event (client.py:193-197):
   * 0 when nothing was sent, whatever the total; otherwise the rounded
   * quotient bytesSent * 100 / bytesTotal.  None stands for the
   * ZeroDivisionError that a non-zero bytesSent over a zero bytesTotal raises.
   */
  function Percent(bytesSent: int, bytesTotal: int): (p: Option<int>)
    ensures p.None? <==> bytesSent != 0 && bytesTotal == 0
    ensures bytesSent == 0 ==> p == Some(0)
    ensures bytesSent > 0 && bytesTotal > 0 ==>
              p.Some? && p.value * bytesTotal <= bytesSent * 100 < p.value * bytesTotal + bytesTotal
    ensures 0 < bytesSent <= bytesTotal ==> p.Some? && 0 <= p.value <= 100
    ensures bytesSent != 0 && bytesTotal != 0 ==> p == Some(TruncDiv(bytesSent * 100, bytesTotal))
  {
    if bytesSent == 0 then Some(0)
    else if bytesTotal == 0 then None
    else
      var q := TruncDiv(bytesSent * 100, bytesTotal);
      PercentAtMostHundred(bytesSent, bytesTotal, q);
      Some(q)
  }

  lemma PercentAtMostHundred(sent: int, total: int, q: int)
    requires total != 0
    requires Abs(q) * Abs(total) <= Abs(sent * 100)
    requires q != 0 ==> ((q > 0) <==> ((sent * 100 > 0) == (total > 0)))
    ensures 0 < sent <= total ==> 0 <= q <= 100
  {
  }

  /**
   * The text the progress column shows (client.py:56-79): "Error" and
   * "Canceled" for those sentinels, "Done" inside a bar for a finished
   * upload, and otherwise the value as "%d%%".
   */
  function Label(p: int): (s: string)
    ensures s == "Error" <==> p == UPLOAD_STATUS_ERROR
    ensures s == "Canceled" <==> p == UPLOAD_STATUS_CANCEL
    ensures s == "Done" <==> p == UPLOAD_STATUS_FINISHED
    ensures |s| >= 1 && (!IsTerminal(p) <==> s[|s| - 1] == '%')
    ensures !IsTerminal(p) ==> s == IntString(p) + "%"
  {
    if p == UPLOAD_STATUS_ERROR then "Error"
    else if p == UPLOAD_STATUS_CANCEL then "Canceled"
    else if p == UPLOAD_STATUS_FINISHED then "Done"
    else
      var s := IntString(p) + "%";
      assert s[|s| - 1] == '%';
      s
  }

  /** Recovers the progress value from the text Label shows for it. */
  function ParseLabel(s: string): Option<int>
  {
    if s == "Error" then Some(UPLOAD_STATUS_ERROR)
    else if s == "Canceled" then Some(UPLOAD_STATUS_CANCEL)
    else if s == "Done" then Some(UPLOAD_STATUS_FINISHED)
    else if |s| >= 1 && s[|s| - 1] == '%' then ParseInt(s[..|s| - 1])
    else None
  }

  lemma LabelRoundTrip(p: int)
    ensures ParseLabel(Label(p)) == Some(p)
  {
    if !IsTerminal(p) {
      var s := Label(p);
      assert s[..|s| - 1] == IntString(p);
      IntStringRoundTrip(p);
    }
  }

  /**
   * Qt reports a total of -1 when the upload size is unknown; the value
   * stored is then -100 times the bytes sent, shown as a negative percentage.
   */
  lemma UnknownTotalPercent(bytesSent: nat)
    requires bytesSent > 0
    ensures Percent(bytesSent, -1) == Some(-100 * bytesSent)
    ensures Label(-100 * bytesSent) == "-" + NatDigits(100 * bytesSent) + "%"
  {
  }

  /** No two progress values are shown with the same text. */
  lemma LabelInjective(p: int, q: int)
    requires Label(p) == Label(q)
    ensures p == q
  {
    LabelRoundTrip(p);
    LabelRoundTrip(q);
  }

  /** A job that has just been started is shown as "-1%". */
  lemma StartingLabel()
    ensures Label(UPLOAD_STATUS_STARTING) == "-1%"
  {
  }
}
