/** The display message the service derives from a failed HTTP request. */
module HttpErrors {
  import opened Decimal

  /** The `error` field of a failed response: an `ErrorEvent` raised in the
      browser (no network, a malformed response), or any other payload, such
      as the body a server returned with a non-2xx status. */
  datatype ErrorPayload = ErrorEvent(eventMessage: string) | ResponseBody

  /** The fields of an `HttpErrorResponse` that the message uses. */
  datatype HttpErrorResponse = HttpErrorResponse(status: int, message: string, error: ErrorPayload)

  const ClientSidePrefix: string := "Client-side error: "
  const ServerSidePrefix: string := "Server-side error: "
  const StatusSeparator: string := " - "

  predicate StartsWith(s: string, p: string) {
    |p| <= |s| && s[..|p|] == p
  }

  /** `getErrorMessage`: a client-side message carries the event's message, a
      server-side one the status and the response message. */
  function ErrorMessage(e: HttpErrorResponse): (r: string)
    ensures StartsWith(r, ClientSidePrefix) <==> e.error.ErrorEvent?
    ensures StartsWith(r, ServerSidePrefix) <==> !e.error.ErrorEvent?
    ensures e.error.ErrorEvent? ==> r[|ClientSidePrefix|..] == e.error.eventMessage
    ensures !e.error.ErrorEvent? ==>
              r[|ServerSidePrefix|..] == IntToString(e.status) + StatusSeparator + e.message
  {
    if e.error.ErrorEvent? then
      ClientSidePrefix + e.error.eventMessage
    else
      var r := ServerSidePrefix + IntToString(e.status) + StatusSeparator + e.message;
      assert r[..|ClientSidePrefix|][0] == r[0] == 'S';
      r
  }

  /** Every message the service stores starts with one of the two tags. */
  predicate IsClassified(msg: string) {
    StartsWith(msg, ClientSidePrefix) || StartsWith(msg, ServerSidePrefix)
  }

  /** In `x + " - " + m` where `x` holds no space, the first space follows `x`. */
  lemma FirstSpace(x: string, m: string)
    requires forall k :: 0 <= k < |x| ==> x[k] != ' '
    ensures (x + StatusSeparator + m)[|x|] == ' '
    ensures forall k :: 0 <= k < |x| ==> (x + StatusSeparator + m)[k] != ' '
  {
  }

  /** Splitting `x + " - " + m` where `x` holds no space is unambiguous. */
  lemma SplitAtSeparator(x1: string, m1: string, x2: string, m2: string)
    requires forall k :: 0 <= k < |x1| ==> x1[k] != ' '
    requires forall k :: 0 <= k < |x2| ==> x2[k] != ' '
    requires x1 + StatusSeparator + m1 == x2 + StatusSeparator + m2
    ensures x1 == x2 && m1 == m2
  {
    var t := x1 + StatusSeparator + m1;
    FirstSpace(x1, m1);
    FirstSpace(x2, m2);
    assert |x1| == |x2|;
    assert x1 == t[..|x1|] == x2;
    assert m1 == t[|x1| + 3..] == m2;
  }

  /** The message determines what it was made from: the kind of failure, the
      event's message, and for a server-side failure the status and message. */
  lemma ErrorMessageInjective(e1: HttpErrorResponse, e2: HttpErrorResponse)
    requires ErrorMessage(e1) == ErrorMessage(e2)
    ensures e1.error == e2.error
    ensures e1.error.ResponseBody? ==> e1.status == e2.status && e1.message == e2.message
  {
    var r := ErrorMessage(e1);
    if e1.error.ErrorEvent? {
      assert e2.error.ErrorEvent?;
    } else {
      assert e2.error.ResponseBody?;
      var x1, x2 := IntToString(e1.status), IntToString(e2.status);
      assert r[|ServerSidePrefix|..] == x1 + StatusSeparator + e1.message;
      assert r[|ServerSidePrefix|..] == x2 + StatusSeparator + e2.message;
      SplitAtSeparator(x1, e1.message, x2, e2.message);
      IntToStringInjective(e1.status, e2.status);
    }
  }
}
