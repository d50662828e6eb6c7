/** The state `fetchLogs` writes on the audit-log page: the filtered records and the error text. */
module AuditLogPage {
  import opened Wrappers
  import opened AuditLogs

  class AuditLogPage {
    var logs: seq<AuditLog>
    var error: Option<string>

    /** Every stored record has a non-empty `changes` payload. */
    ghost predicate Valid()
      reads this
    {
      forall x :: x in logs ==> HasChanges(x)
    }

    constructor ()
      ensures Valid() && logs == [] && error == None
    {
      logs := [];
      error := None;
    }

    /**
     * The part of `fetchLogs` after the response arrived with an OK status: the error is
     * cleared, then either the filtered records replace the old ones, or (the body is
     * `null`, so reading `.data` throws) the error text is set and the old records stay.
     */
    method ReceiveBody(body: ResponseBody)
      requires Valid()
      modifies this
      ensures Valid()
      ensures body.NullBody? ==> logs == old(logs) && error == Some(FetchFailed)
      ensures !body.NullBody? ==> logs == LoadedLogs(body).value && error == None
    {
      error := None;
      match UnwrapBody(body)
      case None =>
        error := Some(FetchFailed);
      case Some(validLogs) =>
        logs := DropNoOps(validLogs);
    }
  }
}
