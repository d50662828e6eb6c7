/**
 * The audit-log records the log page receives, how it unwraps the response body, which
 * records it drops as no-ops, and the badge it shows for each action.
 */
module AuditLogs {
  import opened Wrappers
  import opened JsValues
  import Seqs

  datatype Actor = Actor(id: int, documentId: string, username: string, email: string)

  /**
   * One record of the audit-log API. `timestamp` is the wire text (written to the CSV);
   * `instant` is the time `new Date(timestamp)` denotes, already parsed.
   */
  datatype AuditLog = AuditLog(
    id: int,
    documentId: string,
    action: string,
    entityType: string,
    entityId: int,
    entityDocumentId: string,
    changes: JsValue,
    previousValues: JsValue,
    timestamp: string,
    instant: int,
    createdAt: string,
    updatedAt: string,
    publishedAt: Option<string>,
    locale: Option<string>,
    user: Actor)

  /**
   * The parsed response body, as far as the page looks at it. Its records are taken to have
   * the API's record shape.
   */
  datatype ResponseBody =
    | NullBody                                 // the JSON text `null`
    | ArrayBody(items: seq<AuditLog>)          // a bare JSON array
    | ObjectBody(data: Option<seq<AuditLog>>)  // an object; `data` is Some when its `data` property is an array
    | ScalarBody                               // a string, number or boolean

  /** The error message the page shows when loading fails. */
  const FetchFailed: string := "Failed to fetch audit logs"

  /**
   * `data.data || data`, then "not an array becomes []". Reading `.data` of `null` throws,
   * which the page's `catch` turns into its error message: that case is `None`.
   */
  function UnwrapBody(body: ResponseBody): (r: Option<seq<AuditLog>>)
    ensures r.None? <==> body.NullBody?
    ensures body.ArrayBody? ==> r == Some(body.items)
    ensures body.ObjectBody? && body.data.Some? ==> r == Some(body.data.value)
    ensures body.ScalarBody? || (body.ObjectBody? && body.data.None?) ==> r == Some([])
  {
    match body
    case NullBody => None
    case ArrayBody(items) => Some(items)
    case ObjectBody(data) => Some(data.GetOr([]))
    case ScalarBody => Some([])
  }

  /** `isChangesEmpty`: falsy, an empty array, or an object without keys. */
  function IsChangesEmpty(changes: JsValue): (empty: bool)
    ensures empty <==>
      changes in {Undefined, Null, Bool(false), Num(0), Str(""), Arr([]), Obj([])}
  {
    if !Truthy(changes) then true
    else if TypeOf(changes) != "object" then false
    else if changes.Arr? then |changes.elems| == 0
    else |ObjectKeys(changes.members)| == 0
  }

  /** The four rules of `isChangesEmpty`, stated on the shape of the value. */
  lemma IsChangesEmptyRules(v: JsValue)
    ensures !Truthy(v) ==> IsChangesEmpty(v)
    ensures Truthy(v) && !(v.Arr? || v.Obj?) ==> !IsChangesEmpty(v)
    ensures v.Arr? ==> (IsChangesEmpty(v) <==> v.elems == [])
    ensures v.Obj? ==> (IsChangesEmpty(v) <==> v.members == [])
  {
  }

  predicate HasChanges(log: AuditLog) {
    !IsChangesEmpty(log.changes)
  }

  /** The no-op filter of `fetchLogs`. */
  function DropNoOps(logs: seq<AuditLog>): (r: seq<AuditLog>)
    ensures |r| <= |logs|
    ensures forall x :: x in r <==> x in logs && !IsChangesEmpty(x.changes)
  {
    Seqs.Filter(logs, HasChanges)
  }

  /** Dropping no-ops keeps the relative order: it distributes over concatenation. */
  lemma DropNoOpsConcat(a: seq<AuditLog>, b: seq<AuditLog>)
    ensures DropNoOps(a + b) == DropNoOps(a) + DropNoOps(b)
  {
    Seqs.FilterConcat(a, b, HasChanges);
  }

  /** A second pass of the filter changes nothing. */
  lemma DropNoOpsIdempotent(logs: seq<AuditLog>)
    ensures DropNoOps(DropNoOps(logs)) == DropNoOps(logs)
  {
    Seqs.FilterIdempotent(logs, HasChanges);
  }

  /** What `fetchLogs` stores for a successful response: the unwrapped, filtered records. */
  function LoadedLogs(body: ResponseBody): (r: Option<seq<AuditLog>>)
    ensures r.None? <==> body.NullBody?
    ensures r.Some? ==> forall x :: x in r.value ==> HasChanges(x)
    ensures body.ScalarBody? || (body.ObjectBody? && body.data.None?) ==> r == Some([])
    ensures body.ArrayBody? ==> r == Some(DropNoOps(body.items))
    ensures body.ObjectBody? && body.data.Some? ==> r == Some(DropNoOps(body.data.value))
  {
    match UnwrapBody(body)
    case None => None
    case Some(items) => Some(DropNoOps(items))
  }

  datatype BadgeVariant = Default | Secondary | Destructive

  /** The badge variant for an action. */
  function Badge(action: string): (v: BadgeVariant)
    ensures v == Default <==> action == "create"
    ensures v == Secondary <==> action == "update"
    ensures v == Destructive <==> action != "create" && action != "update"
  {
    if action == "create" then Default
    else if action == "update" then Secondary
    else Destructive
  }
}
