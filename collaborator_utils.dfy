/** The GitHub collaborator helpers (lib/utils/collaborator.ts) and the
    collaborator table they read and write. Every GitHub request is an
    input: the reply it got, or the error it raised with its HTTP status
    and message. */
module CollaboratorUtils {
  import opened Common

  /** A row of the collaborator table; the columns the rules read. */
  datatype Row = Row(
    id: int, kind: string, installationId: int, ownerId: int, repoId: int,
    owner: string, repo: string, githubUsername: Option<string>, email: Option<string>,
    invitationId: Option<int>, invitationStatus: string, invitedBy: string)

  /** `value || fallback` for an optional string. */
  function OrElse(o: Option<string>, fallback: string): (r: string)
    ensures o.Some? && o.value != [] ==> r == o.value
    ensures !(o.Some? && o.value != []) ==> r == fallback
  {
    if o.Some? && o.value != [] then o.value else fallback
  }

  /** `validateGitHubUsername(name)`: GitHub answers `/users/<name>` only for
      an existing login. `logins` stands for the logins GitHub knows; a
      request that fails counts as not found. */
  predicate UserExists(logins: set<string>, name: string) {
    name in logins
  }

  /** The table, updated in place by the status check and the actions. */
  class CollaboratorTable {
    var rows: seq<Row>

    constructor (rows: seq<Row>)
      ensures this.rows == rows
    {
      this.rows := rows;
    }

    /** `update(...).set({ invitationStatus }).where(eq(id, rowId))`. */
    method SetStatus(rowId: int, status: string)
      modifies this
      ensures rows == WithStatus(old(rows), rowId, status)
    {
      rows := WithStatus(rows, rowId, status);
    }
  }

  /** The rows after an update of the rows with the given id. */
  function WithStatus(rows: seq<Row>, rowId: int, status: string): (r: seq<Row>)
    ensures |r| == |rows|
    ensures forall i :: 0 <= i < |rows| ==>
      r[i] == if rows[i].id == rowId then rows[i].(invitationStatus := status) else rows[i]
  {
    seq(|rows|, i requires 0 <= i < |rows| =>
      if rows[i].id == rowId then rows[i].(invitationStatus := status) else rows[i])
  }

  /** An update changes nothing but the status of the rows with the id. */
  lemma WithStatusOnlyTouchesId(rows: seq<Row>, rowId: int, status: string)
    ensures forall i :: 0 <= i < |rows| && rows[i].id != rowId ==> WithStatus(rows, rowId, status)[i] == rows[i]
    ensures forall i :: 0 <= i < |rows| && rows[i].id == rowId ==>
      WithStatus(rows, rowId, status)[i].invitationStatus == status
      && WithStatus(rows, rowId, status)[i].(invitationStatus := rows[i].invitationStatus) == rows[i]
  {
  }

  /** `findFirst` with a row predicate: the first row with the invitation id. */
  function FindByInvitation(rows: seq<Row>, invitationId: int): (r: Option<Row>)
    ensures r.None? <==> forall i :: 0 <= i < |rows| ==> rows[i].invitationId != Some(invitationId)
    ensures r.Some? ==> r.value in rows && r.value.invitationId == Some(invitationId)
  {
    if rows == [] then None
    else if rows[0].invitationId == Some(invitationId) then Some(rows[0])
    else
      var r := FindByInvitation(rows[1..], invitationId);
      assert forall i :: 1 <= i < |rows| ==> rows[i] == rows[1..][i - 1];
      r
  }

  /** A GitHub reply: a success with its status code, or an error with its
      status (when it has one) and message. */
  datatype Reply = Ok(code: int) | Failed(status: Option<int>, message: Option<string>)

  // ---------------------------------------------------------------------
  // inviteGitHubCollaborator

  datatype Permission = Pull | Push | Admin

  /** The permission parameter defaults to "push". */
  function PermissionOf(permission: Option<Permission>): (r: Permission)
    ensures permission.None? ==> r == Push
    ensures permission.Some? ==> r == permission.value
  {
    if permission.Some? then permission.value else Push
  }

  datatype InviteRequest = InviteRequest(owner: string, repo: string, username: string, permission: Permission)

  /** What the invitation returns, or the error it rethrows. */
  datatype InviteResult = Invited(code: int, invitationId: Option<int>) | InviteThrows(message: string)

  /** The request sent and what comes of its reply; `invitationId` is the
      id in a successful reply's body. */
  function Invite(owner: string, repo: string, username: string, permission: Option<Permission>,
                  reply: Reply, invitationId: Option<int>): (r: (InviteRequest, InviteResult))
    ensures r.0 == InviteRequest(owner, repo, username, PermissionOf(permission))
    ensures reply.Ok? ==> r.1 == Invited(reply.code, invitationId)
    ensures reply.Failed? ==> r.1 == InviteThrows(OrElse(reply.message, "Failed to invite collaborator"))
  {
    var request := InviteRequest(owner, repo, username, PermissionOf(permission));
    if reply.Ok? then (request, Invited(reply.code, invitationId))
    else (request, InviteThrows(OrElse(reply.message, "Failed to invite collaborator")))
  }

  // ---------------------------------------------------------------------
  // cancelInvitation and removeCollaborator

  /** `{ status: "success" }` or `{ status: "error", message }`: these
      helpers never throw. */
  datatype CallResult = CallSuccess | CallError(message: string)

  function CancelInvitation(reply: Reply): (r: CallResult)
    ensures r.CallSuccess? <==> reply.Ok?
    ensures r.CallError? ==> r.message == OrElse(reply.message, "Failed to cancel invitation") && r.message != []
  {
    if reply.Ok? then CallSuccess else CallError(OrElse(reply.message, "Failed to cancel invitation"))
  }

  function RemoveCollaborator(reply: Reply): (r: CallResult)
    ensures r.CallSuccess? <==> reply.Ok?
    ensures r.CallError? ==> r.message == OrElse(reply.message, "Failed to remove collaborator") && r.message != []
  {
    if reply.Ok? then CallSuccess else CallError(OrElse(reply.message, "Failed to remove collaborator"))
  }

  // ---------------------------------------------------------------------
  // checkInvitationStatus

  datatype InvitationStatus = Pending | Accepted | Declined | Unknown | StatusError(message: string)

  function StatusName(s: InvitationStatus): string {
    match s
    case Pending => "pending"
    case Accepted => "accepted"
    case Declined => "declined"
    case Unknown => "unknown"
    case StatusError(_) => "error"
  }

  /** The decision and the row update it makes, if any. */
  datatype StatusCheck = StatusCheck(status: InvitationStatus, write: Option<(int, string)>)

  /** The status of an invitation. A successful lookup means it is pending.
      A 404 sends the check to the table row with the invitation id and, when
      that row names a user, to the collaborator check: 204 means accepted,
      404 means declined, and both are written to the row. Every other path
      is an error carrying the lookup's message. */
  function ClassifyInvitation(lookup: Reply, rows: seq<Row>, invitationId: int, check: Reply): (r: StatusCheck)
    ensures lookup.Ok? ==> r == StatusCheck(Pending, None)
    ensures r.write.Some? <==> r.status == Accepted || r.status == Declined
    ensures r.write.Some? ==>
      r.write.value.1 == StatusName(r.status) && FindByInvitation(rows, invitationId).Some?
      && r.write.value.0 == FindByInvitation(rows, invitationId).value.id
  {
    if lookup.Ok? then StatusCheck(Pending, None)
    else
      var fallback := StatusCheck(StatusError(OrElse(lookup.message, "Failed to check invitation status")), None);
      if lookup.status != Some(404) then fallback
      else
        var row := FindByInvitation(rows, invitationId);
        if row.None? then StatusCheck(Unknown, None)
        else if row.value.githubUsername.None? || row.value.githubUsername.value == [] then StatusCheck(Unknown, None)
        else if check.Ok? then
          if check.code == 204 then StatusCheck(Accepted, Some((row.value.id, "accepted"))) else fallback
        else if check.status == Some(404) then StatusCheck(Declined, Some((row.value.id, "declined")))
        else fallback
  }

  /** The five outcomes, each on its own inputs. */
  lemma ClassifyOutcomes(lookup: Reply, rows: seq<Row>, invitationId: int, check: Reply)
    ensures var r := ClassifyInvitation(lookup, rows, invitationId, check);
      var row := FindByInvitation(rows, invitationId);
      var named := row.Some? && row.value.githubUsername.Some? && row.value.githubUsername.value != [];
      var lookup404 := lookup.Failed? && lookup.status == Some(404);
      (r.status == Pending <==> lookup.Ok?)
      && (r.status == Unknown <==> lookup404 && !named)
      && (r.status == Accepted <==> lookup404 && named && check.Ok? && check.code == 204)
      && (r.status == Declined <==> lookup404 && named && check.Failed? && check.status == Some(404))
      && (r.status.StatusError? <==>
            (lookup.Failed? && lookup.status != Some(404))
            || (lookup404 && named && check.Ok? && check.code != 204)
            || (lookup404 && named && check.Failed? && check.status != Some(404)))
  {
  }

  /** An error always carries the first error's message, or the default. */
  lemma ErrorCarriesLookupMessage(lookup: Reply, rows: seq<Row>, invitationId: int, check: Reply)
    requires ClassifyInvitation(lookup, rows, invitationId, check).status.StatusError?
    ensures lookup.Failed?
    ensures ClassifyInvitation(lookup, rows, invitationId, check).status.message
      == OrElse(lookup.message, "Failed to check invitation status")
  {
  }

  /** The helper as it runs against the table: classify, then write the
      status on the accepted and declined paths. */
  method CheckInvitationStatus(table: CollaboratorTable, lookup: Reply, invitationId: int, check: Reply)
    returns (status: InvitationStatus)
    modifies table
    ensures status == ClassifyInvitation(lookup, old(table.rows), invitationId, check).status
    ensures var w := ClassifyInvitation(lookup, old(table.rows), invitationId, check).write;
      table.rows == if w.Some? then WithStatus(old(table.rows), w.value.0, w.value.1) else old(table.rows)
  {
    var decision := ClassifyInvitation(lookup, table.rows, invitationId, check);
    if decision.write.Some? {
      table.SetStatus(decision.write.value.0, decision.write.value.1);
    }
    status := decision.status;
  }
}
