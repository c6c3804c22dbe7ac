/**
 * The candidate detail fragment the dashboard loads into its modal: the
 * same role gate as the dashboard, a guard on the requested id, a lookup
 * by id, the "Last Updated" line, and the quick-action buttons, which post
 * a status back to the dashboard.
 */
module Details {
  import opened Php
  import opened Store
  import Dashboard

  /** What the fragment answers. */
  datatype Answer =
    | Denied                                          // HTTP 403, "Access Denied"
    | InvalidId                                       // the id is not positive
    | NotFound                                        // no row under the id
    | Shown(candidate: Candidate, lastUpdated: bool)  // the row, and whether "Last Updated" is shown

  /** The text the fragment prints for each refusal. */
  function Message(answer: Answer): (text: string)
    requires !answer.Shown?
  {
    match answer
    case Denied => "Access Denied"
    case InvalidId => "Invalid candidate ID"
    case NotFound => "Candidate not found"
  }

  /** `isset($_GET['id']) ? intval($_GET['id']) : 0`, the parse taken as given. */
  function RequestedId(id: Option<int>): int {
    id.OrElse(0)
  }

  /** The fragment for session role `role`, table `rows` and requested id `id`. */
  function FetchDetails(role: Option<string>, rows: map<int, Candidate>, id: Option<int>): (answer: Answer)
    ensures answer.Denied? <==> !Dashboard.CanManage(role)
    ensures answer.InvalidId? <==> Dashboard.CanManage(role) && RequestedId(id) <= 0
    ensures answer.NotFound? <==> Dashboard.CanManage(role) && RequestedId(id) > 0 && RequestedId(id) !in rows
    ensures answer.Shown? ==>
              && RequestedId(id) in rows
              && answer.candidate == rows[RequestedId(id)]
              && (answer.lastUpdated <==> answer.candidate.updatedAt != answer.candidate.createdAt)
  {
    if !Dashboard.CanManage(role) then Denied
    else
      var candidateId := RequestedId(id);
      if candidateId <= 0 then InvalidId
      else if candidateId !in rows then NotFound
      else
        var candidate := rows[candidateId];
        Shown(candidate, candidate.updatedAt != candidate.createdAt)
  }

  /** An id that is not positive is refused before any lookup: the answer
      does not depend on the table. */
  lemma InvalidIdIgnoresStore(role: Option<string>, rows: map<int, Candidate>, other: map<int, Candidate>, id: Option<int>)
    requires RequestedId(id) <= 0
    ensures FetchDetails(role, rows, id) == FetchDetails(role, other, id)
    ensures FetchDetails(role, rows, id) in {Denied, InvalidId}
  {
  }

  /** A missing id counts as 0, and is refused. */
  lemma MissingIdRefused(role: Option<string>, rows: map<int, Candidate>)
    requires Dashboard.CanManage(role)
    ensures FetchDetails(role, rows, None) == InvalidId
    ensures Message(FetchDetails(role, rows, None)) == "Invalid candidate ID"
  {
  }

  /** In a table whose rows sit under their own ids, a shown candidate is
      exactly the one asked for. */
  lemma ShownIsRequested(role: Option<string>, rows: map<int, Candidate>, id: Option<int>)
    requires forall k :: k in rows ==> rows[k].id == k
    requires FetchDetails(role, rows, id).Shown?
    ensures id.Some? && FetchDetails(role, rows, id).candidate.id == id.value
  {
    var k := RequestedId(id);
    assert k in rows;
  }

  /** After the dashboard deletes a row, its details are not found. */
  lemma FetchAfterDelete(role: Option<string>, rows: map<int, Candidate>, id: int)
    requires Dashboard.CanManage(role) && id > 0
    ensures FetchDetails(role, rows - {id}, Some(id)) == NotFound
    ensures Message(FetchDetails(role, rows - {id}, Some(id))) == "Candidate not found"
  {
    assert id !in rows - {id};
  }

  /** Deleting one row leaves the details of every other row as they were. */
  lemma FetchOtherAfterDelete(role: Option<string>, rows: map<int, Candidate>, id: int, other: Option<int>)
    requires RequestedId(other) != id
    ensures FetchDetails(role, rows - {id}, other) == FetchDetails(role, rows, other)
  {
    var k := RequestedId(other);
    if k in rows {
      assert k in rows - {id} && (rows - {id})[k] == rows[k];
    }
  }

  /** After the dashboard sets a row's status, its details show the new
      status and everything else as before. */
  lemma FetchAfterUpdate(role: Option<string>, rows: map<int, Candidate>, id: int, status: string)
    requires Dashboard.CanManage(role) && id > 0 && id in rows
    ensures var answer := FetchDetails(role, WithStatus(rows, id, status), Some(id));
            && answer.Shown?
            && answer.candidate.status == status
            && answer.candidate == rows[id].(status := status)
            && answer.lastUpdated == FetchDetails(role, rows, Some(id)).lastUpdated
  {
    assert WithStatus(rows, id, status)[id] == rows[id].(status := status);
  }

  /** A row just inserted by the registration form has equal timestamps,
      so its details show no "Last Updated" line. */
  lemma FreshRowNotUpdated(role: Option<string>, rows: map<int, Candidate>, id: int, profile: Profile, now: string)
    requires Dashboard.CanManage(role) && id > 0
    ensures FetchDetails(role, rows[id := NewCandidate(id, profile, now)], Some(id))
            == Shown(NewCandidate(id, profile, now), false)
  {
    var c := NewCandidate(id, profile, now);
    assert rows[id := c][id] == c;
  }

  /** The statuses of the three quick-action buttons, in page order. */
  const QuickActions: seq<string> := ["contacted", "active", "archived"]

  /** The buttons offer exactly the statuses the dashboard accepts. */
  lemma QuickActionsMatchWhitelist()
    ensures forall s :: s in QuickActions <==> s in Dashboard.Statuses
    ensures |QuickActions| == |Dashboard.Statuses|
  {
    assert QuickActions == [Dashboard.Statuses[2], Dashboard.Statuses[0], Dashboard.Statuses[1]];
  }

  /** Pressing quick action `action` on the row `id` posts that status to
      the dashboard's status handler under the same session, with no query
      string and so no page parameter; behind the role gate it is never
      refused as invalid and never stopped by the listing code. */
  method QuickAction(store: CandidateStore, role: Option<string>, id: int, action: nat, executes: bool)
    returns (response: Dashboard.Response)
    requires store.Valid() && action < |QuickActions|
    modifies store
    ensures store.Valid()
    ensures !Dashboard.CanManage(role) ==> response == Dashboard.Redirect && store.rows == old(store.rows)
    ensures Dashboard.CanManage(role) ==> response.Json? && response.reply.message != "Invalid status"
    ensures Dashboard.CanManage(role) && executes ==>
              response.reply.success && store.rows == WithStatus(old(store.rows), id, QuickActions[action])
    ensures !executes ==> store.rows == old(store.rows)
    ensures Dashboard.CanManage(role) && !executes ==> !response.reply.success
  {
    QuickActionsMatchWhitelist();
    assert Dashboard.ListingCompletes(None);
    response := Dashboard.UpdateStatus(store, role, None, id, Some(QuickActions[action]), executes);
  }
}
